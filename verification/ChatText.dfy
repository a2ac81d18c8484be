/** The text layer of share/knowledge/chat.js: JavaScript trimming, line endings, and the
    line blocks a chat file is cut into. */
module ChatText {
  import opened Strings

  // ---- trimming ----

  /** What `String.prototype.trim` and `\s` treat as white space. */
  predicate IsSpace(c: char) {
    || c == ' ' || c == '\t' || c == '\n' || c == '\r' || c == '\U{0B}' || c == '\U{0C}'
    || c == '\U{A0}' || c == '\U{1680}' || '\U{2000}' <= c <= '\U{200A}' || c == '\U{2028}'
    || c == '\U{2029}' || c == '\U{202F}' || c == '\U{205F}' || c == '\U{3000}' || c == '\U{FEFF}'
  }

  function TrimStart(s: string): string {
    if s != "" && IsSpace(s[0]) then TrimStart(s[1..]) else s
  }

  function TrimEnd(s: string): string {
    if s != "" && IsSpace(s[|s| - 1]) then TrimEnd(s[..|s| - 1]) else s
  }

  function Trim(s: string): string {
    TrimEnd(TrimStart(s))
  }

  predicate Trimmed(s: string) {
    s != "" ==> !IsSpace(s[0]) && !IsSpace(s[|s| - 1])
  }

  predicate Blank(s: string) {
    forall c :: c in s ==> IsSpace(c)
  }

  lemma {:induction false} TrimStartSplits(s: string) returns (a: string)
    ensures Blank(a) && s == a + TrimStart(s)
    ensures TrimStart(s) != "" ==> !IsSpace(TrimStart(s)[0])
  {
    if s != "" && IsSpace(s[0]) {
      var a' := TrimStartSplits(s[1..]);
      a := [s[0]] + a';
    } else {
      a := "";
    }
  }

  lemma {:induction false} TrimEndSplits(s: string) returns (b: string)
    ensures Blank(b) && s == TrimEnd(s) + b
    ensures TrimEnd(s) != "" ==> !IsSpace(TrimEnd(s)[|TrimEnd(s)| - 1])
  {
    if s != "" && IsSpace(s[|s| - 1]) {
      var b' := TrimEndSplits(s[..|s| - 1]);
      b := b' + [s[|s| - 1]];
      assert s == s[..|s| - 1] + [s[|s| - 1]];
    } else {
      b := "";
    }
  }

  /** Trimming takes white space off both ends, and nothing else. */
  lemma TrimSplits(s: string) returns (a: string, b: string)
    ensures Blank(a) && Blank(b) && s == a + Trim(s) + b && Trimmed(Trim(s))
  {
    a := TrimStartSplits(s);
    b := TrimEndSplits(TrimStart(s));
    assert Trim(s) != "" ==> Trim(s)[0] == TrimStart(s)[0];
  }

  lemma {:induction false} TrimStartSkips(a: string, t: string)
    requires Blank(a) && (t != "" ==> !IsSpace(t[0]))
    ensures TrimStart(a + t) == t
  {
    if a == "" {
      assert a + t == t;
    } else {
      assert a[0] in a;
      TrimStartSkips(a[1..], t);
      assert (a + t)[1..] == a[1..] + t;
    }
  }

  lemma {:induction false} TrimEndSkips(t: string, b: string)
    requires Blank(b) && (t != "" ==> !IsSpace(t[|t| - 1]))
    ensures TrimEnd(t + b) == t
  {
    if b == "" {
      assert t + b == t;
    } else {
      assert b[|b| - 1] in b;
      TrimEndSkips(t, b[..|b| - 1]);
      assert (t + b)[..|t + b| - 1] == t + b[..|b| - 1];
    }
  }

  /** There is only one trimmed text between two stretches of white space. */
  lemma TrimFinds(a: string, t: string, b: string)
    requires Blank(a) && Blank(b) && Trimmed(t)
    ensures Trim(a + t + b) == t
  {
    if t == "" {
      assert a + t + b == (a + b) + "";
      TrimStartSkips(a + b, "");
    } else {
      assert a + t + b == a + (t + b);
      TrimStartSkips(a, t + b);
      TrimEndSkips(t, b);
    }
  }

  lemma TrimLeavesTrimmed(t: string)
    requires Trimmed(t)
    ensures Trim(t) == t
  {}

  lemma TrimIgnoresTail(s: string, b: string)
    requires Blank(b)
    ensures Trim(s + b) == Trim(s)
  {
    var p, q := TrimSplits(s);
    TrimFinds(p, Trim(s), q + b);
    assert p + Trim(s) + (q + b) == s + b;
  }

  // ---- line endings ----

  function ReplaceCrLf(s: string): string {
    if |s| >= 2 && s[0] == '\r' && s[1] == '\n' then "\n" + ReplaceCrLf(s[2..])
    else if s == "" then ""
    else [s[0]] + ReplaceCrLf(s[1..])
  }

  function ReplaceCr(s: string): string {
    if s == "" then ""
    else [if s[0] == '\r' then '\n' else s[0]] + ReplaceCr(s[1..])
  }

  function Normalise(s: string): string {
    ReplaceCr(ReplaceCrLf(s))
  }

  lemma {:induction false} ReplaceCrIsClean(s: string)
    ensures '\r' !in ReplaceCr(s)
    ensures '\r' !in s ==> ReplaceCr(s) == s && ReplaceCrLf(s) == s
  {
    if s != "" {
      ReplaceCrIsClean(s[1..]);
      if '\r' !in s {
        assert s[0] in s;
        assert s == [s[0]] + s[1..];
      }
    }
  }

  lemma NormaliseIsClean(s: string)
    ensures '\r' !in Normalise(s)
    ensures '\r' !in s ==> Normalise(s) == s
  {
    ReplaceCrIsClean(s);
    ReplaceCrIsClean(ReplaceCrLf(s));
  }

  /** A text with some or all of its line feeds written as CR LF. */
  function WithCrLf(s: string, crlf: seq<bool>): string
    requires |crlf| == |s|
  {
    if s == "" then ""
    else (if s[0] == '\n' && crlf[0] then "\r\n" else [s[0]]) + WithCrLf(s[1..], crlf[1..])
  }

  /** A text with all of its line feeds written as CR. */
  function WithCr(s: string): string {
    if s == "" then "" else [if s[0] == '\n' then '\r' else s[0]] + WithCr(s[1..])
  }

  lemma {:induction false} CrLfIsNewline(s: string, crlf: seq<bool>)
    requires |crlf| == |s| && '\r' !in s
    ensures ReplaceCrLf(WithCrLf(s, crlf)) == s && Normalise(WithCrLf(s, crlf)) == s
  {
    ReplaceCrIsClean(s);
    if s != "" {
      CrLfIsNewline(s[1..], crlf[1..]);
      var t, rest := WithCrLf(s, crlf), WithCrLf(s[1..], crlf[1..]);
      assert s[0] in s && s == [s[0]] + s[1..];
      if s[0] == '\n' && crlf[0] {
        assert t[2..] == rest;
      } else {
        assert t[1..] == rest;
      }
    }
  }

  lemma {:induction false} CrIsNewline(s: string)
    requires '\r' !in s
    ensures '\n' !in WithCr(s) && ReplaceCr(WithCr(s)) == s
  {
    if s != "" {
      assert s[0] in s;
      CrIsNewline(s[1..]);
      assert WithCr(s)[1..] == WithCr(s[1..]) && s == [s[0]] + s[1..];
    }
  }

  lemma {:induction false} NoNewlineNoCrLf(s: string)
    requires '\n' !in s
    ensures ReplaceCrLf(s) == s
  {
    if s != "" {
      assert |s| >= 2 ==> s[1] in s;
      NoNewlineNoCrLf(s[1..]);
      assert s == [s[0]] + s[1..];
    }
  }

  /** All three line endings are read as line feeds. */
  lemma EndingsAreNewlines(s: string, crlf: seq<bool>)
    requires |crlf| == |s| && '\r' !in s
    ensures Normalise(WithCrLf(s, crlf)) == s && Normalise(WithCr(s)) == s
  {
    CrLfIsNewline(s, crlf);
    CrIsNewline(s);
    NoNewlineNoCrLf(WithCr(s));
  }

  // ---- lines and blocks ----

  predicate Header(s: string) {
    StartsWith(s, "#### ")
  }

  /** A checklist marker: `- [ ] `, `- [x] ` or `- [X] `. */
  predicate Marked(s: string) {
    |s| >= 6 && s[..3] == "- [" && (s[3] == ' ' || s[3] == 'x' || s[3] == 'X') && s[4] == ']' && s[5] == ' '
  }

  /** A line that opens a block. */
  predicate Starter(s: string) {
    Header(s) || Marked(s)
  }

  /** The lines of a file, each opening line with the lines up to the next one; lines
      before the first opening line belong nowhere. */
  function Chunks(lines: seq<string>): (cs: seq<seq<string>>)
    ensures forall i :: 0 <= i < |cs| ==> cs[i] != []
  {
    if lines == [] then []
    else
      var before, line := Chunks(lines[..|lines| - 1]), lines[|lines| - 1];
      if Starter(line) then before + [[line]]
      else if before == [] then []
      else before[..|before| - 1] + [before[|before| - 1] + [line]]
  }

  function BlockOf(chunk: seq<string>): string {
    Trim(Join(chunk, '\n'))
  }

  function BlocksOf(chunks: seq<seq<string>>): (bs: seq<string>)
    ensures |bs| == |chunks|
  {
    if chunks == [] then []
    else BlocksOf(chunks[..|chunks| - 1]) + [BlockOf(chunks[|chunks| - 1])]
  }

  function Blocks(lines: seq<string>): seq<string> {
    BlocksOf(Chunks(lines))
  }

  lemma {:induction false} JoinSnoc(parts: seq<string>, line: string)
    requires parts != []
    ensures Join(parts + [line], '\n') == Join(parts, '\n') + "\n" + line
  {
    if |parts| > 1 {
      JoinSnoc(parts[1..], line);
      assert (parts + [line])[1..] == parts[1..] + [line];
    }
  }

  /** A blank line at the end of a file belongs to no block's text. */
  lemma BlankLineAdds(lines: seq<string>)
    ensures Blocks(lines + [""]) == Blocks(lines)
  {
    var longer := lines + [""];
    assert longer[..|longer| - 1] == lines;
    var before := Chunks(lines);
    if before != [] {
      var last := before[|before| - 1];
      assert Chunks(longer) == before[..|before| - 1] + [last + [""]];
      assert Chunks(longer)[..|before| - 1] == before[..|before| - 1];
      JoinSnoc(last, "");
      TrimIgnoresTail(Join(last, '\n'), "\n");
      assert Join(last, '\n') + "\n" + "" == Join(last, '\n') + "\n";
    }
  }

  lemma ChunksSnoc(lines: seq<string>, line: string)
    ensures var before := Chunks(lines);
            Chunks(lines + [line])
            == if Starter(line) then before + [[line]]
               else if before == [] then []
               else before[..|before| - 1] + [before[|before| - 1] + [line]]
  {}

  lemma LastChunkGrows(cs: seq<seq<string>>, last: seq<string>, line: string)
    ensures var before := cs + [last];
            before[..|before| - 1] + [before[|before| - 1] + [line]] == cs + [last + [line]]
  {}

  /** An opening line with continuation lines becomes one more chunk. */
  lemma {:induction false} ChunkAdds(lines: seq<string>, chunk: seq<string>)
    requires chunk != [] && Starter(chunk[0])
    requires forall i :: 1 <= i < |chunk| ==> !Starter(chunk[i])
    ensures Chunks(lines + chunk) == Chunks(lines) + [chunk]
  {
    var n := |chunk| - 1;
    assert lines + chunk == (lines + chunk[..n]) + [chunk[n]];
    ChunksSnoc(lines + chunk[..n], chunk[n]);
    if n == 0 {
      assert lines + chunk[..n] == lines && chunk == [chunk[0]];
    } else {
      ChunkAdds(lines, chunk[..n]);
      LastChunkGrows(Chunks(lines), chunk[..n], chunk[n]);
      assert chunk[..n] + [chunk[n]] == chunk;
    }
  }

  // ---- text that a block can hold ----

  /** No line but the first opens a block. */
  predicate NoInnerStarter(s: string) {
    s == "" || ((s[0] == '\n' ==> !Starter(s[1..])) && NoInnerStarter(s[1..]))
  }

  ghost predicate NoStarterAfterBreak(s: string) {
    forall i :: 0 <= i < |s| && s[i] == '\n' ==> !Starter(s[i + 1..])
  }

  lemma {:induction false} InnerByPosition(s: string)
    ensures NoInnerStarter(s) <==> NoStarterAfterBreak(s)
  {
    if s != "" {
      InnerByPosition(s[1..]);
      assert forall i :: 0 < i < |s| ==> s[i + 1..] == s[1..][i - 1 + 1..] && s[i] == s[1..][i - 1];
      assert s[0 + 1..] == s[1..];
      if NoStarterAfterBreak(s) {
        forall i | 0 <= i < |s[1..]| && s[1..][i] == '\n'
          ensures !Starter(s[1..][i + 1..])
        {
          assert s[i + 1] == '\n' && s[i + 1 + 1..] == s[1..][i + 1..];
        }
      }
    }
  }

  lemma {:induction false} FirstLine(s: string)
    ensures var first := Split(s, '\n')[0];
            |first| <= |s| && s[..|first|] == first && '\n' !in first && (|first| < |s| ==> s[|first|] == '\n')
  {
    if s != "" && s[0] != '\n' {
      FirstLine(s[1..]);
      var rest := Split(s[1..], '\n');
      assert s == [s[0]] + s[1..];
      assert Split(s, '\n')[0] == [s[0]] + rest[0];
    }
  }

  /** Whether a text opens a block shows in its first line. */
  lemma StarterIsFirstLine(s: string)
    ensures Starter(Split(s, '\n')[0]) <==> Starter(s)
  {
    FirstLine(s);
    var n := |Split(s, '\n')[0]|;
    if n < |s| {
      OpeningHasNoBreak(s, n);
    }
    if Header(s) || Header(s[..n]) {
      assert n >= 5 && s[..n][..5] == s[..5];
    }
    if Marked(s) || Marked(s[..n]) {
      assert n >= 6 && s[..n][..3] == s[..3];
    }
  }

  lemma OpeningHasNoBreak(s: string, n: nat)
    requires n < |s| && s[n] == '\n'
    ensures Header(s) ==> n >= 5
    ensures Marked(s) ==> n >= 6
  {}

  lemma {:induction false} InnerLinesContinue(s: string)
    requires NoInnerStarter(s)
    ensures forall i :: 1 <= i < |Split(s, '\n')| ==> !Starter(Split(s, '\n')[i])
  {
    if s != "" {
      InnerLinesContinue(s[1..]);
      if s[0] == '\n' {
        StarterIsFirstLine(s[1..]);
      }
    }
  }

  lemma {:induction false} ChunkHasNoInnerStarter(chunk: seq<string>)
    requires chunk != []
    requires forall l :: l in chunk ==> '\n' !in l
    requires forall i :: 1 <= i < |chunk| ==> !Starter(chunk[i])
    ensures NoInnerStarter(Join(chunk, '\n'))
  {
    var s := Join(chunk, '\n');
    if |chunk| == 1 {
      assert chunk[0] in chunk;
      InnerByPosition(s);
    } else {
      var rest := Join(chunk[1..], '\n');
      ChunkHasNoInnerStarter(chunk[1..]);
      InnerByPosition(rest);
      SplitJoin(chunk[1..], '\n');
      StarterIsFirstLine(rest);
      var n := |chunk[0]|;
      assert s == chunk[0] + ['\n'] + rest;
      assert chunk[0] in chunk;
      forall i | 0 <= i < |s| && s[i] == '\n'
        ensures !Starter(s[i + 1..])
      {
        if i == n {
          assert s[i + 1..] == rest;
        } else if i > n {
          assert s[i + 1..] == rest[i - n..];
          assert rest[i - n - 1] == '\n';
          assert rest[(i - n - 1) + 1..] == rest[i - n..];
        }
      }
      InnerByPosition(s);
    }
  }

  lemma StarterOfPrefix(s: string, t: string)
    requires |s| <= |t| && t[..|s|] == s && Starter(s)
    ensures Starter(t)
  {}

  /** Parts of such a text are such texts. */
  lemma PartHasNoInnerStarter(a: string, t: string, b: string)
    requires NoInnerStarter(a + t + b)
    ensures NoInnerStarter(t)
  {
    var s := a + t + b;
    InnerByPosition(s);
    forall i | 0 <= i < |t| && t[i] == '\n'
      ensures !Starter(t[i + 1..])
    {
      assert s[|a| + i] == '\n';
      var tail := s[|a| + i + 1..];
      assert tail == t[i + 1..] + b;
      if Starter(t[i + 1..]) {
        assert tail[..|t[i + 1..]|] == t[i + 1..];
        StarterOfPrefix(t[i + 1..], tail);
      }
    }
    InnerByPosition(t);
  }

  /** Putting something on one line in front changes nothing. */
  lemma PrefixHasNoInnerStarter(a: string, t: string)
    requires '\n' !in a && NoInnerStarter(t)
    ensures NoInnerStarter(a + t)
  {
    InnerByPosition(t);
    forall i | 0 <= i < |a + t| && (a + t)[i] == '\n'
      ensures !Starter((a + t)[i + 1..])
    {
      if i >= |a| {
        assert (a + t)[i + 1..] == t[i - |a| + 1..];
      }
    }
    InnerByPosition(a + t);
  }

  /** A whole block as it is printed: opened, trimmed, with no second opening line. */
  predicate IsBlock(item: string) {
    Starter(item) && NoInnerStarter(item) && Trimmed(item)
  }

  /** An opening text with no second opening line, after complete lines, is read as one
      block, trimmed. */
  lemma BlockAdds(lines: seq<string>, item: string)
    requires Starter(item) && NoInnerStarter(item)
    ensures Blocks(lines + Split(item, '\n')) == Blocks(lines) + [Trim(item)]
  {
    var chunk := Split(item, '\n');
    InnerLinesContinue(item);
    StarterIsFirstLine(item);
    ChunkAdds(lines, chunk);
    JoinSplit(item, '\n');
    assert (Chunks(lines) + [chunk])[..|Chunks(lines)|] == Chunks(lines);
  }

  /** What has been printed ends its last line. */
  predicate Ended(c: string) {
    c != "" ==> c[|c| - 1] == '\n'
  }

  /** The complete lines of what has been printed. */
  function Body(c: string): seq<string> {
    if c == "" then [] else Split(c[..|c| - 1], '\n')
  }

  lemma BodyAppend(c: string, s: string)
    requires Ended(c)
    ensures Ended(c + s + "\n") && Body(c + s + "\n") == Body(c) + Split(s, '\n')
  {
    var all := c + s + "\n";
    assert all[..|all| - 1] == c + s;
    if c == "" {
      assert c + s == s;
    } else {
      var head := c[..|c| - 1];
      assert c + s == head + ['\n'] + s;
      SplitAt(head, s, '\n');
    }
  }

  /** A finished file has the printed lines and one blank line. */
  lemma FileLines(c: string)
    requires Ended(c)
    ensures Blocks(Split(c, '\n')) == Blocks(Body(c))
  {
    if c == "" {
      assert Split(c, '\n') == [] + [""];
      BlankLineAdds([]);
    } else {
      assert c == c[..|c| - 1] + ['\n'] + "";
      SplitAt(c[..|c| - 1], "", '\n');
      BlankLineAdds(Body(c));
    }
  }
}
