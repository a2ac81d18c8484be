/** Chat files nobody saved: what the parser of share/knowledge/chat.js makes of date
    headers and checklist lines as people write them, with any line endings. */
module ChatFiles {
  import opened Options
  import opened Strings
  import opened ChatText
  import opened ChatFormat

  /** A date header, or a checklist line with its mark, its timestamp and its text, either
      of which may be missing; a text may go on over several lines. */
  datatype Line =
    | DateLine(date: string)
    | CheckLine(mark: char, timestamp: string, text: string)

  predicate IsLine(l: Line) {
    match l
    case DateLine(date) => date == "" || SafeText(date)
    case CheckLine(mark, timestamp, text) =>
      && (mark == ' ' || mark == 'x' || mark == 'X')
      && (timestamp == "" || IsStamp(timestamp))
      && (text == "" || SafeText(text))
  }

  function Box(mark: char): string {
    "- [" + [mark] + "] "
  }

  function LineText(l: Line): string {
    match l
    case DateLine(date) => "#### " + date
    case CheckLine(mark, timestamp, text) => Box(mark) + (StampPart(timestamp) + text)
  }

  function FileOf(lines: seq<Line>): string {
    if lines == [] then "" else FileOf(lines[..|lines| - 1]) + LineText(lines[|lines| - 1]) + "\n"
  }

  // ---- what such a file says ----

  /** What a checklist line says: nothing without a text, except that a timestamp alone is
      taken for a text; and the stamp a text begins with is taken for the timestamp. */
  function Says(l: Line, date: string): Option<Msg>
    requires l.CheckLine?
  {
    var done := l.mark != ' ';
    if l.text == "" && l.timestamp == "" then None
    else if l.text == "" then Some(Msg(done, "`" + l.timestamp + "`", "", date))
    else if l.timestamp == "" && Stamped(l.text) then Some(Msg(done, Trim(l.text[8..]), l.text[1..6], date))
    else Some(Msg(done, l.text, l.timestamp, date))
  }

  /** The checklist lines, empty ones and all. */
  function Checks(lines: seq<Line>): nat {
    if lines == [] then 0
    else Checks(lines[..|lines| - 1]) + if lines[|lines| - 1].CheckLine? then 1 else 0
  }

  function LastDate(lines: seq<Line>): string {
    if lines == [] then ""
    else if lines[|lines| - 1].DateLine? then lines[|lines| - 1].date
    else LastDate(lines[..|lines| - 1])
  }

  /** Every line that says something, under the last date before it, numbered by the
      checklist lines before it. */
  function Listed(lines: seq<Line>, today: string): seq<Entry> {
    if lines == [] then []
    else
      var before, l := lines[..|lines| - 1], lines[|lines| - 1];
      if l.DateLine? then Listed(before, today)
      else
        match Says(l, DateOr(LastDate(before), today))
        case None => Listed(before, today)
        case Some(m) => Listed(before, today) + [Entry(Checks(before), m)]
  }

  // ---- one line ----

  lemma BoxReads(mark: char, rest: string)
    requires mark == ' ' || mark == 'x' || mark == 'X'
    ensures var block := Box(mark) + rest;
            && Marked(block) && block[6..] == rest && block[3] == mark
            && !StartsWith(block, "####") && block[0] == '-'
  {
    var block := Box(mark) + rest;
    assert block[..3] == "- [" && block[0] != "####"[0];
  }

  /** A checklist line whose text, stamp included, is trimmed and not empty. */
  lemma {:induction false} FullBoxReads(mark: char, timestamp: string, text: string, date: string, today: string)
    requires IsLine(CheckLine(mark, timestamp, text)) && text != ""
    ensures var block := LineText(CheckLine(mark, timestamp, text));
            && IsBlock(block) && '\r' !in block && !StartsWith(block, "####")
            && ReadBlock(block, date, today) == Says(CheckLine(mark, timestamp, text), DateOr(date, today))
  {
    var stamp := StampPart(timestamp);
    BoxReads(mark, stamp + text);
    StampHasNoBreak(timestamp);
    assert Box(mark) + stamp + text == LineText(CheckLine(mark, timestamp, text));
    FrontedIsBlock(Box(mark) + stamp, text);
    TrimLeavesTrimmed(text);
    if timestamp != "" {
      StampReads(timestamp, text);
    } else {
      assert stamp + text == text;
      if Stamped(text) {
        StampTail(text);
      }
    }
  }

  /** A timestamp alone is read as the text that it is without the blank after it. */
  lemma {:induction false} BareStampReads(mark: char, timestamp: string, date: string, today: string)
    requires IsLine(CheckLine(mark, timestamp, "")) && timestamp != ""
    ensures var item := LineText(CheckLine(mark, timestamp, ""));
            && Starter(item) && NoInnerStarter(item) && '\r' !in item
            && !StartsWith(Trim(item), "####")
            && ReadBlock(Trim(item), date, today) == Says(CheckLine(mark, timestamp, ""), DateOr(date, today))
  {
    BareStampText(mark, timestamp);
    BareBoxReads(mark, timestamp, date, today);
    TrailingBlank(LineText(CheckLine(mark, "", "`" + timestamp + "`")), date, today);
  }

  lemma {:induction false} BareBoxReads(mark: char, timestamp: string, date: string, today: string)
    requires IsLine(CheckLine(mark, timestamp, "")) && timestamp != ""
    ensures var block := LineText(CheckLine(mark, "", "`" + timestamp + "`"));
            && IsBlock(block) && '\r' !in block && '\n' !in block && !StartsWith(block, "####")
            && ReadBlock(block, date, today) == Says(CheckLine(mark, timestamp, ""), DateOr(date, today))
  {
    var text := "`" + timestamp + "`";
    StampIsSafe(timestamp);
    FullBoxReads(mark, "", text, date, today);
    SameSaid(mark, timestamp, DateOr(date, today));
    BoxHasNoBreak(mark, timestamp);
  }

  lemma {:induction false} BoxHasNoBreak(mark: char, timestamp: string)
    requires mark != '\n' && IsStamp(timestamp)
    ensures '\n' !in LineText(CheckLine(mark, "", "`" + timestamp + "`"))
  {
    var text := "`" + timestamp + "`";
    assert StampPart("") + text == text && '\n' !in text;
  }

  lemma {:induction false} SameSaid(mark: char, timestamp: string, date: string)
    requires IsStamp(timestamp)
    ensures Says(CheckLine(mark, timestamp, ""), date) == Says(CheckLine(mark, "", "`" + timestamp + "`"), date)
  {
    StampIsSafe(timestamp);
  }

  lemma {:induction false} BareStampText(mark: char, timestamp: string)
    requires timestamp != ""
    ensures LineText(CheckLine(mark, timestamp, "")) == LineText(CheckLine(mark, "", "`" + timestamp + "`")) + " "
  {
    var text := "`" + timestamp + "`";
    assert StampPart("") + text == text && StampPart(timestamp) + "" == text + " ";
  }

  /** A blank after a block on one line. */
  lemma {:induction false} TrailingBlank(block: string, date: string, today: string)
    requires IsBlock(block) && '\r' !in block && '\n' !in block && !StartsWith(block, "####")
    ensures Starter(block + " ") && NoInnerStarter(block + " ") && '\r' !in block + " "
    ensures !StartsWith(Trim(block + " "), "####")
    ensures ReadBlock(Trim(block + " "), date, today) == ReadBlock(block, date, today)
  {
    assert (block + " ")[..|block|] == block;
    StarterOfPrefix(block, block + " ");
    TrimIgnoresTail(block, " ");
    TrimLeavesTrimmed(block);
    PlainIsClean(block + " ");
  }

  lemma {:induction false} StampIsSafe(timestamp: string)
    requires IsStamp(timestamp)
    ensures SafeText("`" + timestamp + "`") && !Stamped("`" + timestamp + "`")
  {
    PlainIsClean("`" + timestamp + "`");
  }

  /** A text on one line has no second opening line. */
  lemma PlainIsClean(s: string)
    requires '\n' !in s
    ensures NoInnerStarter(s)
  {
    InnerByPosition(s);
  }

  /** A box with nothing behind it is not even a box once it is trimmed. */
  lemma {:induction false} EmptyBoxReads(mark: char, date: string, today: string)
    requires IsLine(CheckLine(mark, "", ""))
    ensures var item := LineText(CheckLine(mark, "", ""));
            && Starter(item) && NoInnerStarter(item) && '\r' !in item
            && !StartsWith(Trim(item), "####") && ReadBlock(Trim(item), date, today) == None
  {
    var item, block := LineText(CheckLine(mark, "", "")), "- [" + [mark] + "]";
    assert StampPart("") + "" == "" && item == block + " ";
    BoxReads(mark, "");
    PlainIsClean(item);
    assert Trimmed(block);
    TrimLeavesTrimmed(block);
    TrimIgnoresTail(block, " ");
    assert block[0] != "####"[0];
  }

  lemma {:induction false} DateReads(date: string)
    requires IsLine(DateLine(date))
    ensures var item := LineText(DateLine(date));
            && Starter(item) && NoInnerStarter(item) && '\r' !in item
            && StartsWith(Trim(item), "####") && Trim(DropHashes(Trim(item))) == date
  {
    if date == "" {
      var hashes := "####";
      assert "#### " + date == hashes + " ";
      PlainIsClean(hashes + " ");
      TrimLeavesTrimmed(hashes);
      TrimIgnoresTail(hashes, " ");
      DropOneHash("");
      DropOneHash("#");
      DropOneHash("##");
      DropOneHash("###");
      assert "#" + "" == "#" && "#" + "#" == "##" && "#" + "##" == "###" && "#" + "###" == hashes;
    } else {
      HeaderIsBlock(date);
      TrimLeavesTrimmed(Heading(date));
    }
  }

  // ---- whole files ----

  /** Reading one more line. */
  lemma {:induction false} LineReads(l: Line, st: ParseState, i: nat, today: string)
    requires IsLine(l)
    ensures var item := LineText(l);
            && Starter(item) && NoInnerStarter(item) && '\r' !in item
            && ParseStep(st, i, Trim(item), today)
               == if l.DateLine? then st.(date := l.date, headers := st.headers + 1)
                  else match Says(l, DateOr(st.date, today))
                       case None => st
                       case Some(m) => st.(entries := st.entries + [Entry(i - st.headers, m)])
  {
    match l
    case DateLine(date) =>
      DateReads(date);
      HeaderStep(st, i, Trim(LineText(l)), today);
    case CheckLine(mark, timestamp, text) =>
      if text != "" {
        FullBoxReads(mark, timestamp, text, st.date, today);
        TrimLeavesTrimmed(LineText(l));
      } else if timestamp != "" {
        BareStampReads(mark, timestamp, st.date, today);
      } else {
        EmptyBoxReads(mark, st.date, today);
      }
      EntryStep(st, i, Trim(LineText(l)), today, Says(l, DateOr(st.date, today)));
  }

  lemma {:induction false} HeaderStep(st: ParseState, i: nat, block: string, today: string)
    requires StartsWith(block, "####")
    ensures ParseStep(st, i, block, today) == st.(date := Trim(DropHashes(block)), headers := st.headers + 1)
  {}

  lemma {:induction false} EntryStep(st: ParseState, i: nat, block: string, today: string, said: Option<Msg>)
    requires !StartsWith(block, "####") && ReadBlock(block, st.date, today) == said
    ensures ParseStep(st, i, block, today)
            == match said
               case None => st
               case Some(m) => st.(entries := st.entries + [Entry(i - st.headers, m)])
  {}

  lemma {:induction false} LinesRead(lines: seq<Line>, today: string)
    requires forall l :: l in lines ==> IsLine(l)
    ensures Checks(lines) <= |lines|
    ensures ReadingOf(FileOf(lines), today)
            == Reading(ParseState(Listed(lines, today), LastDate(lines), |lines| - Checks(lines)), |lines|, true)
  {
    if lines != [] {
      var before, l := lines[..|lines| - 1], lines[|lines| - 1];
      LinesRead(before, today);
      var r := ReadingOf(FileOf(before), today);
      LineReads(l, r.state, r.blocks, today);
      BlockReads(FileOf(before), LineText(l), today);
    }
  }

  /** A file of date headers and checklist lines says what its lines say: a capital X is
      done, a line without a text is no entry but counts, and a date holds for the lines
      up to the next; whether the lines end in LF, CR LF, some of each, or CR. */
  lemma FileReads(lines: seq<Line>, crlf: seq<bool>, today: string)
    requires (forall l :: l in lines ==> IsLine(l)) && |crlf| == |FileOf(lines)|
    ensures Parse(FileOf(lines), today) == Listed(lines, today)
    ensures Parse(WithCrLf(FileOf(lines), crlf), today) == Listed(lines, today)
    ensures Parse(WithCr(FileOf(lines)), today) == Listed(lines, today)
  {
    var file := FileOf(lines);
    LinesRead(lines, today);
    ReadingParses(file, today);
    EndingsAreNewlines(file, crlf);
    NormaliseIsClean(file);
  }

  // ---- the layout of a saved file ----

  /** Every date header but one at the very top has a blank line before it. */
  ghost predicate HeadersApart(lines: seq<string>) {
    forall i :: 0 < i < |lines| && Header(lines[i]) ==> lines[i - 1] == ""
  }

  lemma ItemStaysApart(c: string, item: string)
    requires Ended(c) && HeadersApart(Body(c)) && NoInnerStarter(item)
    requires Header(item) ==> Body(c) == [] || Body(c)[|Body(c)| - 1] == ""
    ensures Ended(c + item + "\n") && HeadersApart(Body(c + item + "\n"))
  {
    BodyAppend(c, item);
    InnerLinesContinue(item);
    HeaderIsFirstLine(item);
    var before, more := Body(c), Split(item, '\n');
    forall i | 0 < i < |before + more| && Header((before + more)[i])
      ensures (before + more)[i - 1] == ""
    {
      assert i <= |before|;
    }
  }

  lemma HeaderIsFirstLine(item: string)
    ensures Header(Split(item, '\n')[0]) ==> Header(item)
  {
    FirstLine(item);
    var first := Split(item, '\n')[0];
    assert Header(first) ==> item[..5] == first[..5];
  }

  lemma {:induction false} MsgsStayApart(c: string, group: seq<Msg>)
    requires Ended(c) && HeadersApart(Body(c)) && forall m :: m in group ==> SafeMsg(m)
    ensures Ended(PrintMsgs(c, group)) && HeadersApart(Body(PrintMsgs(c, group)))
  {
    if group != [] {
      var m := group[|group| - 1];
      assert m in group;
      MsgsStayApart(c, group[..|group| - 1]);
      MsgIsNoHeader(m);
      ItemStaysApart(PrintMsgs(c, group[..|group| - 1]), PrintMsg(m));
    }
  }

  lemma {:induction false} MsgIsNoHeader(m: Msg)
    requires SafeMsg(m)
    ensures NoInnerStarter(PrintMsg(m)) && !Header(PrintMsg(m))
  {
    MsgIsBlock(m);
    MarkerReads(m.done, StampPart(m.timestamp) + m.text);
    assert PrintMsg(m)[0] == '-' && "#### "[0] == '#';
  }

  lemma {:induction false} GroupsStayApart(ms: seq<Msg>, header: string, ks: seq<string>)
    requires (forall m :: m in ms ==> SafeMsg(m)) && SafeKeys(ks)
    ensures Ended(PrintGroups(ms, header, ks)) && HeadersApart(Body(PrintGroups(ms, header, ks)))
  {
    if ks != [] {
      var k := ks[|ks| - 1];
      var c := PrintGroups(ms, header, ks[..|ks| - 1]);
      GroupsStayApart(ms, header, ks[..|ks| - 1]);
      HeaderIsBlock(k);
      if c != "" {
        ItemStaysApart(c, "");
        BodyAppend(c, "");
        assert c + "" + "\n" == c + "\n";
        ItemStaysApart(c + "\n", Heading(k));
      } else {
        assert c + Heading(k) + "\n" == PrintHeader(c, k);
        ItemStaysApart(c, Heading(k));
      }
      OnKeyMembers(ms, header, k);
      MsgsStayApart(PrintHeader(c, k), OnKey(ms, header, k));
    }
  }

  /** A saved file has a blank line before every date header but the first. */
  lemma SavedHeadersStandApart(ms: seq<Msg>, header: string)
    requires (forall m :: m in ms ==> SafeMsg(m)) && SafeText(header) && Save(ms, header).Ok?
    ensures HeadersApart(Body(Save(ms, header).value))
  {
    SavedKeysAreSafe(ms, header);
    GroupsStayApart(ms, header, EntryOrder(Keys(ms, header)));
  }
}
