/** The chat file of share/knowledge/chat.js: the line-block parser, the printer that
    groups by date, and moving one message out. */
module ChatFormat {
  import opened Options
  import opened Strings
  import opened ChatText

  datatype Msg = Msg(done: bool, text: string, timestamp: string, date: string)

  /** What the parser pushes: `index` counts the blocks that are no date headers. */
  datatype Entry = Entry(index: int, msg: Msg)

  // ---- parsing ----

  /** The text starts with a back-quoted `dd:dd` and a space. */
  predicate Stamped(s: string) {
    |s| >= 8 && s[0] == '`' && IsStamp(s[1..6]) && s[6] == '`' && s[7] == ' '
  }

  predicate IsStamp(s: string) {
    |s| == 5 && IsDigit(s[0]) && IsDigit(s[1]) && s[2] == ':' && IsDigit(s[3]) && IsDigit(s[4])
  }

  /** `currentDate || new Date().toDateString()` */
  function DateOr(date: string, today: string): string {
    if date == "" then today else date
  }

  /** A block that is no header, as a message; `None` for a block the parser skips. */
  function ReadBlock(block: string, date: string, today: string): Option<Msg> {
    var marked := Marked(block);
    var rest := if marked then block[6..] else block;
    var stamped := Stamped(rest);
    var text := Trim(if stamped then rest[8..] else rest);
    if (!marked && !stamped) || text == "" then None
    else Some(Msg(marked && block[3] != ' ', text, if stamped then rest[1..6] else "", DateOr(date, today)))
  }

  function DropHashes(s: string): string {
    if s != "" && s[0] == '#' then DropHashes(s[1..]) else s
  }

  datatype ParseState = ParseState(entries: seq<Entry>, date: string, headers: nat)

  /** One round of the loop over the blocks, at block number `i`. */
  function ParseStep(st: ParseState, i: nat, block: string, today: string): ParseState {
    if StartsWith(block, "####") then
      st.(date := Trim(DropHashes(block)), headers := st.headers + 1)
    else
      match ReadBlock(block, st.date, today)
      case None => st
      case Some(m) => st.(entries := st.entries + [Entry(i - st.headers, m)])
  }

  function ParseBlocks(blocks: seq<string>, today: string): ParseState {
    if blocks == [] then ParseState([], "", 0)
    else
      var n := |blocks| - 1;
      ParseStep(ParseBlocks(blocks[..n], today), n, blocks[n], today)
  }

  function Parse(file: string, today: string): seq<Entry> {
    ParseBlocks(Blocks(Split(Normalise(file), '\n')), today).entries
  }

  function MessagesOf(es: seq<Entry>): (ms: seq<Msg>)
    ensures |ms| == |es|
  {
    if es == [] then [] else MessagesOf(es[..|es| - 1]) + [es[|es| - 1].msg]
  }

  // ---- printing ----

  /** The group a message is filed under. */
  function KeyOf(m: Msg, header: string): string {
    if m.date == "" then header else m.date
  }

  /** The keys of the grouping object in the order they were first assigned. */
  function Keys(ms: seq<Msg>, header: string): seq<string> {
    if ms == [] then []
    else
      var before, k := Keys(ms[..|ms| - 1], header), KeyOf(ms[|ms| - 1], header);
      if k in before then before else before + [k]
  }

  function OnKey(ms: seq<Msg>, header: string, k: string): seq<Msg> {
    if ms == [] then []
    else OnKey(ms[..|ms| - 1], header, k) + if KeyOf(ms[|ms| - 1], header) == k then [ms[|ms| - 1]] else []
  }

  /** A property name that JavaScript lists as an array index. */
  predicate IsIndexKey(k: string) {
    && k != "" && (forall c :: c in k ==> IsDigit(c))
    && (k == "0" || k[0] != '0') && DigitsValue(k) <= 0xFFFF_FFFE
  }

  type IndexKey = k: string | IsIndexKey(k) witness "0"

  function InsertIndex(k: IndexKey, ks: seq<IndexKey>): seq<IndexKey> {
    if ks == [] || DigitsValue(k) <= DigitsValue(ks[0]) then [k] + ks
    else [ks[0]] + InsertIndex(k, ks[1..])
  }

  function IndexKeys(keys: seq<string>): seq<IndexKey> {
    if keys == [] then []
    else
      var before, k := IndexKeys(keys[..|keys| - 1]), keys[|keys| - 1];
      if IsIndexKey(k) then InsertIndex(k, before) else before
  }

  function NamedKeys(keys: seq<string>): seq<string> {
    if keys == [] then []
    else NamedKeys(keys[..|keys| - 1]) + if IsIndexKey(keys[|keys| - 1]) then [] else [keys[|keys| - 1]]
  }

  /** `Object.entries` order: array indices ascending, then the rest as inserted. */
  function EntryOrder(keys: seq<string>): seq<string> {
    IndexKeys(keys) + NamedKeys(keys)
  }

  const INHERITED_NAMES: seq<string> :=
    ["constructor", "__proto__", "hasOwnProperty", "isPrototypeOf", "propertyIsEnumerable",
     "toLocaleString", "toString", "valueOf", "__defineGetter__", "__defineSetter__",
     "__lookupGetter__", "__lookupSetter__"]

  predicate OneOf(k: string, names: seq<string>) {
    names != [] && (k == names[0] || OneOf(k, names[1..]))
  }

  /** Names every object inherits: looking one up finds something that has no `push`. */
  predicate Inherited(k: string) {
    OneOf(k, INHERITED_NAMES)
  }

  function Marker(done: bool): string {
    if done then "- [x] " else "- [ ] "
  }

  function StampPart(timestamp: string): string {
    if timestamp != "" then "`" + timestamp + "` " else ""
  }

  function PrintMsg(m: Msg): string {
    Marker(m.done) + (StampPart(m.timestamp) + m.text)
  }

  function Heading(k: string): string {
    "#### " + k
  }

  function PrintHeader(content: string, k: string): string {
    (if content != "" then content + "\n" else "") + Heading(k) + "\n"
  }

  function PrintMsgs(content: string, ms: seq<Msg>): string {
    if ms == [] then content
    else PrintMsgs(content, ms[..|ms| - 1]) + PrintMsg(ms[|ms| - 1]) + "\n"
  }

  function PrintGroups(ms: seq<Msg>, header: string, ks: seq<string>): string {
    if ks == [] then ""
    else
      var k := ks[|ks| - 1];
      PrintMsgs(PrintHeader(PrintGroups(ms, header, ks[..|ks| - 1]), k), OnKey(ms, header, k))
  }

  datatype SaveError = TypeError

  /** Filing some message under an inherited name throws. */
  predicate Throws(ms: seq<Msg>, header: string) {
    exists i :: 0 <= i < |ms| && Inherited(KeyOf(ms[i], header))
  }

  /** What `saveMessagesToChat` writes, or the exception before it writes. */
  function Save(ms: seq<Msg>, header: string): Result<string, SaveError> {
    if Throws(ms, header) then Err(TypeError)
    else Ok(PrintGroups(ms, header, EntryOrder(Keys(ms, header))))
  }

  // ---- the stable regrouping ----

  function Gather(ms: seq<Msg>, header: string, ks: seq<string>): seq<Msg> {
    if ks == [] then []
    else Gather(ms, header, ks[..|ks| - 1]) + OnKey(ms, header, ks[|ks| - 1])
  }

  /** The messages brought together by group, each group in its old order. */
  function Regroup(ms: seq<Msg>, header: string): seq<Msg> {
    Gather(ms, header, EntryOrder(Keys(ms, header)))
  }

  ghost predicate Distinct(ks: seq<string>) {
    forall i, j :: 0 <= i < j < |ks| ==> ks[i] != ks[j]
  }

  lemma {:induction false} KeysCover(ms: seq<Msg>, header: string)
    ensures Distinct(Keys(ms, header))
    ensures forall k :: k in Keys(ms, header) <==> exists i :: 0 <= i < |ms| && KeyOf(ms[i], header) == k
  {
    if ms != [] {
      var n := |ms| - 1;
      KeysCover(ms[..n], header);
      forall k
        ensures k in Keys(ms, header) <==> exists i :: 0 <= i < |ms| && KeyOf(ms[i], header) == k
      {
        if k in Keys(ms[..n], header) {
          var i :| 0 <= i < n && KeyOf(ms[..n][i], header) == k;
          assert KeyOf(ms[i], header) == k;
        } else if k == KeyOf(ms[n], header) {
          assert k in Keys(ms, header);
        } else {
          assert forall i :: 0 <= i < n ==> KeyOf(ms[..n][i], header) != k;
        }
      }
    }
  }

  lemma {:induction false} InsertIndexElems(k: IndexKey, ks: seq<IndexKey>)
    requires Distinct(ks) && k !in ks
    ensures Distinct(InsertIndex(k, ks))
    ensures forall j :: j in InsertIndex(k, ks) <==> j == k || j in ks
  {
    if ks != [] {
      InsertIndexElems(k, ks[1..]);
      assert ks == [ks[0]] + ks[1..];
      assert ks[0] !in ks[1..];
    }
  }

  lemma {:induction false} EntryOrderElems(keys: seq<string>)
    requires Distinct(keys)
    ensures Distinct(IndexKeys(keys)) && Distinct(NamedKeys(keys))
    ensures forall k :: k in IndexKeys(keys) <==> k in keys && IsIndexKey(k)
    ensures forall k :: k in NamedKeys(keys) <==> k in keys && !IsIndexKey(k)
  {
    if keys != [] {
      var n := |keys| - 1;
      EntryOrderElems(keys[..n]);
      assert keys == keys[..n] + [keys[n]];
      assert keys[n] !in keys[..n];
      if IsIndexKey(keys[n]) {
        InsertIndexElems(keys[n], IndexKeys(keys[..n]));
      }
    }
  }

  lemma GroupOrder(ms: seq<Msg>, header: string)
    ensures var ks := EntryOrder(Keys(ms, header));
            && Distinct(ks)
            && forall k :: k in ks <==> exists i :: 0 <= i < |ms| && KeyOf(ms[i], header) == k
  {
    KeysCover(ms, header);
    EntryOrderElems(Keys(ms, header));
    var a, b := IndexKeys(Keys(ms, header)), NamedKeys(Keys(ms, header));
    forall i, j | 0 <= i < j < |a + b|
      ensures (a + b)[i] != (a + b)[j]
    {
      if i < |a| <= j {
        assert a[i] in a && b[j - |a|] in b;
      }
    }
  }

  lemma {:induction false} OnKeyMembers(ms: seq<Msg>, header: string, k: string)
    ensures forall m :: m in OnKey(ms, header, k) <==> m in ms && KeyOf(m, header) == k
  {
    if ms != [] {
      OnKeyMembers(ms[..|ms| - 1], header, k);
      assert ms == ms[..|ms| - 1] + [ms[|ms| - 1]];
    }
  }

  lemma {:induction false} OnKeyConcat(a: seq<Msg>, b: seq<Msg>, header: string, k: string)
    ensures OnKey(a + b, header, k) == OnKey(a, header, k) + OnKey(b, header, k)
  {
    if b == [] {
      assert a + b == a;
    } else {
      var init, last := b[..|b| - 1], b[|b| - 1];
      OnKeyConcat(a, init, header, k);
      var more := if KeyOf(last, header) == k then [last] else [];
      assert (a + b)[..|a + b| - 1] == a + init;
      assert OnKey(a, header, k) + OnKey(init, header, k) + more == OnKey(a, header, k) + (OnKey(init, header, k) + more);
    }
  }

  lemma {:induction false} OnKeyOfGroup(g: seq<Msg>, header: string, j: string, k: string)
    requires forall i :: 0 <= i < |g| ==> KeyOf(g[i], header) == j
    ensures OnKey(g, header, k) == if j == k then g else []
  {
    if g != [] {
      var init, last := g[..|g| - 1], g[|g| - 1];
      assert KeyOf(last, header) == j;
      OnKeyOfGroup(init, header, j, k);
      assert OnKey(g, header, k) == OnKey(init, header, k) + if j == k then [last] else [];
    }
  }

  lemma GroupOf(ms: seq<Msg>, header: string, j: string, k: string)
    ensures OnKey(OnKey(ms, header, j), header, k) == if j == k then OnKey(ms, header, j) else []
  {
    OnKeyMembers(ms, header, j);
    OnKeyOfGroup(OnKey(ms, header, j), header, j, k);
  }

  lemma LastKey(ks: seq<string>, k: string)
    requires ks != [] && Distinct(ks)
    ensures Distinct(ks[..|ks| - 1])
    ensures ks[|ks| - 1] !in ks[..|ks| - 1]
    ensures k in ks <==> k in ks[..|ks| - 1] || k == ks[|ks| - 1]
  {}

  lemma {:induction false} GatherKeepsGroups(ms: seq<Msg>, header: string, ks: seq<string>, k: string)
    requires Distinct(ks)
    ensures OnKey(Gather(ms, header, ks), header, k) == if k in ks then OnKey(ms, header, k) else []
  {
    if ks != [] {
      var n := |ks| - 1;
      var before, last := Gather(ms, header, ks[..n]), OnKey(ms, header, ks[n]);
      LastKey(ks, k);
      GatherKeepsGroups(ms, header, ks[..n], k);
      OnKeyConcat(before, last, header, k);
      GroupOf(ms, header, ks[n], k);
      assert OnKey(before + last, header, k) == OnKey(before, header, k) + OnKey(last, header, k);
    }
  }

  lemma {:induction false} NoneOnKey(ms: seq<Msg>, header: string, k: string)
    requires forall i :: 0 <= i < |ms| ==> KeyOf(ms[i], header) != k
    ensures OnKey(ms, header, k) == []
  {
    if ms != [] {
      NoneOnKey(ms[..|ms| - 1], header, k);
    }
  }

  lemma {:induction false} OnKeyCounts(ms: seq<Msg>, header: string, m: Msg)
    ensures multiset(OnKey(ms, header, KeyOf(m, header)))[m] == multiset(ms)[m]
  {
    if ms != [] {
      var init, last, k := ms[..|ms| - 1], ms[|ms| - 1], KeyOf(m, header);
      OnKeyCounts(init, header, m);
      assert ms == init + [last];
      assert OnKey(ms, header, k) == OnKey(init, header, k) + if KeyOf(last, header) == k then [last] else [];
    }
  }

  /** Regrouping loses, adds and duplicates nothing, and keeps the order within every date. */
  lemma RegroupIsStable(ms: seq<Msg>, header: string)
    ensures forall k :: OnKey(Regroup(ms, header), header, k) == OnKey(ms, header, k)
    ensures multiset(Regroup(ms, header)) == multiset(ms)
  {
    var ks := EntryOrder(Keys(ms, header));
    GroupOrder(ms, header);
    forall k
      ensures OnKey(Regroup(ms, header), header, k) == OnKey(ms, header, k)
    {
      GatherKeepsGroups(ms, header, ks, k);
      if k !in ks {
        NoneOnKey(ms, header, k);
      }
    }
    forall m: Msg
      ensures multiset(Regroup(ms, header))[m] == multiset(ms)[m]
    {
      OnKeyCounts(ms, header, m);
      OnKeyCounts(Regroup(ms, header), header, m);
    }
  }

  // ---- the order of the groups ----

  /** A date that reads as an array index: the numeral of a number below 2^32 - 1. */
  ghost predicate IsIndex(k: string, n: nat) {
    k == Digits(n) && n < 0xFFFF_FFFF
  }

  /** The first message under date `k` is the one at `i`. */
  ghost predicate FirstAt(ms: seq<Msg>, header: string, k: string, i: nat) {
    i < |ms| && KeyOf(ms[i], header) == k && forall j :: 0 <= j < i ==> KeyOf(ms[j], header) != k
  }

  /** Every message under `j` stands before every message under `k`. */
  ghost predicate AllBefore(rs: seq<Msg>, header: string, j: string, k: string) {
    forall a, b :: 0 <= a < |rs| && 0 <= b < |rs| && KeyOf(rs[a], header) == j && KeyOf(rs[b], header) == k ==> a < b
  }

  lemma IndexKeysAreNumerals(k: string)
    ensures IsIndexKey(k) <==> exists n: nat :: IsIndex(k, n)
    ensures IsIndexKey(k) ==> IsIndex(k, DigitsValue(k))
  {
    if IsIndexKey(k) {
      IndexKeyIsNumeral(k);
    }
    forall n: nat | IsIndex(k, n)
      ensures IsIndexKey(k)
    {
      NumeralIsIndexKey(n);
    }
  }

  lemma {:induction false} NumeralIsIndexKey(n: nat)
    requires n < 0xFFFF_FFFF
    ensures IsIndexKey(Digits(n))
  {
    DigitsRoundTrip(n);
    DigitsStart(n);
  }

  lemma {:induction false} IndexKeyIsNumeral(k: IndexKey)
    ensures IsIndex(k, DigitsValue(k))
  {
    var z := NumeralBehindZeros(k);
    ZerosStart(z);
    assert z == 0;
  }

  lemma {:induction false} IndexKeysAscend(keys: seq<string>)
    ensures Ascending(IndexKeys(keys))
  {
    if keys != [] {
      IndexKeysAscend(keys[..|keys| - 1]);
      if IsIndexKey(keys[|keys| - 1]) {
        InsertAscends(keys[|keys| - 1], IndexKeys(keys[..|keys| - 1]));
      }
    }
  }

  ghost predicate Ascending(ks: seq<IndexKey>) {
    forall i, j :: 0 <= i < j < |ks| ==> DigitsValue(ks[i]) <= DigitsValue(ks[j])
  }

  lemma {:induction false} InsertAscends(k: IndexKey, ks: seq<IndexKey>)
    requires Ascending(ks)
    ensures Ascending(InsertIndex(k, ks))
    ensures forall j :: j in InsertIndex(k, ks) ==> j == k || j in ks
  {
    if ks != [] && DigitsValue(k) > DigitsValue(ks[0]) {
      InsertAscends(k, ks[1..]);
      var rest := InsertIndex(k, ks[1..]);
      forall j | 0 <= j < |rest|
        ensures DigitsValue(ks[0]) <= DigitsValue(rest[j])
      {
        assert rest[j] in rest;
        if rest[j] != k {
          var i :| 0 <= i < |ks[1..]| && ks[1..][i] == rest[j];
          assert ks[i + 1] == rest[j];
        }
      }
    }
  }

  /** `j` stands before `k` in the list. */
  ghost predicate Precedes(ks: seq<string>, j: string, k: string) {
    exists p, q :: 0 <= p < q < |ks| && ks[p] == j && ks[q] == k
  }

  lemma PrecedesInLonger(ks: seq<string>, more: seq<string>, j: string, k: string)
    requires Precedes(ks, j, k)
    ensures Precedes(ks + more, j, k) && Precedes(more + ks, j, k)
  {
    var p, q :| 0 <= p < q < |ks| && ks[p] == j && ks[q] == k;
    assert (ks + more)[p] == j && (ks + more)[q] == k;
    assert (more + ks)[|more| + p] == j && (more + ks)[|more| + q] == k;
  }

  lemma PrecedesLast(ks: seq<string>, j: string, k: string)
    requires j in ks
    ensures Precedes(ks + [k], j, k)
  {
    var p :| 0 <= p < |ks| && ks[p] == j;
    assert (ks + [k])[p] == j && (ks + [k])[|ks|] == k;
  }

  /** Dates are listed in the order of their first messages. */
  lemma {:induction false} KeysByFirst(ms: seq<Msg>, header: string, a: nat, b: nat)
    requires a < b < |ms|
    requires FirstAt(ms, header, KeyOf(ms[a], header), a) && FirstAt(ms, header, KeyOf(ms[b], header), b)
    ensures Precedes(Keys(ms, header), KeyOf(ms[a], header), KeyOf(ms[b], header))
  {
    var n := |ms| - 1;
    var init, j, k := ms[..n], KeyOf(ms[a], header), KeyOf(ms[b], header);
    var before := Keys(init, header);
    KeysCover(init, header);
    if b < n {
      KeysByFirst(init, header, a, b);
      PrecedesInLonger(before, [KeyOf(ms[n], header)], j, k);
    } else {
      assert KeyOf(init[a], header) == j;
      assert k !in before;
      PrecedesLast(before, j, k);
    }
  }

  lemma {:induction false} NamedKeysKeepOrder(keys: seq<string>, j: string, k: string)
    requires Distinct(keys) && Precedes(keys, j, k) && !IsIndexKey(j) && !IsIndexKey(k)
    ensures Precedes(NamedKeys(keys), j, k)
  {
    var n := |keys| - 1;
    var init := keys[..n];
    EntryOrderElems(init);
    PrecedesInit(keys, j, k);
    if k != keys[n] {
      NamedKeysKeepOrder(init, j, k);
      PrecedesInLonger(NamedKeys(init), if IsIndexKey(keys[n]) then [] else [keys[n]], j, k);
    } else {
      PrecedesLast(NamedKeys(init), j, k);
    }
  }

  lemma PrecedesInit(ks: seq<string>, j: string, k: string)
    requires Precedes(ks, j, k)
    ensures var n := |ks| - 1;
            0 <= n && j in ks[..n] && (k != ks[n] ==> Precedes(ks[..n], j, k))
  {
    var p, q :| 0 <= p < q < |ks| && ks[p] == j && ks[q] == k;
    assert ks[..|ks| - 1][p] == j;
    assert q < |ks| - 1 ==> ks[..|ks| - 1][q] == k;
  }

  /** Groups stand in the order of their keys. */
  lemma {:induction false} GroupsInOrder(ms: seq<Msg>, header: string, ks: seq<string>, j: string, k: string)
    requires Distinct(ks) && Precedes(ks, j, k)
    ensures AllBefore(Gather(ms, header, ks), header, j, k)
  {
    var n := |ks| - 1;
    var p, q :| 0 <= p < q < |ks| && ks[p] == j && ks[q] == k;
    var init, before, last := ks[..n], Gather(ms, header, ks[..n]), OnKey(ms, header, ks[n]);
    assert init[p] == j;
    OnKeyMembers(ms, header, ks[n]);
    assert forall m :: m in last ==> KeyOf(m, header) == ks[n];
    if q < n {
      assert init[q] == k;
      GroupsInOrder(ms, header, init, j, k);
      GroupAfter(before, last, header, j, k, ks[n]);
    } else {
      GatherMembers(ms, header, init);
      assert k !in init;
      GroupLast(before, last, header, j, k);
    }
  }

  lemma {:induction false} GatherMembers(ms: seq<Msg>, header: string, ks: seq<string>)
    ensures forall m :: m in Gather(ms, header, ks) ==> KeyOf(m, header) in ks
  {
    if ks != [] {
      GatherMembers(ms, header, ks[..|ks| - 1]);
      OnKeyMembers(ms, header, ks[|ks| - 1]);
      assert ks == ks[..|ks| - 1] + [ks[|ks| - 1]];
    }
  }

  lemma GroupAfter(before: seq<Msg>, last: seq<Msg>, header: string, j: string, k: string, other: string)
    requires AllBefore(before, header, j, k) && other != j && other != k
    requires forall m :: m in last ==> KeyOf(m, header) == other
    ensures AllBefore(before + last, header, j, k)
  {
    var rs := before + last;
    forall a | |before| <= a < |rs|
      ensures KeyOf(rs[a], header) == other
    {
      assert rs[a] in last;
    }
  }

  lemma GroupLast(before: seq<Msg>, last: seq<Msg>, header: string, j: string, k: string)
    requires j != k
    requires forall m :: m in before ==> KeyOf(m, header) != k
    requires forall m :: m in last ==> KeyOf(m, header) == k
    ensures AllBefore(before + last, header, j, k)
  {
    var rs := before + last;
    forall a | 0 <= a < |rs|
      ensures a < |before| <==> KeyOf(rs[a], header) != k
    {
      assert if a < |before| then rs[a] in before else rs[a] in last;
    }
  }

  /** Which of two dates comes first in the saved file: dates that read as array indices
      before all others and by their number, the others by their first message. */
  ghost predicate ComesFirst(ms: seq<Msg>, header: string, j: string, k: string) {
    || (exists m: nat, n: nat :: IsIndex(j, m) && IsIndex(k, n) && m < n)
    || ((exists m: nat :: IsIndex(j, m)) && !exists n: nat :: IsIndex(k, n))
    || ((forall n: nat :: !IsIndex(j, n) && !IsIndex(k, n))
        && exists a: nat, b: nat :: a < b && FirstAt(ms, header, j, a) && FirstAt(ms, header, k, b))
  }

  /** The order of the groups, for any two dates that messages are filed under. */
  lemma RegroupOrder(ms: seq<Msg>, header: string, a: nat, b: nat)
    requires a < |ms| && b < |ms| && ComesFirst(ms, header, KeyOf(ms[a], header), KeyOf(ms[b], header))
    ensures AllBefore(Regroup(ms, header), header, KeyOf(ms[a], header), KeyOf(ms[b], header))
  {
    var j, k := KeyOf(ms[a], header), KeyOf(ms[b], header);
    KeysCover(ms, header);
    EntryOrderFollows(ms, header, j, k);
    GroupOrder(ms, header);
    GroupsInOrder(ms, header, EntryOrder(Keys(ms, header)), j, k);
  }

  lemma EntryOrderFollows(ms: seq<Msg>, header: string, j: string, k: string)
    requires j in Keys(ms, header) && k in Keys(ms, header) && ComesFirst(ms, header, j, k)
    ensures Precedes(EntryOrder(Keys(ms, header)), j, k)
  {
    var keys := Keys(ms, header);
    KeysCover(ms, header);
    EntryOrderElems(keys);
    IndexKeysAreNumerals(j);
    IndexKeysAreNumerals(k);
    if IsIndexKey(j) && IsIndexKey(k) {
      SmallerIndexFirst(ms, header, j, k);
      IndexKeysAscend(keys);
      AscendingPrecedes(IndexKeys(keys), j, k);
      PrecedesInLonger(IndexKeys(keys), NamedKeys(keys), j, k);
    } else if IsIndexKey(j) {
      PrecedesAcross(IndexKeys(keys), NamedKeys(keys), j, k);
    } else {
      var a: nat, b: nat :| a < b && FirstAt(ms, header, j, a) && FirstAt(ms, header, k, b);
      KeysByFirst(ms, header, a, b);
      NamedKeysKeepOrder(keys, j, k);
      PrecedesInLonger(NamedKeys(keys), IndexKeys(keys), j, k);
    }
  }

  lemma AscendingPrecedes(ks: seq<IndexKey>, j: IndexKey, k: IndexKey)
    requires Ascending(ks) && j in ks && k in ks && DigitsValue(j) < DigitsValue(k)
    ensures Precedes(ks, j, k)
  {
    var p :| 0 <= p < |ks| && ks[p] == j;
    var q :| 0 <= q < |ks| && ks[q] == k;
    assert p < q;
  }

  lemma PrecedesAcross(front: seq<string>, back: seq<string>, j: string, k: string)
    requires j in front && k in back
    ensures Precedes(front + back, j, k)
  {
    var p :| 0 <= p < |front| && front[p] == j;
    var q :| 0 <= q < |back| && back[q] == k;
    assert (front + back)[p] == j && (front + back)[|front| + q] == k;
  }

  lemma SmallerIndexFirst(ms: seq<Msg>, header: string, j: IndexKey, k: IndexKey)
    requires ComesFirst(ms, header, j, k)
    ensures DigitsValue(j) < DigitsValue(k)
  {
    IndexKeysAreNumerals(j);
    IndexKeysAreNumerals(k);
    var m: nat, n: nat :| IsIndex(j, m) && IsIndex(k, n) && m < n;
    DigitsRoundTrip(m);
    DigitsRoundTrip(n);
  }

  // ---- what survives printing ----

  predicate SafeText(s: string) {
    s != "" && Trimmed(s) && '\r' !in s && NoInnerStarter(s)
  }

  /** Texts and dates that a block can hold, and a timestamp that reads as one. */
  predicate SafeMsg(m: Msg) {
    && SafeText(m.text)
    && (m.timestamp == "" || IsStamp(m.timestamp))
    && (m.date == "" || SafeText(m.date))
  }

  /** A text that would be read back as a timestamp and a shorter text. */
  predicate HiddenStamp(m: Msg) {
    m.timestamp == "" && Stamped(m.text)
  }

  predicate WellFormed(m: Msg) {
    SafeMsg(m) && !HiddenStamp(m) && m.date != ""
  }

  /** What a printed message is read back as. */
  function Reread(m: Msg, header: string): Msg {
    if HiddenStamp(m) then Msg(m.done, Trim(m.text[8..]), m.text[1..6], KeyOf(m, header))
    else m.(date := KeyOf(m, header))
  }

  function RereadAll(ms: seq<Msg>, header: string): (rs: seq<Msg>)
    ensures |rs| == |ms|
  {
    if ms == [] then [] else RereadAll(ms[..|ms| - 1], header) + [Reread(ms[|ms| - 1], header)]
  }

  /** Entries numbered from zero. */
  function Enumerated(ms: seq<Msg>): (es: seq<Entry>)
    ensures |es| == |ms|
  {
    if ms == [] then [] else Enumerated(ms[..|ms| - 1]) + [Entry(|ms| - 1, ms[|ms| - 1])]
  }

  lemma {:induction false} RereadConcat(a: seq<Msg>, b: seq<Msg>, header: string)
    ensures RereadAll(a + b, header) == RereadAll(a, header) + RereadAll(b, header)
  {
    if b == [] {
      assert a + b == a;
    } else {
      RereadConcat(a, b[..|b| - 1], header);
      assert (a + b)[..|a + b| - 1] == a + b[..|b| - 1];
    }
  }

  /** A marker in front of anything is read off again. */
  lemma MarkerReads(done: bool, rest: string)
    ensures var block := Marker(done) + rest;
            && Marked(block) && block[6..] == rest && (block[3] != ' ' <==> done)
            && !StartsWith(block, "####") && block[0] == '-'
  {}

  lemma StampReads(timestamp: string, text: string)
    requires IsStamp(timestamp)
    ensures var rest := StampPart(timestamp) + text;
            Stamped(rest) && rest[1..6] == timestamp && rest[8..] == text
  {}

  lemma FrontedIsBlock(front: string, text: string)
    requires SafeText(text) && '\n' !in front && '\r' !in front
    requires front != "" && !IsSpace(front[0]) && Starter(front + text)
    ensures IsBlock(front + text) && '\r' !in front + text
  {
    PrefixHasNoInnerStarter(front, text);
  }

  lemma {:induction false} MsgIsBlock(m: Msg)
    requires SafeMsg(m)
    ensures IsBlock(PrintMsg(m)) && '\r' !in PrintMsg(m)
  {
    var front := Marker(m.done) + StampPart(m.timestamp);
    MarkerReads(m.done, StampPart(m.timestamp) + m.text);
    MarkerHasNoBreak(m.done, m.timestamp);
    assert front + m.text == PrintMsg(m);
    FrontedIsBlock(front, m.text);
  }

  lemma {:induction false} MarkerHasNoBreak(done: bool, timestamp: string)
    requires timestamp == "" || IsStamp(timestamp)
    ensures var front := Marker(done) + StampPart(timestamp);
            front != "" && !IsSpace(front[0]) && '\n' !in front && '\r' !in front
  {
    StampHasNoBreak(timestamp);
    assert Marker(done)[0] == '-';
  }

  lemma StampHasNoBreak(timestamp: string)
    requires timestamp == "" || IsStamp(timestamp)
    ensures '\n' !in StampPart(timestamp) && '\r' !in StampPart(timestamp)
  {}

  lemma DropOneHash(s: string)
    ensures DropHashes("#" + s) == DropHashes(s)
  {}

  lemma HeaderIsBlock(k: string)
    requires SafeText(k)
    ensures IsBlock(Heading(k)) && '\r' !in Heading(k)
    ensures StartsWith(Heading(k), "####") && Trim(DropHashes(Heading(k))) == k
  {
    var block := "#### " + k;
    assert block[..5] == "#### " && block[..4] == "####";
    FrontedIsBlock("#### ", k);
    HashesDrop(k);
    TrimFinds(" ", k, "");
    assert " " + k + "" == " " + k;
  }

  lemma HashesDrop(k: string)
    ensures DropHashes("#### " + k) == " " + k
  {
    var s := " " + k;
    assert "#### " + k == "#" + ("#" + ("#" + ("#" + s)));
    DropOneHash(s);
    DropOneHash("#" + s);
    DropOneHash("#" + ("#" + s));
    DropOneHash("#" + ("#" + ("#" + s)));
  }

  lemma {:induction false} TrimKeepsSomething(s: string)
    requires s != "" && !IsSpace(s[|s| - 1])
    ensures Trim(s) != ""
  {
    if IsSpace(s[0]) {
      assert |s| > 1 && s[1..][|s| - 2] == s[|s| - 1];
      TrimKeepsSomething(s[1..]);
    }
  }

  /** A text after a stamp never trims away to nothing. */
  lemma StampTail(text: string)
    requires Trimmed(text) && Stamped(text)
    ensures Trim(text[8..]) != ""
  {
    assert |text| > 8 && text[8..][|text| - 9] == text[|text| - 1];
    TrimKeepsSomething(text[8..]);
  }

  lemma MsgReadsBack(m: Msg, header: string, today: string)
    requires m.text != "" && Trimmed(m.text) && (m.timestamp == "" || IsStamp(m.timestamp))
    requires KeyOf(m, header) != ""
    ensures !StartsWith(PrintMsg(m), "####")
    ensures ReadBlock(PrintMsg(m), KeyOf(m, header), today) == Some(Reread(m, header))
  {
    MarkerReads(m.done, StampPart(m.timestamp) + m.text);
    TrimLeavesTrimmed(m.text);
    if m.timestamp != "" {
      StampReads(m.timestamp, m.text);
    } else {
      assert StampPart(m.timestamp) + m.text == m.text;
      if Stamped(m.text) {
        StampTail(m.text);
      }
    }
  }

  // ---- reading back what is being printed ----

  /** Everything about a printed text that decides how its continuation is read. */
  datatype Reading = Reading(state: ParseState, blocks: nat, clean: bool)

  function ReadingOf(c: string, today: string): Reading {
    var blocks := Blocks(Body(c));
    Reading(ParseBlocks(blocks, today), |blocks|, Ended(c) && '\r' !in c)
  }

  /** The reading of `ms`, numbered, under `headers` date headers, the last one `date`. */
  function ReadingFor(ms: seq<Msg>, date: string, headers: nat): Reading {
    Reading(ParseState(Enumerated(ms), date, headers), headers + |ms|, true)
  }

  lemma {:induction false} BlockReads(c: string, item: string, today: string)
    requires Ended(c) && Starter(item) && NoInnerStarter(item) && '\r' !in item
    ensures var r := ReadingOf(c, today);
            ReadingOf(c + item + "\n", today)
            == Reading(ParseStep(r.state, r.blocks, Trim(item), today), r.blocks + 1, r.clean)
  {
    BodyAppend(c, item);
    BlockAdds(Body(c), item);
    var blocks := Blocks(Body(c));
    assert (blocks + [Trim(item)])[..|blocks|] == blocks;
  }

  lemma {:induction false} MsgAdds(c: string, today: string, ms: seq<Msg>, m: Msg, header: string, k: string, h: nat)
    requires ReadingOf(c, today) == ReadingFor(ms, k, h)
    requires SafeMsg(m) && KeyOf(m, header) == k && k != ""
    ensures ReadingOf(c + PrintMsg(m) + "\n", today) == ReadingFor(ms + [Reread(m, header)], k, h)
  {
    MsgIsBlock(m);
    MsgReadsBack(m, header, today);
    BlockIsNext(c, PrintMsg(m), today, ms, Reread(m, header), k, h);
  }

  /** A block that reads as `m`, after what has been printed, is the next message. */
  lemma {:induction false} BlockIsNext(c: string, item: string, today: string, ms: seq<Msg>, m: Msg, k: string, h: nat)
    requires ReadingOf(c, today) == ReadingFor(ms, k, h)
    requires IsBlock(item) && '\r' !in item && !StartsWith(item, "####")
    requires ReadBlock(item, k, today) == Some(m)
    ensures ReadingOf(c + item + "\n", today) == ReadingFor(ms + [m], k, h)
  {
    TrimLeavesTrimmed(item);
    BlockReads(c, item, today);
    MsgStep(item, today, ms, m, k, h);
  }

  /** A block that reads as `m` makes `m` the next entry. */
  lemma {:induction false} MsgStep(block: string, today: string, ms: seq<Msg>, m: Msg, k: string, h: nat)
    requires !StartsWith(block, "####") && ReadBlock(block, k, today) == Some(m)
    ensures ParseStep(ParseState(Enumerated(ms), k, h), h + |ms|, block, today)
            == ParseState(Enumerated(ms + [m]), k, h)
  {
    EnumeratedSnoc(ms, m);
  }

  lemma {:induction false} EnumeratedSnoc(ms: seq<Msg>, m: Msg)
    ensures Enumerated(ms + [m]) == Enumerated(ms) + [Entry(|ms|, m)]
  {
    assert (ms + [m])[..|ms|] == ms;
  }

  ghost predicate AllOn(group: seq<Msg>, header: string, k: string) {
    forall i :: 0 <= i < |group| ==> SafeMsg(group[i]) && KeyOf(group[i], header) == k
  }

  lemma {:induction false} MsgsAdd(c: string, today: string, ms: seq<Msg>, group: seq<Msg>, header: string, k: string, h: nat)
    requires ReadingOf(c, today) == ReadingFor(ms, k, h)
    requires AllOn(group, header, k) && k != ""
    ensures ReadingOf(PrintMsgs(c, group), today) == ReadingFor(ms + RereadAll(group, header), k, h)
  {
    if group == [] {
      assert ms + [] == ms;
    } else {
      var n := |group| - 1;
      MsgsAdd(c, today, ms, group[..n], header, k, h);
      MsgAdds(PrintMsgs(c, group[..n]), today, ms + RereadAll(group[..n], header), group[n], header, k, h);
      LastOfGroup(c, ms, group, header);
    }
  }

  lemma LastOfGroup(c: string, ms: seq<Msg>, group: seq<Msg>, header: string)
    requires group != []
    ensures var n := |group| - 1;
            && PrintMsgs(c, group[..n]) + PrintMsg(group[n]) + "\n" == PrintMsgs(c, group)
            && ms + RereadAll(group[..n], header) + [Reread(group[n], header)] == ms + RereadAll(group, header)
  {}

  lemma BlankReads(c: string, today: string)
    requires Ended(c) && c != ""
    ensures ReadingOf(c + "\n", today) == ReadingOf(c, today)
  {
    BodyAppend(c, "");
    assert c + "" + "\n" == c + "\n";
    BlankLineAdds(Body(c));
  }

  lemma {:induction false} HeaderAdds(c: string, today: string, ms: seq<Msg>, date: string, k: string, h: nat)
    requires ReadingOf(c, today) == ReadingFor(ms, date, h) && SafeText(k)
    ensures ReadingOf(PrintHeader(c, k), today) == ReadingFor(ms, k, h + 1)
  {
    var c' := if c != "" then c + "\n" else "";
    if c != "" {
      BlankReads(c, today);
    }
    HeaderIsBlock(k);
    TrimLeavesTrimmed(Heading(k));
    BlockReads(c', Heading(k), today);
  }

  lemma GroupAdds(c: string, today: string, ms: seq<Msg>, date: string, group: seq<Msg>, header: string, k: string, h: nat)
    requires ReadingOf(c, today) == ReadingFor(ms, date, h)
    requires SafeText(k) && AllOn(group, header, k)
    ensures ReadingOf(PrintMsgs(PrintHeader(c, k), group), today)
            == ReadingFor(ms + RereadAll(group, header), k, h + 1)
  {
    HeaderAdds(c, today, ms, date, k, h);
    MsgsAdd(PrintHeader(c, k), today, ms, group, header, k, h + 1);
  }

  lemma OnKeyIsSafe(ms: seq<Msg>, header: string, k: string)
    requires forall m :: m in ms ==> SafeMsg(m)
    ensures AllOn(OnKey(ms, header, k), header, k)
  {}

  ghost predicate SafeKeys(ks: seq<string>) {
    forall i :: 0 <= i < |ks| ==> SafeText(ks[i])
  }

  lemma {:induction false} GroupsReadBack(ms: seq<Msg>, header: string, today: string, ks: seq<string>)
    requires (forall m :: m in ms ==> SafeMsg(m)) && SafeKeys(ks)
    ensures ReadingOf(PrintGroups(ms, header, ks), today)
            == ReadingFor(RereadAll(Gather(ms, header, ks), header), if ks == [] then "" else ks[|ks| - 1], |ks|)
  {
    if ks != [] {
      var n := |ks| - 1;
      GroupsReadBack(ms, header, today, ks[..n]);
      var group, got := OnKey(ms, header, ks[n]), RereadAll(Gather(ms, header, ks[..n]), header);
      OnKeyIsSafe(ms, header, ks[n]);
      RereadConcat(Gather(ms, header, ks[..n]), group, header);
      GroupAdds(PrintGroups(ms, header, ks[..n]), today, got, if n == 0 then "" else ks[n - 1], group, header, ks[n], n);
    }
  }

  lemma ReadingParses(c: string, today: string)
    requires ReadingOf(c, today).clean
    ensures Parse(c, today) == ReadingOf(c, today).state.entries
  {
    NormaliseIsClean(c);
    FileLines(c);
  }

  lemma SavedKeysAreSafe(ms: seq<Msg>, header: string)
    requires (forall m :: m in ms ==> SafeMsg(m)) && SafeText(header)
    ensures SafeKeys(EntryOrder(Keys(ms, header)))
  {
    var ks := EntryOrder(Keys(ms, header));
    GroupOrder(ms, header);
    forall j | 0 <= j < |ks|
      ensures SafeText(ks[j])
    {
      assert ks[j] in ks;
      var i :| 0 <= i < |ms| && KeyOf(ms[i], header) == ks[j];
      assert ms[i] in ms;
    }
  }

  /** What comes back from any list of messages a file can hold: the same records,
      stably regrouped by date, except that a hidden timestamp is split off. */
  lemma {:induction false} SavedReadsBack(ms: seq<Msg>, header: string, today: string)
    requires forall m :: m in ms ==> SafeMsg(m)
    requires SafeText(header) && Save(ms, header).Ok?
    ensures Parse(Save(ms, header).value, today) == Enumerated(RereadAll(Regroup(ms, header), header))
  {
    var ks := EntryOrder(Keys(ms, header));
    SavedKeysAreSafe(ms, header);
    GroupsReadBack(ms, header, today, ks);
    ReadingParses(PrintGroups(ms, header, ks), today);
  }

  // ---- what a file can hold ----

  lemma {:induction false} SplitParts(s: string, sep: char)
    ensures forall i :: 0 <= i < |Split(s, sep)| ==> sep !in Split(s, sep)[i]
    ensures forall i :: 0 <= i < |Split(s, sep)| ==> forall c :: c in Split(s, sep)[i] ==> c in s
  {
    if s != "" {
      SplitParts(s[1..], sep);
      assert s == [s[0]] + s[1..];
    }
  }

  /** An opening line and plain lines after it. */
  ghost predicate ChunkShape(chunk: seq<string>) {
    && chunk != []
    && (forall l :: l in chunk ==> '\n' !in l && '\r' !in l)
    && (forall i :: 1 <= i < |chunk| ==> !Starter(chunk[i]))
  }

  lemma {:induction false} ChunksHaveShape(lines: seq<string>)
    requires forall i :: 0 <= i < |lines| ==> '\n' !in lines[i] && '\r' !in lines[i]
    ensures forall i :: 0 <= i < |Chunks(lines)| ==> ChunkShape(Chunks(lines)[i])
  {
    if lines != [] {
      ChunksHaveShape(lines[..|lines| - 1]);
    }
  }

  lemma {:induction false} JoinChars(parts: seq<string>, sep: char, c: char)
    requires c != sep && forall p :: p in parts ==> c !in p
    ensures c !in Join(parts, sep)
  {
    if parts != [] {
      assert parts[0] in parts;
      JoinChars(parts[1..], sep, c);
    }
  }

  predicate CleanText(s: string) {
    '\r' !in s && NoInnerStarter(s)
  }

  lemma {:induction false} BlocksAreClean(chunks: seq<seq<string>>)
    requires forall i :: 0 <= i < |chunks| ==> ChunkShape(chunks[i])
    ensures forall i :: 0 <= i < |BlocksOf(chunks)| ==> CleanText(BlocksOf(chunks)[i])
  {
    if chunks != [] {
      var chunk := chunks[|chunks| - 1];
      BlocksAreClean(chunks[..|chunks| - 1]);
      assert ChunkShape(chunk);
      ChunkHasNoInnerStarter(chunk);
      JoinChars(chunk, '\n', '\r');
      TrimIsClean(Join(chunk, '\n'));
    }
  }

  lemma PartIsClean(s: string, a: string, t: string, b: string)
    requires CleanText(s) && s == a + t + b
    ensures CleanText(t)
  {
    PartHasNoInnerStarter(a, t, b);
  }

  lemma TrimIsClean(s: string)
    requires CleanText(s)
    ensures CleanText(Trim(s)) && Trimmed(Trim(s))
  {
    var a, b := TrimSplits(s);
    PartIsClean(s, a, Trim(s), b);
  }

  lemma TailIsClean(s: string, n: nat)
    requires CleanText(s) && n <= |s|
    ensures CleanText(s[n..])
  {
    assert s == s[..n] + s[n..] + "";
    PartIsClean(s, s[..n], s[n..], "");
  }

  lemma {:induction false} DropHashesIsTail(s: string) returns (n: nat)
    ensures n <= |s| && DropHashes(s) == s[n..]
  {
    if s != "" && s[0] == '#' {
      n := DropHashesIsTail(s[1..]);
      assert s[1..][n..] == s[n + 1..];
      n := n + 1;
    } else {
      n := 0;
    }
  }

  lemma BlockIsSafe(block: string, date: string, today: string)
    requires CleanText(block) && (date == "" || SafeText(date)) && SafeText(today)
    ensures ReadBlock(block, date, today).Some? ==> SafeMsg(ReadBlock(block, date, today).value)
                                                    && ReadBlock(block, date, today).value.date != ""
    ensures var d := Trim(DropHashes(block)); d == "" || SafeText(d)
  {
    var rest := if Marked(block) then block[6..] else block;
    TailIsClean(block, if Marked(block) then 6 else 0);
    assert block[0..] == block;
    TailIsClean(rest, if Stamped(rest) then 8 else 0);
    assert rest[0..] == rest;
    TrimIsClean(if Stamped(rest) then rest[8..] else rest);
    var n := DropHashesIsTail(block);
    TailIsClean(block, n);
    TrimIsClean(block[n..]);
  }

  /** What has been read so far are messages a file can hold, each with a date. */
  ghost predicate SafeState(st: ParseState) {
    && (st.date == "" || SafeText(st.date))
    && forall i :: 0 <= i < |st.entries| ==> SafeMsg(st.entries[i].msg) && st.entries[i].msg.date != ""
  }

  lemma {:induction false} StepIsSafe(st: ParseState, i: nat, block: string, today: string)
    requires SafeState(st) && CleanText(block) && SafeText(today)
    ensures SafeState(ParseStep(st, i, block, today))
  {
    BlockIsSafe(block, st.date, today);
  }

  lemma {:induction false} StatesAreSafe(blocks: seq<string>, today: string)
    requires forall i :: 0 <= i < |blocks| ==> CleanText(blocks[i])
    requires SafeText(today)
    ensures SafeState(ParseBlocks(blocks, today))
  {
    if blocks != [] {
      var n := |blocks| - 1;
      StatesAreSafe(blocks[..n], today);
      StepIsSafe(ParseBlocks(blocks[..n], today), n, blocks[n], today);
    }
  }

  lemma {:induction false} MessagesAt(es: seq<Entry>)
    ensures forall i :: 0 <= i < |es| ==> MessagesOf(es)[i] == es[i].msg
  {
    if es != [] {
      MessagesAt(es[..|es| - 1]);
    }
  }

  /** Whatever is in the file, every message read from it is one the file can hold. */
  lemma ParsedIsSafe(file: string, today: string)
    requires SafeText(today)
    ensures forall m :: m in MessagesOf(Parse(file, today)) ==> SafeMsg(m) && m.date != ""
  {
    var text := Normalise(file);
    NormaliseIsClean(file);
    SplitParts(text, '\n');
    var lines := Split(text, '\n');
    ChunksHaveShape(lines);
    BlocksAreClean(Chunks(lines));
    StatesAreSafe(Blocks(lines), today);
    MessagesAt(Parse(file, today));
  }

  // ---- the round trip, exactly ----

  lemma {:induction false} EnumeratedAt(ms: seq<Msg>)
    ensures forall i :: 0 <= i < |ms| ==> Enumerated(ms)[i] == Entry(i, ms[i])
  {
    if ms != [] {
      EnumeratedAt(ms[..|ms| - 1]);
    }
  }

  lemma EnumeratedMessages(ms: seq<Msg>)
    ensures MessagesOf(Enumerated(ms)) == ms
  {}

  lemma RereadIsSame(m: Msg, header: string)
    requires SafeMsg(m) && SafeText(header)
    ensures Reread(m, header) == m <==> WellFormed(m)
  {}

  lemma {:induction false} RereadAllAt(ms: seq<Msg>, header: string)
    ensures forall i :: 0 <= i < |ms| ==> RereadAll(ms, header)[i] == Reread(ms[i], header)
  {
    if ms != [] {
      RereadAllAt(ms[..|ms| - 1], header);
    }
  }

  lemma RereadAllIsSame(ms: seq<Msg>, header: string)
    requires SafeText(header) && forall m :: m in ms ==> SafeMsg(m)
    ensures RereadAll(ms, header) == ms <==> forall m :: m in ms ==> WellFormed(m)
  {
    RereadAllAt(ms, header);
    forall i | 0 <= i < |ms|
      ensures RereadAll(ms, header)[i] == ms[i] <==> WellFormed(ms[i])
    {
      assert ms[i] in ms;
      RereadIsSame(ms[i], header);
    }
  }

  lemma RegroupMembers(ms: seq<Msg>, header: string)
    ensures forall m :: m in Regroup(ms, header) <==> m in ms
  {
    RegroupIsStable(ms, header);
    forall m
      ensures m in Regroup(ms, header) <==> m in ms
    {
      assert m in multiset(Regroup(ms, header)) <==> m in multiset(ms);
    }
  }

  /** Parsing what was saved gives back the same records, numbered and stably regrouped
      by date, if and only if every one of them is well formed. For every list that can
      be saved at all. */
  lemma RoundTripIffWellFormed(ms: seq<Msg>, header: string, today: string)
    requires SafeText(header) && SafeText(today) && Save(ms, header).Ok?
    ensures Parse(Save(ms, header).value, today) == Enumerated(Regroup(ms, header))
            <==> forall m :: m in ms ==> WellFormed(m)
  {
    RegroupMembers(ms, header);
    var regrouped := Regroup(ms, header);
    if forall m :: m in ms ==> SafeMsg(m) {
      SavedReadsBack(ms, header, today);
      RereadAllIsSame(regrouped, header);
      EnumeratedMessages(regrouped);
      EnumeratedMessages(RereadAll(regrouped, header));
    } else {
      ParsedIsSafe(Save(ms, header).value, today);
      EnumeratedMessages(regrouped);
      var m :| m in ms && !SafeMsg(m);
      assert m in regrouped;
    }
  }

  // ---- moving one message out ----

  function Without(ms: seq<Msg>, text: string): seq<Msg> {
    if ms == [] then []
    else Without(ms[..|ms| - 1], text) + if ms[|ms| - 1].text != text then [ms[|ms| - 1]] else []
  }

  lemma {:induction false} WithoutMembers(ms: seq<Msg>, text: string)
    ensures forall m :: m in Without(ms, text) <==> m in ms && m.text != text
    ensures forall m: Msg :: m.text != text ==> multiset(Without(ms, text))[m] == multiset(ms)[m]
  {
    if ms != [] {
      WithoutMembers(ms[..|ms| - 1], text);
      assert ms == ms[..|ms| - 1] + [ms[|ms| - 1]];
    }
  }

  /** Moving a message out of any file leaves exactly the records with a different text,
      stably regrouped, if and only if none of those hides a timestamp. */
  lemma MoveKeepsTheRest(file: string, text: string, header: string, today: string, later: string)
    requires SafeText(header) && SafeText(today) && SafeText(later)
    ensures var rest := Without(MessagesOf(Parse(file, today)), text);
            Save(rest, header).Ok? ==>
              (Parse(Save(rest, header).value, later) == Enumerated(Regroup(rest, header))
               <==> forall m :: m in rest ==> !HiddenStamp(m))
  {
    var ms := MessagesOf(Parse(file, today));
    var rest := Without(ms, text);
    ParsedIsSafe(file, today);
    WithoutMembers(ms, text);
    if Save(rest, header).Ok? {
      RoundTripIffWellFormed(rest, header, later);
    }
  }

  /** The entry of `text` under two spaces, as a block. */
  function TwoSpaced(text: string): string {
    Marker(false) + (" " + text)
  }

  lemma TwoSpacedReads(text: string, date: string, today: string)
    requires SafeText(text) && date != ""
    ensures IsBlock(TwoSpaced(text)) && '\r' !in TwoSpaced(text) && !StartsWith(TwoSpaced(text), "####")
    ensures ReadBlock(TwoSpaced(text), date, today) == Some(Msg(false, text, "", date))
  {
    MarkerReads(false, " " + text);
    TrimFinds(" ", text, "");
    assert " " + text + "" == " " + text;
    assert TwoSpaced(text) == (Marker(false) + " ") + text;
    FrontedIsBlock(Marker(false) + " ", text);
  }

  /** A file with one date header and one entry under two spaces. */
  function TwoSpacedFile(date: string, text: string): string {
    PrintHeader("", date) + TwoSpaced(text) + "\n"
  }

  lemma {:induction false} TwoSpacedFileReads(date: string, text: string, today: string)
    requires SafeText(text) && SafeText(date)
    ensures Parse(TwoSpacedFile(date, text), today) == [Entry(0, Msg(false, text, "", date))]
  {
    HeaderAdds("", today, [], "", date, 0);
    TwoSpacedReads(text, date, today);
    var m := Msg(false, text, "", date);
    BlockIsNext(PrintHeader("", date), TwoSpaced(text), today, [], m, date, 1);
    assert [] + [m] == [m] && [m][..0] == [];
    assert Enumerated([m]) == Enumerated([]) + [Entry(0, m)];
    ReadingParses(TwoSpacedFile(date, text), today);
  }

  lemma SingleRegroups(m: Msg, header: string)
    ensures Regroup([m], header) == [m]
    ensures RereadAll([m], header) == [Reread(m, header)]
  {
    var k := KeyOf(m, header);
    assert [m][..0] == [];
    assert Keys([m], header) == [k];
    assert [k][..0] == [];
    assert NamedKeys([]) == [] && IndexKeys([]) == [];
    assert EntryOrder([k]) == [k];
    assert OnKey([m], header, k) == [m];
    assert Gather([m], header, [k]) == Gather([m], header, []) + OnKey([m], header, k);
  }

  /** Hidden timestamps do occur: in this file the two spaces keep the parser from seeing
      the stamp of `text`; saved and parsed again, it is there, and the text is shorter. */
  lemma TwoSpacesHideAStamp(text: string, date: string, header: string, today: string, later: string)
    requires SafeText(text) && Stamped(text) && SafeText(date) && !Inherited(date) && SafeText(header)
    ensures var ms := MessagesOf(Parse(TwoSpacedFile(date, text), today));
            && ms == [Msg(false, text, "", date)] && Save(ms, header).Ok?
            && Parse(Save(ms, header).value, later) == [Entry(0, Msg(false, Trim(text[8..]), text[1..6], date))]
  {
    var m := Msg(false, text, "", date);
    TwoSpacedFileReads(date, text, today);
    assert [Entry(0, m)][..0] == [];
    assert MessagesOf([Entry(0, m)]) == [m];
    assert [m][0] == m;
    SavedReadsBack([m], header, later);
    SingleRegroups(m, header);
    var back := Reread(m, header);
    assert [back][..0] == [];
    assert Enumerated([back]) == Enumerated([]) + [Entry(0, back)];
  }

  /** There are such texts and dates. */
  lemma HiddenStampsExist()
    ensures SafeText("`12:00` x") && Stamped("`12:00` x") && SafeText("d") && !Inherited("d")
  {
    StampIsSafe();
    LetterIsSafe();
  }

  lemma StampIsSafe()
    ensures SafeText("`12:00` x") && Stamped("`12:00` x")
  {
    assert Trimmed("`12:00` x") && '\r' !in "`12:00` x" && '\n' !in "`12:00` x";
    LineIsSafe("`12:00` x");
    StampShows();
  }

  lemma StampShows()
    ensures Stamped("`12:00` x")
  {
    assert "`12:00` x"[1..6] == "12:00";
  }

  lemma LetterIsSafe()
    ensures SafeText("d") && !Inherited("d")
  {
    LineIsSafe("d");
    LetterIsFree("d");
  }

  lemma LetterIsFree(k: string)
    requires |k| == 1
    ensures !Inherited(k)
  {
    NotOneOf(k, INHERITED_NAMES);
  }

  lemma LineIsSafe(s: string)
    requires s != "" && Trimmed(s) && '\r' !in s && '\n' !in s
    ensures SafeText(s)
  {
    NoBreakIsInner(s);
  }

  lemma {:induction false} NotOneOf(k: string, names: seq<string>)
    requires forall i :: 0 <= i < |names| ==> |names[i]| != |k|
    ensures !OneOf(k, names)
  {
    if names != [] {
      NotOneOf(k, names[1..]);
    }
  }

  lemma {:induction false} NoBreakIsInner(s: string)
    requires '\n' !in s
    ensures NoInnerStarter(s)
  {
    if s != "" {
      assert s[0] in s;
      NoBreakIsInner(s[1..]);
    }
  }

  // ---- the functions as chat.js runs them ----

  /** The cutting loop after the lines of the chunks `cs`: the last chunk is still open. */
  ghost predicate Cut(cs: seq<seq<string>>, currentBlock: string, blocks: seq<string>) {
    if cs == [] then currentBlock == "" && blocks == []
    else currentBlock != "" && currentBlock == Join(cs[|cs| - 1], '\n') && blocks == BlocksOf(cs[..|cs| - 1])
  }

  lemma {:induction false} CutAdds(lines: seq<string>, line: string, currentBlock: string, blocks: seq<string>)
    requires Cut(Chunks(lines), currentBlock, blocks)
    ensures var cs := Chunks(lines + [line]);
            if Starter(line) then
              line != "" && Cut(cs, line, if currentBlock != "" then blocks + [Trim(currentBlock)] else blocks)
            else Cut(cs, if currentBlock != "" then currentBlock + "\n" + line else "", blocks)
  {
    var cs, longer := Chunks(lines), lines + [line];
    assert longer[..|lines|] == lines;
    if Starter(line) {
      assert (cs + [[line]])[..|cs|] == cs;
    } else if cs != [] {
      JoinSnoc(cs[|cs| - 1], line);
      var extended := cs[..|cs| - 1] + [cs[|cs| - 1] + [line]];
      assert extended[..|cs| - 1] == cs[..|cs| - 1];
    }
  }

  /** The grouping object after `ms`: its keys in order, and what is under each. */
  ghost predicate Filed(ms: seq<Msg>, header: string, byDate: map<string, seq<Msg>>, order: seq<string>) {
    && order == Keys(ms, header)
    && (forall k :: k in order <==> k in byDate)
    && (forall k :: k in byDate ==> byDate[k] == OnKey(ms, header, k))
  }

  lemma ThrowsAdds(ms: seq<Msg>, m: Msg, header: string)
    ensures Throws(ms + [m], header) <==> Throws(ms, header) || Inherited(KeyOf(m, header))
  {
    var longer := ms + [m];
    assert longer[|ms|] == m;
    if Throws(ms, header) {
      var i :| 0 <= i < |ms| && Inherited(KeyOf(ms[i], header));
      assert longer[i] == ms[i];
    }
  }

  lemma ThrowsPrefix(ms: seq<Msg>, n: nat, header: string)
    requires n <= |ms| && Throws(ms[..n], header)
    ensures Throws(ms, header)
  {}

  lemma {:induction false} FiledAdds(ms: seq<Msg>, m: Msg, header: string, byDate: map<string, seq<Msg>>, order: seq<string>)
    requires Filed(ms, header, byDate, order)
    ensures var k := KeyOf(m, header);
            Filed(ms + [m], header, byDate[k := (if k in byDate then byDate[k] else []) + [m]],
                  if k in byDate then order else order + [k])
  {
    var k := KeyOf(m, header);
    KeysAdds(ms, m, header);
    forall j
      ensures OnKey(ms + [m], header, j) == OnKey(ms, header, j) + if j == k then [m] else []
    {
      OnKeyAdds(ms, m, header, j);
    }
    if k !in byDate {
      FreshKey(ms, header, k);
    }
  }

  lemma {:induction false} KeysAdds(ms: seq<Msg>, m: Msg, header: string)
    ensures var k, keys := KeyOf(m, header), Keys(ms, header);
            Keys(ms + [m], header) == if k in keys then keys else keys + [k]
  {
    assert (ms + [m])[..|ms|] == ms;
  }

  lemma {:induction false} OnKeyAdds(ms: seq<Msg>, m: Msg, header: string, j: string)
    ensures OnKey(ms + [m], header, j) == OnKey(ms, header, j) + if j == KeyOf(m, header) then [m] else []
  {
    assert (ms + [m])[..|ms|] == ms;
  }

  lemma FreshKey(ms: seq<Msg>, header: string, k: string)
    requires k !in Keys(ms, header)
    ensures OnKey(ms, header, k) == []
  {
    KeysCover(ms, header);
    forall i | 0 <= i < |ms|
      ensures KeyOf(ms[i], header) != k
    {}
    NoneOnKey(ms, header, k);
  }

  lemma EntriesAreFiled(ms: seq<Msg>, header: string, byDate: map<string, seq<Msg>>, order: seq<string>)
    requires Filed(ms, header, byDate, order)
    ensures forall k :: k in EntryOrder(order) ==> k in byDate && byDate[k] == OnKey(ms, header, k)
  {
    GroupOrder(ms, header);
    KeysCover(ms, header);
  }

  class Chat {
    var content: string

    constructor (content: string)
      ensures this.content == content
    {
      this.content := content;
    }

    /** The loop that cuts the lines into blocks. */
    method CutBlocks(lines: seq<string>) returns (blocks: seq<string>)
      ensures blocks == Blocks(lines)
    {
      blocks := [];
      var currentBlock := "";
      for i := 0 to |lines|
        invariant Cut(Chunks(lines[..i]), currentBlock, blocks)
      {
        var line := lines[i];
        assert lines[..i + 1] == lines[..i] + [line];
        CutAdds(lines[..i], line, currentBlock, blocks);
        if Starter(line) {
          if currentBlock != "" {
            blocks := blocks + [Trim(currentBlock)];
          }
          currentBlock := line;
        } else if currentBlock != "" {
          currentBlock := currentBlock + "\n" + line;
        }
      }
      assert lines[..|lines|] == lines;
      if currentBlock != "" {
        blocks := blocks + [Trim(currentBlock)];
      }
    }

    method ReadMessage(block: string, currentDate: string, today: string) returns (message: Option<Msg>)
      ensures message == ReadBlock(block, currentDate, today)
    {
      var rest, mark, timestamp := block, "", "";
      if Marked(block) {
        mark := [block[3]];
        rest := rest[6..];
      }
      if Stamped(rest) {
        timestamp := rest[1..6];
        rest := rest[8..];
      }
      if mark == "" && timestamp == "" {
        return None;
      }
      var text := Trim(rest);
      if text == "" {
        return None;
      }
      var done := mark == "x" || mark == "X";
      message := Some(Msg(done, text, timestamp, DateOr(currentDate, today)));
    }

    /** The loop that reads the blocks. */
    method ReadBlocks(blocks: seq<string>, today: string) returns (messages: seq<Entry>)
      ensures messages == ParseBlocks(blocks, today).entries
    {
      messages := [];
      var currentDate, numblocks := "", 0;
      for i := 0 to |blocks|
        invariant ParseState(messages, currentDate, numblocks) == ParseBlocks(blocks[..i], today)
      {
        var block := blocks[i];
        assert blocks[..i + 1][..i] == blocks[..i];
        if StartsWith(block, "####") {
          currentDate := Trim(DropHashes(block));
          numblocks := numblocks + 1;
          continue;
        }
        var entry := ReadMessage(block, currentDate, today);
        if entry.Some? {
          messages := messages + [Entry(i - numblocks, entry.value)];
        }
      }
      assert blocks[..|blocks|] == blocks;
    }

    method ParseMessages(today: string) returns (messages: seq<Entry>)
      ensures messages == Parse(content, today)
    {
      var lines := Split(Normalise(content), '\n');
      var blocks := CutBlocks(lines);
      messages := ReadBlocks(blocks, today);
    }

    method FileUnder(msg: Msg, header: string, byDate: map<string, seq<Msg>>, order: seq<string>, ghost before: seq<Msg>)
      returns (byDate': map<string, seq<Msg>>, order': seq<string>)
      requires Filed(before, header, byDate, order)
      ensures Filed(before + [msg], header, byDate', order')
    {
      var date := KeyOf(msg, header);
      byDate', order' := byDate, order;
      if date !in byDate {
        byDate' := byDate'[date := []];
        order' := order' + [date];
      }
      byDate' := byDate'[date := byDate'[date] + [msg]];
      assert byDate' == byDate[date := (if date in byDate then byDate[date] else []) + [msg]];
      FiledAdds(before, msg, header, byDate, order);
    }

    /** Filing every message under its date, in an object that keeps its keys in order. */
    method GroupByDate(messages: seq<Msg>, header: string)
      returns (failed: bool, byDate: map<string, seq<Msg>>, order: seq<string>)
      ensures failed <==> Throws(messages, header)
      ensures !failed ==> Filed(messages, header, byDate, order)
    {
      byDate, order := map[], [];
      assert messages[..0] == [];
      for i := 0 to |messages|
        invariant !Throws(messages[..i], header)
        invariant Filed(messages[..i], header, byDate, order)
      {
        ghost var before := messages[..i];
        var msg := messages[i];
        assert messages[..i + 1] == before + [msg];
        ThrowsAdds(before, msg, header);
        if Inherited(KeyOf(msg, header)) {
          ThrowsPrefix(messages, i + 1, header);
          return true, byDate, order;
        }
        byDate, order := FileUnder(msg, header, byDate, order, before);
      }
      assert messages[..|messages|] == messages;
      failed := false;
    }

    method PrintGroup(content: string, date: string, msgs: seq<Msg>) returns (printed: string)
      ensures printed == PrintMsgs(PrintHeader(content, date), msgs)
    {
      printed := content;
      if printed != "" {
        printed := printed + "\n";
      }
      printed := printed + Heading(date) + "\n";
      for j := 0 to |msgs|
        invariant printed == PrintMsgs(PrintHeader(content, date), msgs[..j])
      {
        assert msgs[..j + 1][..j] == msgs[..j];
        printed := printed + PrintMsg(msgs[j]) + "\n";
      }
      assert msgs[..|msgs|] == msgs;
    }

    method PrintEntries(entries: seq<string>, byDate: map<string, seq<Msg>>, ghost messages: seq<Msg>, ghost header: string)
      returns (printed: string)
      requires forall k :: k in entries ==> k in byDate && byDate[k] == OnKey(messages, header, k)
      ensures printed == PrintGroups(messages, header, entries)
    {
      printed := "";
      for i := 0 to |entries|
        invariant printed == PrintGroups(messages, header, entries[..i])
      {
        assert entries[..i + 1][..i] == entries[..i];
        assert entries[i] in entries;
        printed := PrintGroup(printed, entries[i], byDate[entries[i]]);
      }
      assert entries[..|entries|] == entries;
    }

    method SaveMessages(messages: seq<Msg>, header: string) returns (result: Result<string, SaveError>)
      modifies this
      ensures result == Save(messages, header)
      ensures content == if result.Ok? then result.value else old(content)
    {
      var failed, byDate, order := GroupByDate(messages, header);
      if failed {
        return Err(TypeError);
      }
      var entries := EntryOrder(order);
      EntriesAreFiled(messages, header, byDate, order);
      var printed := PrintEntries(entries, byDate, messages, header);
      content := printed;
      result := Ok(printed);
    }

    method MoveFromChat(text: string, today: string, header: string) returns (result: Result<string, SaveError>)
      modifies this
      ensures result == Save(Without(MessagesOf(Parse(old(content), today)), text), header)
      ensures content == if result.Ok? then result.value else old(content)
    {
      var messages := ParseMessages(today);
      var filtered: seq<Msg> := [];
      MessagesAt(messages);
      for i := 0 to |messages|
        invariant filtered == Without(MessagesOf(messages)[..i], text)
      {
        assert MessagesOf(messages)[..i + 1][..i] == MessagesOf(messages)[..i];
        if messages[i].msg.text != text {
          filtered := filtered + [messages[i].msg];
        }
      }
      assert MessagesOf(messages)[..|messages|] == MessagesOf(messages);
      result := SaveMessages(filtered, header);
    }
  }
}
