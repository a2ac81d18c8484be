/** Dotted configuration keys of src/main.rs: writing one into a TOML document through a
    moving cursor, and listing and looking up the leaves of the JSON form. */
module ConfigTree {
  import opened Options
  import opened Strings

  // ---- the document `config set` edits ----

  /** `Plain` is everything `as_table_mut` refuses: values, inline tables, arrays. */
  datatype Item = Table(entries: map<string, Item>) | Plain(text: string)

  type Path = seq<string>

  /** The item a path leads to. */
  function At(t: Item, path: Path): Option<Item> {
    if path == [] then Some(t)
    else if t.Plain? || path[0] !in t.entries then None
    else At(t.entries[path[0]], path[1..])
  }

  /** The entry a cursor moves to: the one there, or a fresh table. */
  function Child(t: Item, name: string): Item
    requires t.Table?
  {
    if name in t.entries then t.entries[name] else Table(map[])
  }

  function Put(t: Item, name: string, v: Item): Item
    requires t.Table?
  {
    Table(t.entries[name := v])
  }

  /** What setting a key means, part by part; the error names the parts up to the offender. */
  function SetAt(t: Item, parts: Path, v: Item): Result<Item, Path>
    requires t.Table? && |parts| > 0
    decreases |parts|
  {
    if |parts| == 1 then Ok(Put(t, parts[0], v))
    else if Child(t, parts[0]).Plain? then Err([parts[0]])
    else
      match SetAt(Child(t, parts[0]), parts[1..], v)
      case Ok(child) => Ok(Put(t, parts[0], child))
      case Err(e) => Err([parts[0]] + e)
  }

  /** The first `n` parts lead to something that is no table. */
  predicate Blocked(t: Item, parts: Path, n: nat)
    requires n <= |parts|
  {
    At(t, parts[..n]).Some? && At(t, parts[..n]).value.Plain?
  }

  /** Setting a key fails exactly when some proper prefix of it is bound to a non-table,
      and the error is the shortest such prefix. */
  lemma {:induction false} SetFailsIffBlocked(t: Item, parts: Path, v: Item)
    requires t.Table? && |parts| > 0
    ensures SetAt(t, parts, v).Err? <==> exists n: nat :: n < |parts| && Blocked(t, parts, n)
    ensures SetAt(t, parts, v).Err? ==>
              var e := SetAt(t, parts, v).error;
              && |e| < |parts| && e == parts[..|e|] && Blocked(t, parts, |e|)
              && forall n: nat :: n < |e| ==> !Blocked(t, parts, n)
    decreases |parts|
  {
    var child := Child(t, parts[0]);
    assert !Blocked(t, parts, 0);
    if |parts| > 1 {
      OneStepBlocked(t, parts);
      if child.Plain? {
        assert Blocked(t, parts, 1);
        assert parts[..1] == [parts[0]];
      } else {
        SetFailsIffBlocked(child, parts[1..], v);
        if SetAt(child, parts[1..], v).Err? {
          var e := SetAt(child, parts[1..], v).error;
          assert ([parts[0]] + e) == parts[..|e| + 1];
          assert Blocked(t, parts, |e| + 1);
          forall n: nat | n < |e| + 1
            ensures !Blocked(t, parts, n)
          {
            if n > 0 {
              assert !Blocked(child, parts[1..], n - 1);
            }
          }
        } else {
          forall n: nat | n < |parts|
            ensures !Blocked(t, parts, n)
          {
            if n > 0 {
              assert !Blocked(child, parts[1..], n - 1);
            }
          }
        }
      }
    }
  }

  lemma OneStepBlocked(t: Item, parts: Path)
    requires t.Table? && |parts| > 1
    ensures forall n: nat :: 0 < n < |parts| ==>
              (Blocked(t, parts, n) <==> Blocked(Child(t, parts[0]), parts[1..], n - 1))
  {
    forall n: nat | 0 < n < |parts|
      ensures Blocked(t, parts, n) <==> Blocked(Child(t, parts[0]), parts[1..], n - 1)
    {
      assert parts[..n][1..] == parts[1..][..n - 1] && parts[..n][0] == parts[0];
      if parts[0] !in t.entries {
        NothingBelowFresh(parts[1..][..n - 1]);
      }
    }
  }

  lemma NothingBelowFresh(path: Path)
    ensures At(Table(map[]), path) == if path == [] then Some(Table(map[])) else None
  {}

  /** Neither path leads through the other. */
  predicate Apart(p: Path, q: Path) {
    !(p <= q) && !(q <= p)
  }

  /** A successful set is read back at its key and below. */
  lemma {:induction false} SetThenGet(t: Item, parts: Path, v: Item, q: Path)
    requires t.Table? && |parts| > 0 && SetAt(t, parts, v).Ok? && parts <= q
    ensures At(SetAt(t, parts, v).value, q) == At(v, q[|parts|..])
    decreases |parts|
  {
    if |parts| > 1 {
      PrefixTails(parts, q);
      SetThenGet(Child(t, parts[0]), parts[1..], v, q[1..]);
    } else {
      assert q[|parts|..] == q[1..];
    }
  }

  /** Paths that neither lead to the key nor through it keep what they had. */
  lemma {:induction false} SetFrame(t: Item, parts: Path, v: Item, q: Path)
    requires t.Table? && |parts| > 0 && SetAt(t, parts, v).Ok? && Apart(parts, q)
    ensures At(SetAt(t, parts, v).value, q) == At(t, q)
    decreases |parts|
  {
    assert q != [];
    if q[0] == parts[0] {
      PrefixTails(parts, q);
      if |parts| > 1 {
        SetFrame(Child(t, parts[0]), parts[1..], v, q[1..]);
        if parts[0] !in t.entries {
          NothingBelowFresh(q[1..]);
        }
      }
    }
  }

  /** The proper prefixes of the key are tables that gained at most the next part. */
  lemma {:induction false} SetPrefix(t: Item, parts: Path, v: Item, q: Path)
    requires t.Table? && |parts| > 0 && SetAt(t, parts, v).Ok? && q < parts
    ensures var after := At(SetAt(t, parts, v).value, q);
            && after.Some? && after.value.Table?
            && after.value.entries.Keys == KeysAt(t, q) + {parts[|q|]}
    decreases |parts|
  {
    if q != [] {
      PrefixTails(parts, q);
      SetPrefix(Child(t, parts[0]), parts[1..], v, q[1..]);
      if parts[0] !in t.entries {
        NothingBelowFresh(q[1..]);
      }
    }
  }

  /** The names below a path, none if there is no table. */
  function KeysAt(t: Item, q: Path): set<string> {
    match At(t, q)
    case Some(Table(entries)) => entries.Keys
    case _ => {}
  }

  lemma PrefixTails(p: Path, q: Path)
    requires p != [] && q != [] && p[0] == q[0]
    ensures p <= q <==> p[1..] <= q[1..]
    ensures q <= p <==> q[1..] <= p[1..]
    ensures p < q <==> p[1..] < q[1..]
    ensures q < p <==> q[1..] < p[1..]
    ensures p <= q ==> q[|p|..] == q[1..][|p| - 1..]
  {}

  /** The last set of a key wins. */
  lemma {:induction false} SetTwice(t: Item, parts: Path, v: Item, w: Item)
    requires t.Table? && |parts| > 0 && SetAt(t, parts, v).Ok?
    ensures SetAt(t, parts, v).value.Table?
    ensures SetAt(SetAt(t, parts, v).value, parts, w) == SetAt(t, parts, w)
    decreases |parts|
  {
    if |parts| > 1 {
      var child := Child(t, parts[0]);
      SetTwice(child, parts[1..], v, w);
      var t' := SetAt(t, parts, v).value;
      assert t'.Table? && Child(t', parts[0]) == SetAt(child, parts[1..], v).value;
      if SetAt(t, parts, w).Ok? {
        assert Put(t', parts[0], SetAt(child, parts[1..], w).value) == SetAt(t, parts, w).value;
      }
    } else {
      assert Put(Put(t, parts[0], v), parts[0], w) == Put(t, parts[0], w);
    }
  }

  // ---- the cursor ----

  /** A table on the way to the cursor, and the name the cursor went down by. */
  datatype Frame = Frame(table: Item, name: string)

  /** The document around a cursor. */
  function Plug(frames: seq<Frame>, t: Item): Item
    requires forall f :: f in frames ==> f.table.Table?
  {
    if frames == [] then t
    else
      var f := frames[|frames| - 1];
      Plug(frames[..|frames| - 1], Put(f.table, f.name, t))
  }

  function PlugResult(frames: seq<Frame>, r: Result<Item, Path>): Result<Item, Path>
    requires forall f :: f in frames ==> f.table.Table?
  {
    match r
    case Ok(t) => Ok(Plug(frames, t))
    case Err(e) => Err(Names(frames) + e)
  }

  function Names(frames: seq<Frame>): Path {
    if frames == [] then [] else Names(frames[..|frames| - 1]) + [frames[|frames| - 1].name]
  }

  lemma SetBelow(frames: seq<Frame>, t: Item, parts: Path, v: Item)
    requires forall f :: f in frames ==> f.table.Table?
    requires t.Table? && |parts| > 1 && Child(t, parts[0]).Table?
    ensures var longer := frames + [Frame(t, parts[0])];
            && (forall f :: f in longer ==> f.table.Table?)
            && PlugResult(longer, SetAt(Child(t, parts[0]), parts[1..], v)) == PlugResult(frames, SetAt(t, parts, v))
  {
    var longer := frames + [Frame(t, parts[0])];
    assert longer[..|frames|] == frames;
    var below := SetAt(Child(t, parts[0]), parts[1..], v);
    if below.Err? {
      assert Names(frames) + [parts[0]] + below.error == Names(frames) + ([parts[0]] + below.error);
    }
  }

  class Document {
    var root: Item

    ghost predicate Valid()
      reads this
    {
      root.Table?
    }

    constructor (root: Item)
      requires root.Table?
      ensures Valid() && this.root == root
    {
      this.root := root;
    }

    /** `set_toml_dot`: the cursor goes down part by part, writing a fresh table into the
        document wherever one is missing, and gives up at the first part that is no table.
        What it may have written by then cannot have been anything. */
    method SetTomlDot(key: string, value: Item) returns (error: Option<Path>)
      requires Valid()
      modifies this
      ensures var r := SetAt(old(root), Split(key, '.'), value);
              match r
              case Ok(t) => root == t && error == None
              case Err(e) => root == old(root) && error == Some(e)
      ensures Valid()
    {
      var parts := Split(key, '.');
      var table, frames: seq<Frame> := root, [];
      ghost var goal := SetAt(root, parts, value);
      assert parts[0..] == parts;
      assert goal.Err? ==> [] + goal.error == goal.error;
      SetThenGetTable(root, parts, value);
      for i := 0 to |parts| - 1
        invariant table.Table? && forall f :: f in frames ==> f.table.Table?
        invariant PlugResult(frames, SetAt(table, parts[i..], value)) == goal
        invariant root == Plug(frames, table)
        invariant root == old(root) || table == Table(map[])
      {
        assert parts[i..][0] == parts[i] && parts[i..][1..] == parts[i + 1..];
        var next := Child(table, parts[i]);
        if parts[i] in table.entries {
          PutChild(table, parts[i]);
        }
        root := Plug(frames, Put(table, parts[i], next));
        if next.Plain? {
          error := Some(Names(frames) + [parts[i]]);
          return;
        }
        SetBelow(frames, table, parts[i..], value);
        PlugBelow(frames, table, parts[i], next);
        frames := frames + [Frame(table, parts[i])];
        table := next;
      }
      assert parts[|parts| - 1..] == [parts[|parts| - 1]];
      root := Plug(frames, Put(table, parts[|parts| - 1], value));
      error := None;
    }
  }

  /** Moving to an entry that is there writes what was there. */
  lemma PutChild(t: Item, name: string)
    requires t.Table? && name in t.entries
    ensures Put(t, name, Child(t, name)) == t
  {
    assert t.entries[name := t.entries[name]] == t.entries;
  }

  lemma PlugBelow(frames: seq<Frame>, t: Item, name: string, next: Item)
    requires t.Table? && forall f :: f in frames ==> f.table.Table?
    ensures var longer := frames + [Frame(t, name)];
            && (forall f :: f in longer ==> f.table.Table?)
            && Plug(longer, next) == Plug(frames, Put(t, name, next))
  {
    assert (frames + [Frame(t, name)])[..|frames|] == frames;
  }

  lemma SetThenGetTable(t: Item, parts: Path, v: Item)
    requires t.Table? && |parts| > 0
    ensures SetAt(t, parts, v).Ok? ==> SetAt(t, parts, v).value.Table?
  {}

  // ---- the JSON form `config get` and `config list` read ----

  datatype Json = Scalar(text: string) | Array(items: seq<Json>) | Object(fields: Fields)

  datatype Fields = NoFields | Field(name: string, value: Json, rest: Fields)

  function Lookup(fields: Fields, name: string): Option<Json> {
    match fields
    case NoFields => None
    case Field(n, v, rest) => if n == name then Some(v) else Lookup(rest, name)
  }

  /** An array index in a JSON pointer (RFC 6901, section 4): digits, no leading zero. */
  function ParseIndex(token: string): Option<nat> {
    if token == "" || (token[0] == '0' && |token| > 1) || exists c :: c in token && !IsDigit(c) then None
    else Some(DigitsValue(token))
  }

  function Resolve(j: Json, tokens: Path): Option<Json>
    decreases |tokens|
  {
    if tokens == [] then Some(j)
    else
      match j
      case Scalar(_) => None
      case Array(items) =>
        var i := ParseIndex(tokens[0]);
        if i.Some? && i.value < |items| then Resolve(items[i.value], tokens[1..]) else None
      case Object(fields) =>
        var v := Lookup(fields, tokens[0]);
        if v.Some? then Resolve(v.value, tokens[1..]) else None
  }

  function Replace(s: string, from: char, to: char): string {
    if s == "" then "" else [if s[0] == from then to else s[0]] + Replace(s[1..], from, to)
  }

  /** `~` and one of `0`, `1` stand for `~` and `/` in a pointer token. */
  function ReplacePair(s: string, second: char, whole: char): string {
    if |s| >= 2 && s[0] == '~' && s[1] == second then [whole] + ReplacePair(s[2..], second, whole)
    else if s == "" then ""
    else [s[0]] + ReplacePair(s[1..], second, whole)
  }

  function Unescape(token: string): string {
    ReplacePair(ReplacePair(token, '1', '/'), '0', '~')
  }

  function Tokens(raw: Path): Path {
    if raw == [] then [] else [Unescape(raw[0])] + Tokens(raw[1..])
  }

  /** The reference tokens of the pointer `/a/b` that `config get` makes of the key `a.b`. */
  function KeyTokens(key: string): Path {
    Tokens(Split(Replace(key, '.', '/'), '/'))
  }

  /** The value `config get` finds: the pointer `/a/b` for the key `a.b`. */
  function ConfigGet(j: Json, key: string): Option<Json> {
    Resolve(j, KeyTokens(key))
  }

  function Below(prefix: string, name: string): string {
    if prefix == "" then name else prefix + "." + name
  }

  /** `collect_leaf_keys`: every value that is no object, under its dotted key. */
  function Leaves(j: Json, prefix: string): seq<(string, Json)> {
    match j
    case Object(fields) => FieldLeaves(fields, prefix)
    case _ => [(prefix, j)]
  }

  function FieldLeaves(fields: Fields, prefix: string): seq<(string, Json)> {
    match fields
    case NoFields => []
    case Field(n, v, rest) => Leaves(v, Below(prefix, n)) + FieldLeaves(rest, prefix)
  }

  /** The listing as the source makes it: recursing into objects, pushing leaves. */
  method CollectLeafKeys(value: Json, prefix: string, soFar: seq<(string, Json)>) returns (out: seq<(string, Json)>)
    ensures out == soFar + Leaves(value, prefix)
    decreases value
  {
    out := soFar;
    match value
    case Object(fields) =>
      var left := fields;
      while left.Field?
        invariant out + FieldLeaves(left, prefix) == soFar + FieldLeaves(fields, prefix)
        invariant left == fields || left < fields
        decreases left
      {
        ghost var before := out;
        out := CollectLeafKeys(left.value, Below(prefix, left.name), out);
        assert out + FieldLeaves(left.rest, prefix) == before + FieldLeaves(left, prefix);
        left := left.rest;
      }
    case _ =>
      out := out + [(prefix, value)];
  }

  // ---- paths and keys ----

  /** A name a dotted key can carry and a pointer token leaves alone. */
  predicate GoodName(name: string) {
    name != "" && '.' !in name && '/' !in name && '~' !in name
  }

  /** No object binds one name twice, as serde's map cannot. */
  predicate DistinctNames(j: Json) {
    match j
    case Object(fields) => DistinctFields(fields)
    case Array(items) => forall i :: 0 <= i < |items| ==> DistinctNames(items[i])
    case _ => true
  }

  predicate DistinctFields(fields: Fields) {
    match fields
    case NoFields => true
    case Field(n, v, rest) => DistinctNames(v) && Lookup(rest, n).None? && DistinctFields(rest)
  }

  /** Walking objects only. */
  function Walk(j: Json, path: Path): Option<Json>
    decreases |path|
  {
    if path == [] then Some(j)
    else if !j.Object? then None
    else
      var v := Lookup(j.fields, path[0]);
      if v.Some? then Walk(v.value, path[1..]) else None
  }

  ghost predicate GoodPath(path: Path) {
    forall i :: 0 <= i < |path| ==> GoodName(path[i])
  }

  lemma {:induction false} LookupIsDistinct(fields: Fields, name: string)
    requires DistinctFields(fields) && Lookup(fields, name).Some?
    ensures DistinctNames(Lookup(fields, name).value)
  {
    if fields.name != name {
      LookupIsDistinct(fields.rest, name);
    }
  }

  lemma {:induction false} WalkResolves(j: Json, path: Path)
    requires Walk(j, path).Some?
    ensures Resolve(j, path) == Walk(j, path)
    decreases |path|
  {
    if path != [] {
      WalkResolves(Lookup(j.fields, path[0]).value, path[1..]);
    }
  }

  lemma {:induction false} ResolveIsDistinct(j: Json, tokens: Path)
    requires DistinctNames(j) && Resolve(j, tokens).Some?
    ensures DistinctNames(Resolve(j, tokens).value)
    decreases |tokens|
  {
    if tokens != [] {
      match j
      case Array(items) =>
        ResolveIsDistinct(items[ParseIndex(tokens[0]).value], tokens[1..]);
      case Object(fields) =>
        LookupIsDistinct(fields, tokens[0]);
        ResolveIsDistinct(Lookup(fields, tokens[0]).value, tokens[1..]);
    }
  }

  lemma {:induction false} ResolveConcat(j: Json, a: Path, b: Path)
    requires Resolve(j, a).Some?
    ensures Resolve(j, a + b) == Resolve(Resolve(j, a).value, b)
    decreases |a|
  {
    if a == [] {
      assert a + b == b;
    } else {
      assert (a + b)[1..] == a[1..] + b;
      match j
      case Array(items) =>
        ResolveConcat(items[ParseIndex(a[0]).value], a[1..], b);
      case Object(fields) =>
        ResolveConcat(Lookup(fields, a[0]).value, a[1..], b);
    }
  }

  lemma {:induction false} ReplaceSplits(s: string)
    requires '/' !in s
    ensures Split(Replace(s, '.', '/'), '/') == Split(s, '.')
  {
    if s != "" {
      assert s == [s[0]] + s[1..];
      ReplaceSplits(s[1..]);
      var r := Replace(s, '.', '/');
      assert r[1..] == Replace(s[1..], '.', '/');
    }
  }

  lemma {:induction false} NothingToUnescape(s: string, second: char, whole: char)
    requires '~' !in s
    ensures ReplacePair(s, second, whole) == s
  {
    if s != "" {
      assert s == [s[0]] + s[1..];
      NothingToUnescape(s[1..], second, whole);
    }
  }

  lemma {:induction false} TokensOfGood(path: Path)
    requires GoodPath(path)
    ensures Tokens(path) == path
  {
    if path != [] {
      assert GoodName(path[0]);
      NothingToUnescape(path[0], '1', '/');
      NothingToUnescape(path[0], '0', '~');
      TokensOfGood(path[1..]);
    }
  }

  lemma {:induction false} JoinedChars(path: Path, c: char)
    requires c != '.' && forall i :: 0 <= i < |path| ==> c !in path[i]
    ensures c !in Join(path, '.')
  {
    if |path| > 1 {
      JoinedChars(path[1..], c);
    }
  }

  /** The pointer tokens of a dotted path are its names. */
  lemma {:induction false} TokensOfKey(path: Path)
    requires GoodPath(path) && path != []
    ensures KeyTokens(Join(path, '.')) == path
    ensures Split(Join(path, '.'), '.') == path
  {
    forall i | 0 <= i < |path|
      ensures '/' !in path[i] && '.' !in path[i]
    {
      assert GoodName(path[i]);
    }
    JoinedChars(path, '/');
    ReplaceSplits(Join(path, '.'));
    SplitJoin(path, '.');
    TokensOfGood(path);
  }

  lemma {:induction false} ReplaceConcat(a: string, b: string, from: char, to: char)
    ensures Replace(a + b, from, to) == Replace(a, from, to) + Replace(b, from, to)
  {
    if a == "" {
      assert a + b == b;
    } else {
      ReplaceConcat(a[1..], b, from, to);
      assert (a + b)[0] == a[0] && (a + b)[1..] == a[1..] + b;
      var head := [if a[0] == from then to else a[0]];
      var front, back := Replace(a[1..], from, to), Replace(b, from, to);
      calc {
        Replace(a + b, from, to);
        head + (front + back);
        (head + front) + back;
        Replace(a, from, to) + back;
      }
    }
  }

  lemma {:induction false} TokensConcat(a: Path, b: Path)
    ensures Tokens(a + b) == Tokens(a) + Tokens(b)
  {
    if a == [] {
      assert a + b == b;
    } else {
      TokensConcat(a[1..], b);
      assert (a + b)[1..] == a[1..] + b;
    }
  }

  // ---- the keys of a listing ----

  /** The value `config list` starts from; `None` is its "unknown prefix". */
  function ListRoot(j: Json, prefix: Option<string>): Option<Json> {
    match prefix
    case None => Some(j)
    case Some(p) => ConfigGet(j, p)
  }

  function PrefixText(prefix: Option<string>): string {
    if prefix.Some? then prefix.value else ""
  }

  /** What `config list` prints: dotted keys and the leaves under them. */
  method ConfigList(j: Json, prefix: Option<string>) returns (keys: Option<seq<(string, Json)>>)
    ensures keys == match ListRoot(j, prefix)
                    case Some(root) => Some(Leaves(root, PrefixText(prefix)))
                    case None => None
  {
    var root := j;
    if prefix.Some? {
      var found := ConfigGet(j, prefix.value);
      if found.None? { return None; }
      root := found.value;
    }
    var listed := CollectLeafKeys(root, PrefixText(prefix), []);
    assert [] + Leaves(root, PrefixText(prefix)) == Leaves(root, PrefixText(prefix));
    keys := Some(listed);
  }

  /** The key a listing gives a leaf that lies at `path` below the prefix. */
  function KeyBelow(prefix: string, path: Path): string
    decreases |path|
  {
    if path == [] then prefix else KeyBelow(Below(prefix, path[0]), path[1..])
  }

  /** For good names it is the dotted path. */
  lemma {:induction false} KeyIsDotted(prefix: string, path: Path)
    requires GoodPath(path) && path != []
    ensures KeyBelow(prefix, path) == Below(prefix, Join(path, '.'))
    decreases |path|
  {
    assert GoodName(path[0]);
    if |path| > 1 {
      KeyIsDotted(Below(prefix, path[0]), path[1..]);
      var n, t := path[0], Join(path[1..], '.');
      assert Join(path, '.') == n + ['.'] + t;
      assert prefix + "." + n + "." + t == prefix + "." + (n + ['.'] + t);
    }
  }

  /** Dotted keys can express the path: its names are good, and an empty prefix, should the
      configuration know one, is listed itself. */
  ghost predicate Expressible(prefix: Option<string>, path: Path) {
    GoodPath(path) && (prefix == Some("") ==> path == [])
  }

  /** A key below a prefix finds what walking its path from the prefix's value finds. */
  lemma {:induction false} KeyFinds(j: Json, prefix: Option<string>, path: Path)
    requires ListRoot(j, prefix).Some? && Expressible(prefix, path)
    requires Walk(ListRoot(j, prefix).value, path).Some? && (prefix.None? ==> path != [])
    ensures ConfigGet(j, KeyBelow(PrefixText(prefix), path)) == Walk(ListRoot(j, prefix).value, path)
  {
    var root := ListRoot(j, prefix).value;
    WalkResolves(root, path);
    if path != [] {
      KeyIsDotted(PrefixText(prefix), path);
      TokensOfKey(path);
      if prefix.Some? {
        TokensBelow(prefix.value, Join(path, '.'));
        ResolveConcat(j, KeyTokens(prefix.value), path);
      }
    }
  }

  lemma {:induction false} TokensBelow(p: string, t: string)
    ensures KeyTokens(p + "." + t) == KeyTokens(p) + KeyTokens(t)
  {
    assert p + "." + t == p + ("." + t);
    ReplaceConcat(p, "." + t, '.', '/');
    ReplaceConcat(".", t, '.', '/');
    assert Replace(".", '.', '/') == "/";
    assert Replace(p + "." + t, '.', '/') == Replace(p, '.', '/') + ['/'] + Replace(t, '.', '/');
    SplitAt(Replace(p, '.', '/'), Replace(t, '.', '/'), '/');
    TokensConcat(Split(Replace(p, '.', '/'), '/'), Split(Replace(t, '.', '/'), '/'));
  }

  /** The spelling of a name in a pointer (RFC 6901, section 3). */
  function Escape(name: string): string {
    if name == "" then ""
    else (if name[0] == '~' then "~0" else if name[0] == '/' then "~1" else [name[0]]) + Escape(name[1..])
  }

  function EscapeTilde(name: string): string {
    if name == "" then ""
    else (if name[0] == '~' then "~0" else [name[0]]) + EscapeTilde(name[1..])
  }

  function EscapeAll(path: Path): (raw: Path)
    ensures |raw| == |path|
  {
    if path == [] then [] else [Escape(path[0])] + EscapeAll(path[1..])
  }

  lemma {:induction false} SlashesComeBack(name: string)
    ensures ReplacePair(Escape(name), '1', '/') == EscapeTilde(name)
  {
    if name != "" {
      SlashesComeBack(name[1..]);
      var s, rest := Escape(name), Escape(name[1..]);
      if name[0] == '~' {
        assert s[1..] == ['0'] + rest && s[1..][1..] == rest;
        assert ReplacePair(s[1..], '1', '/') == ['0'] + ReplacePair(rest, '1', '/');
      } else if name[0] == '/' {
        assert s[2..] == rest;
      } else {
        assert s[1..] == rest;
      }
    }
  }

  lemma {:induction false} TildesComeBack(name: string)
    ensures ReplacePair(EscapeTilde(name), '0', '~') == name
  {
    if name != "" {
      TildesComeBack(name[1..]);
      var s, rest := EscapeTilde(name), EscapeTilde(name[1..]);
      if name[0] == '~' {
        assert s[2..] == rest;
      } else {
        assert s[1..] == rest;
      }
    }
  }

  lemma {:induction false} EscapedTokens(path: Path)
    ensures Tokens(EscapeAll(path)) == path
  {
    if path != [] {
      SlashesComeBack(path[0]);
      TildesComeBack(path[0]);
      EscapedTokens(path[1..]);
    }
  }

  lemma {:induction false} EscapedChars(name: string)
    ensures '/' !in Escape(name) && ('.' !in name ==> '.' !in Escape(name))
  {
    if name != "" {
      EscapedChars(name[1..]);
      assert name == [name[0]] + name[1..];
    }
  }

  lemma {:induction false} EscapedAllChars(path: Path)
    requires forall i :: 0 <= i < |path| ==> '.' !in path[i]
    ensures NoSeparators(EscapeAll(path))
  {
    if path != [] {
      EscapedChars(path[0]);
      EscapedAllChars(path[1..]);
      OneMoreName(Escape(path[0]), EscapeAll(path[1..]));
    }
  }

  ghost predicate NoSeparators(raw: Path) {
    forall i :: 0 <= i < |raw| ==> '/' !in raw[i] && '.' !in raw[i]
  }

  lemma OneMoreName(name: string, rest: Path)
    requires NoSeparators(rest) && '/' !in name && '.' !in name
    ensures NoSeparators([name] + rest)
  {}

  /** Names with `/` or `~` in them are found when they are escaped as a pointer has them;
      only a dot in a name cannot be expressed. */
  lemma EscapedKeyFinds(j: Json, path: Path)
    requires path != [] && Walk(j, path).Some?
    requires forall i :: 0 <= i < |path| ==> '.' !in path[i]
    ensures ConfigGet(j, Join(EscapeAll(path), '.')) == Walk(j, path)
  {
    var raw := EscapeAll(path);
    EscapedAllChars(path);
    JoinedChars(raw, '/');
    ReplaceSplits(Join(raw, '.'));
    SplitJoin(raw, '.');
    EscapedTokens(path);
    WalkResolves(j, path);
  }

  /** A pointer token is an index exactly when it is a numeral. */
  lemma {:induction false} IndexIsNumeral(t: string, i: nat)
    ensures ParseIndex(t) == Some(i) <==> t == Digits(i)
  {
    if ParseIndex(t) == Some(i) {
      var z := NumeralBehindZeros(t);
      ZerosStart(z);
      assert z == 0;
    }
    if t == Digits(i) {
      DigitsRoundTrip(i);
      DigitsStart(i);
    }
  }

  /** Below a key that holds an array, `config get` finds the elements under their decimal
      numbers, from zero, and nothing else. */
  lemma ArrayElements(j: Json, key: string, items: seq<Json>, t: string)
    requires ConfigGet(j, key) == Some(Array(items)) && GoodName(t)
    ensures forall i :: 0 <= i < |items| && t == Digits(i) ==> ConfigGet(j, key + "." + t) == Some(items[i])
    ensures (forall i :: 0 <= i < |items| ==> t != Digits(i)) ==> ConfigGet(j, key + "." + t) == None
  {
    assert Join([t], '.') == t;
    TokensOfKey([t]);
    TokensBelow(key, t);
    ResolveConcat(j, KeyTokens(key), [t]);
    assert [t][1..] == [];
    forall i: nat
      ensures ParseIndex(t) == Some(i) <==> t == Digits(i)
    {
      IndexIsNumeral(t, i);
    }
  }

  /** A key tells its path. */
  lemma KeySplits(prefix: string, path: Path)
    requires GoodPath(path) && (prefix == "" ==> path != [])
    ensures Split(KeyBelow(prefix, path), '.') == (if prefix == "" then [] else Split(prefix, '.')) + path
  {
    if path == [] {
      assert Split(prefix, '.') + [] == Split(prefix, '.');
    } else {
      KeyIsDotted(prefix, path);
      TokensOfKey(path);
      if prefix != "" {
        SplitAt(prefix, Join(path, '.'), '.');
      }
    }
  }

  // ---- the listing is the set of leaves ----

  datatype Leaf = Leaf(path: Path, value: Json)

  /** The leaves below a value with the paths that lead to them. */
  function Paths(j: Json): seq<Leaf> {
    match j
    case Object(fields) => FieldPaths(fields)
    case _ => [Leaf([], j)]
  }

  function FieldPaths(fields: Fields): seq<Leaf> {
    match fields
    case NoFields => []
    case Field(n, v, rest) => Under(n, Paths(v)) + FieldPaths(rest)
  }

  function Under(name: string, ls: seq<Leaf>): (r: seq<Leaf>)
    ensures |r| == |ls|
    ensures forall i :: 0 <= i < |ls| ==> r[i] == Leaf([name] + ls[i].path, ls[i].value)
  {
    if ls == [] then []
    else Under(name, ls[..|ls| - 1]) + [Leaf([name] + ls[|ls| - 1].path, ls[|ls| - 1].value)]
  }

  /** The leaves with their keys below a prefix. */
  function Keyed(prefix: string, ls: seq<Leaf>): (r: seq<(string, Json)>)
    ensures |r| == |ls|
  {
    if ls == [] then []
    else Keyed(prefix, ls[..|ls| - 1]) + [(KeyBelow(prefix, ls[|ls| - 1].path), ls[|ls| - 1].value)]
  }

  lemma LeavesAreKeyed(j: Json, prefix: string)
    ensures Leaves(j, prefix) == Keyed(prefix, Paths(j))
    decreases j
  {
    match j
    case Object(fields) => FieldLeavesAreKeyed(fields, prefix);
    case _ =>
  }

  lemma FieldLeavesAreKeyed(fields: Fields, prefix: string)
    ensures FieldLeaves(fields, prefix) == Keyed(prefix, FieldPaths(fields))
    decreases fields
  {
    match fields
    case NoFields =>
    case Field(n, v, rest) =>
      LeavesAreKeyed(v, Below(prefix, n));
      FieldLeavesAreKeyed(rest, prefix);
      KeyedUnder(prefix, n, Paths(v));
      KeyedConcat(prefix, Under(n, Paths(v)), FieldPaths(rest));
  }

  lemma {:induction false} KeyedAt(prefix: string, ls: seq<Leaf>, i: nat)
    requires i < |ls|
    ensures Keyed(prefix, ls)[i] == (KeyBelow(prefix, ls[i].path), ls[i].value)
  {
    if i < |ls| - 1 {
      KeyedAt(prefix, ls[..|ls| - 1], i);
    }
  }

  lemma {:induction false} KeyedUnder(prefix: string, n: string, ls: seq<Leaf>)
    ensures Keyed(prefix, Under(n, ls)) == Keyed(Below(prefix, n), ls)
  {
    if ls != [] {
      var init, last := ls[..|ls| - 1], ls[|ls| - 1];
      KeyedUnder(prefix, n, init);
      assert Under(n, ls)[..|init|] == Under(n, init);
      assert ([n] + last.path)[1..] == last.path;
    }
  }

  lemma {:induction false} KeyedConcat(prefix: string, a: seq<Leaf>, b: seq<Leaf>)
    ensures Keyed(prefix, a + b) == Keyed(prefix, a) + Keyed(prefix, b)
  {
    if b == [] {
      assert a + b == a;
    } else {
      KeyedConcat(prefix, a, b[..|b| - 1]);
      assert (a + b)[..|a + b| - 1] == a + b[..|b| - 1];
    }
  }

  /** The paths listed are exactly those that lead to something that is no object. */
  lemma PathsAreLeaves(j: Json, q: Path, v: Json)
    requires DistinctNames(j)
    ensures Leaf(q, v) in Paths(j) <==> Walk(j, q) == Some(v) && !v.Object?
    decreases j
  {
    match j
    case Object(fields) =>
      FieldPathsAreLeaves(fields, q, v);
    case _ =>
  }

  lemma FieldPathsAreLeaves(fields: Fields, q: Path, v: Json)
    requires DistinctFields(fields)
    ensures Leaf(q, v) in FieldPaths(fields)
            <==> q != [] && Lookup(fields, q[0]).Some? && Walk(Lookup(fields, q[0]).value, q[1..]) == Some(v) && !v.Object?
    decreases fields
  {
    match fields
    case NoFields =>
    case Field(n, w, rest) =>
      FieldPathsAreLeaves(rest, q, v);
      UnderMembers(n, Paths(w), q, v);
      if q != [] {
        PathsAreLeaves(w, q[1..], v);
      }
  }

  lemma UnderMembers(n: string, ls: seq<Leaf>, q: Path, v: Json)
    ensures Leaf(q, v) in Under(n, ls) <==> q != [] && q[0] == n && Leaf(q[1..], v) in ls
  {
    if q != [] && q[0] == n && Leaf(q[1..], v) in ls {
      var i :| 0 <= i < |ls| && ls[i] == Leaf(q[1..], v);
      assert [n] + q[1..] == q;
      assert Under(n, ls)[i] == Leaf(q, v);
    }
    if Leaf(q, v) in Under(n, ls) {
      var i :| 0 <= i < |ls| && Under(n, ls)[i] == Leaf(q, v);
      assert q == [n] + ls[i].path;
      assert q[1..] == ls[i].path;
    }
  }

  ghost predicate DistinctPaths(ls: seq<Leaf>) {
    forall i, j :: 0 <= i < j < |ls| ==> ls[i].path != ls[j].path
  }

  lemma PathsAreDistinct(j: Json)
    requires DistinctNames(j)
    ensures DistinctPaths(Paths(j))
    decreases j
  {
    match j
    case Object(fields) => FieldPathsAreDistinct(fields);
    case _ =>
  }

  lemma FieldPathsAreDistinct(fields: Fields)
    requires DistinctFields(fields)
    ensures DistinctPaths(FieldPaths(fields))
    decreases fields
  {
    match fields
    case NoFields =>
    case Field(n, v, rest) =>
      PathsAreDistinct(v);
      FieldPathsAreDistinct(rest);
      var a, b := Under(n, Paths(v)), FieldPaths(rest);
      UnderIsDistinct(n, Paths(v));
      forall i, k | 0 <= i < |a| && 0 <= k < |b|
        ensures a[i].path != b[k].path
      {
        assert b[k] in b;
        FieldPathsAreLeaves(rest, b[k].path, b[k].value);
      }
      forall i, k | 0 <= i < k < |a + b|
        ensures (a + b)[i].path != (a + b)[k].path
      {}
  }

  lemma UnderIsDistinct(n: string, ls: seq<Leaf>)
    requires DistinctPaths(ls)
    ensures DistinctPaths(Under(n, ls))
  {
    forall i, k | 0 <= i < k < |ls|
      ensures [n] + ls[i].path != [n] + ls[k].path
    {
      assert ([n] + ls[i].path)[1..] == ls[i].path && ([n] + ls[k].path)[1..] == ls[k].path;
    }
  }

  /** What can be listed: a known prefix, or the whole configuration, an object. */
  predicate Listable(j: Json, prefix: Option<string>) {
    DistinctNames(j) && ListRoot(j, prefix).Some? && (prefix.None? ==> j.Object?)
  }

  lemma RootIsDistinct(j: Json, prefix: Option<string>)
    requires DistinctNames(j) && ListRoot(j, prefix).Some?
    ensures DistinctNames(ListRoot(j, prefix).value)
  {
    if prefix.Some? {
      ResolveIsDistinct(j, KeyTokens(prefix.value));
    }
  }

  /** The path of the `i`-th listed leaf below the prefix. */
  function ListedPath(j: Json, prefix: Option<string>, i: nat): Path
    requires ListRoot(j, prefix).Some? && i < |Paths(ListRoot(j, prefix).value)|
  {
    Paths(ListRoot(j, prefix).value)[i].path
  }

  /** Every listed leaf is where its path leads. */
  lemma ListedPathLeads(j: Json, prefix: Option<string>, i: nat)
    requires Listable(j, prefix)
    requires i < |Paths(ListRoot(j, prefix).value)|
    ensures var root := ListRoot(j, prefix).value;
            var leaf, keys := Paths(root)[i], Leaves(root, PrefixText(prefix));
            && Walk(root, leaf.path) == Some(leaf.value) && !leaf.value.Object?
            && (prefix.None? ==> leaf.path != [])
            && |keys| == |Paths(root)|
            && keys[i] == (KeyBelow(PrefixText(prefix), leaf.path), leaf.value)
  {
    var root := ListRoot(j, prefix).value;
    var leaf := Paths(root)[i];
    RootIsDistinct(j, prefix);
    assert leaf == Leaf(leaf.path, leaf.value) && leaf in Paths(root);
    PathsAreLeaves(root, leaf.path, leaf.value);
    LeavesAreKeyed(root, PrefixText(prefix));
    KeyedAt(PrefixText(prefix), Paths(root), i);
  }

  /** `config get` finds under each key that `config list` prints, with any prefix it
      knows or none, the very value it was listed for, if the names on that leaf's own
      path are good. */
  lemma ListedKeysResolve(j: Json, prefix: Option<string>, i: nat)
    requires Listable(j, prefix) && i < |Paths(ListRoot(j, prefix).value)|
    requires Expressible(prefix, ListedPath(j, prefix, i))
    ensures var keys := Leaves(ListRoot(j, prefix).value, PrefixText(prefix));
            i < |keys| && ConfigGet(j, keys[i].0) == Some(keys[i].1) && !keys[i].1.Object?
  {
    ListedPathLeads(j, prefix, i);
    KeyFinds(j, prefix, ListedPath(j, prefix, i));
  }

  /** No two leaves with good names on their paths are listed under one key. */
  lemma ListedKeysAreDistinct(j: Json, prefix: Option<string>, i: nat, k: nat)
    requires Listable(j, prefix) && i < k < |Paths(ListRoot(j, prefix).value)|
    requires Expressible(prefix, ListedPath(j, prefix, i)) && Expressible(prefix, ListedPath(j, prefix, k))
    ensures var keys := Leaves(ListRoot(j, prefix).value, PrefixText(prefix));
            k < |keys| && keys[i].0 != keys[k].0
  {
    var root := ListRoot(j, prefix).value;
    RootIsDistinct(j, prefix);
    PathsAreDistinct(root);
    ListedPathLeads(j, prefix, i);
    ListedPathLeads(j, prefix, k);
    DistinctKeys(PrefixText(prefix), Paths(root)[i].path, Paths(root)[k].path);
  }

  lemma DistinctKeys(prefix: string, a: Path, b: Path)
    requires a != b && GoodPath(a) && GoodPath(b)
    requires prefix == "" ==> a != [] && b != []
    ensures KeyBelow(prefix, a) != KeyBelow(prefix, b)
  {
    KeySplits(prefix, a);
    KeySplits(prefix, b);
    var front := if prefix == "" then [] else Split(prefix, '.');
    assert (front + a)[|front|..] == a && (front + b)[|front|..] == b;
  }

  /** Every value below the prefix that is no object is listed, under its dotted key if
      the names on its path are good. */
  lemma EveryLeafIsListed(j: Json, prefix: Option<string>, path: Path, v: Json)
    requires Listable(j, prefix)
    requires Walk(ListRoot(j, prefix).value, path) == Some(v) && !v.Object?
    ensures (KeyBelow(PrefixText(prefix), path), v) in Leaves(ListRoot(j, prefix).value, PrefixText(prefix))
    ensures GoodPath(path) && path != [] ==>
              KeyBelow(PrefixText(prefix), path) == Below(PrefixText(prefix), Join(path, '.'))
  {
    var root := ListRoot(j, prefix).value;
    RootIsDistinct(j, prefix);
    PathsAreLeaves(root, path, v);
    var i :| 0 <= i < |Paths(root)| && Paths(root)[i] == Leaf(path, v);
    ListedPathLeads(j, prefix, i);
    if GoodPath(path) && path != [] {
      KeyIsDotted(PrefixText(prefix), path);
    }
  }

  /** `{"a.b": v, "a": {"b": w}}` */
  function Dotted(v: string, w: string): Json {
    Object(Field("a.b", Scalar(v), Field("a", Object(Field("b", Scalar(w), NoFields)), NoFields)))
  }

  lemma DottedLeaves(v: string, w: string)
    ensures Leaves(Dotted(v, w), "") == [("a.b", Scalar(v)), ("a.b", Scalar(w))]
  {
    var leaf := Field("b", Scalar(w), NoFields);
    var outer := Field("a", Object(leaf), NoFields);
    assert "a" + "." + "b" == "a.b";
    assert FieldLeaves(leaf, "a") == Leaves(Scalar(w), "a.b") + FieldLeaves(NoFields, "a");
    assert FieldLeaves(outer, "") == Leaves(Object(leaf), "a") + FieldLeaves(NoFields, "");
    assert Leaves(Dotted(v, w), "") == Leaves(Scalar(v), "a.b") + FieldLeaves(outer, "");
  }

  lemma DottedResolves(v: string, w: string)
    ensures Resolve(Dotted(v, w), ["a", "b"]) == Some(Scalar(w))
  {
    var leaf := Field("b", Scalar(w), NoFields);
    var path := ["a", "b"];
    assert path[1..] == ["b"] && ["b"][1..] == [];
    assert |"a.b"| != |"a"|;
    assert Lookup(Dotted(v, w).fields, "a") == Some(Object(leaf));
    assert Resolve(Object(leaf), ["b"]) == Some(Scalar(w));
  }

  lemma DottedTokens()
    ensures KeyTokens("a.b") == ["a", "b"]
  {
    var path := ["a", "b"];
    assert path[1..] == ["b"];
    assert Join(["b"], '.') == "b" && Join(path, '.') == "a" + ['.'] + "b" == "a.b";
    TokensOfKey(path);
  }

  /** A name with a dot can take the key of another leaf, and `config get` then finds
      that one: the condition on the names is needed. */
  lemma DottedNameMisleads(v: string, w: string)
    requires v != w
    ensures DistinctNames(Dotted(v, w))
    ensures Leaves(Dotted(v, w), "") == [("a.b", Scalar(v)), ("a.b", Scalar(w))]
    ensures ConfigGet(Dotted(v, w), "a.b") == Some(Scalar(w))
  {
    DottedLeaves(v, w);
    DottedResolves(v, w);
    DottedTokens();
    assert |"a.b"| != |"a"|;
    TwoNamesAreDistinct("a.b", Scalar(v), "a", Object(Field("b", Scalar(w), NoFields)));
    OneNameIsDistinct("b", Scalar(w));
  }

  lemma {:induction false} OneNameIsDistinct(name: string, value: Json)
    ensures DistinctNames(Object(Field(name, value, NoFields))) <==> DistinctNames(value)
  {
    assert DistinctFields(NoFields) && Lookup(NoFields, name) == None;
  }

  lemma {:induction false} TwoNamesAreDistinct(a: string, v: Json, b: string, w: Json)
    requires a != b
    ensures DistinctNames(Object(Field(a, v, Field(b, w, NoFields)))) <==> DistinctNames(v) && DistinctNames(w)
  {
    var rest := Field(b, w, NoFields);
    OneNameIsDistinct(b, w);
    assert Lookup(rest, a) == Lookup(NoFields, a) == None;
    assert DistinctFields(Field(a, v, rest)) <==> DistinctNames(v) && DistinctFields(rest);
  }
}
