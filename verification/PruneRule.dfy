/** Which version directories prune keeps, stated by rank, and the newest-first order
    its loop relies on. */
module PruneRule {
  import opened Options
  import opened VersionNames
  import opened VersionStore

  ghost predicate AllNumbered(names: set<string>) {
    forall n :: n in names ==> ParseVersionDir(n).Some?
  }

  /** Installed versions that come before `n`, newest first. */
  function NewerThan(installed: set<string>, n: string): set<string>
    requires ParseVersionDir(n).Some?
  {
    set m | m in installed && ParseVersionDir(m).Some? && Newer(m, n)
  }

  /** A directory survives when it is no version, ranks among the `keep` newest, or is live. */
  predicate Survives(installed: set<string>, keep: nat, live: Option<string>, n: string) {
    ParseVersionDir(n).None? || |NewerThan(installed, n)| < keep || live == Some(n)
  }

  function Survivors(installed: set<string>, keep: nat, live: Option<string>): set<string> {
    set n | n in installed && Survives(installed, keep, live, n)
  }

  /** Without two spellings of one version, rank counts the numerically larger versions. */
  lemma RankIsNumeric(installed: set<string>, n: string)
    requires DistinctVersions(installed) && n in installed && ParseVersionDir(n).Some?
    ensures NewerThan(installed, n)
            == set m | m in installed && ParseVersionDir(m).Some? && NumberOf(n) < NumberOf(m)
  {
    forall m | m in installed && ParseVersionDir(m).Some?
      ensures Newer(m, n) <==> NumberOf(n) < NumberOf(m)
    {
      NewerIsNumeric(m, n);
      NewerTotal(m, n);
      VersionLessIsNumeric(ParseVersionDir(m).value, ParseVersionDir(n).value);
    }
  }

  // ---- sorting newest first ----

  ghost predicate NewestFirst(s: seq<string>) {
    && (forall i :: 0 <= i < |s| ==> ParseVersionDir(s[i]).Some?)
    && forall i, j :: 0 <= i < j < |s| ==> Newer(s[i], s[j])
  }

  function Elements(s: seq<string>): set<string> {
    set x | x in s
  }

  function Insert(x: string, s: seq<string>): seq<string>
    requires ParseVersionDir(x).Some?
    requires forall i :: 0 <= i < |s| ==> ParseVersionDir(s[i]).Some?
  {
    if s == [] || Newer(x, s[0]) then [x] + s else [s[0]] + Insert(x, s[1..])
  }

  /** The order `sort_by(|a, b| b.cmp(a))` puts the parsed directory names in. */
  function SortNewestFirst(s: seq<string>): (r: seq<string>)
    requires forall i :: 0 <= i < |s| ==> ParseVersionDir(s[i]).Some?
    ensures forall i :: 0 <= i < |r| ==> ParseVersionDir(r[i]).Some?
  {
    if s == [] then []
    else
      var rest := SortNewestFirst(s[1..]);
      InsertParsed(s[0], rest);
      Insert(s[0], rest)
  }

  lemma {:induction false} InsertParsed(x: string, s: seq<string>)
    requires ParseVersionDir(x).Some?
    requires forall i :: 0 <= i < |s| ==> ParseVersionDir(s[i]).Some?
    ensures forall i :: 0 <= i < |Insert(x, s)| ==> ParseVersionDir(Insert(x, s)[i]).Some?
  {
    if s != [] && !Newer(x, s[0]) {
      InsertParsed(x, s[1..]);
    }
  }

  lemma {:induction false} InsertElements(x: string, s: seq<string>)
    requires ParseVersionDir(x).Some?
    requires forall i :: 0 <= i < |s| ==> ParseVersionDir(s[i]).Some?
    ensures Elements(Insert(x, s)) == Elements(s) + {x}
  {
    if s != [] && !Newer(x, s[0]) {
      InsertElements(x, s[1..]);
      assert s == [s[0]] + s[1..];
      assert Elements(s) == {s[0]} + Elements(s[1..]);
      assert Elements(Insert(x, s)) == {s[0]} + Elements(Insert(x, s[1..]));
    }
  }

  lemma ConsSorts(x: string, s: seq<string>)
    requires ParseVersionDir(x).Some? && NewestFirst(s)
    requires forall j :: 0 <= j < |s| ==> Newer(x, s[j])
    ensures NewestFirst([x] + s)
  {}

  lemma {:induction false} InsertSorts(x: string, s: seq<string>)
    requires ParseVersionDir(x).Some? && NewestFirst(s) && x !in s
    ensures NewestFirst(Insert(x, s))
    ensures Elements(Insert(x, s)) == Elements(s) + {x}
    decreases s, 1
  {
    InsertElements(x, s);
    if s == [] || Newer(x, s[0]) {
      forall j | 0 <= j < |s|
        ensures Newer(x, s[j])
      {
        if j > 0 {
          NewerTransitive(x, s[0], s[j]);
        }
      }
      ConsSorts(x, s);
    } else {
      InsertBehind(x, s);
    }
  }

  lemma InsertBehind(x: string, s: seq<string>)
    requires ParseVersionDir(x).Some? && NewestFirst(s) && x !in s
    requires s != [] && !Newer(x, s[0])
    ensures NewestFirst(Insert(x, s))
    decreases s, 0
  {
    var tail := s[1..];
    NewerTotal(x, s[0]);
    InsertSorts(x, tail);
    var inserted := Insert(x, tail);
    forall j | 0 <= j < |inserted|
      ensures Newer(s[0], inserted[j])
    {
      assert inserted[j] in Elements(inserted);
    }
    ConsSorts(s[0], inserted);
  }

  lemma {:induction false} SortSorts(s: seq<string>)
    requires forall i :: 0 <= i < |s| ==> ParseVersionDir(s[i]).Some?
    requires Distinct(s)
    ensures NewestFirst(SortNewestFirst(s))
    ensures Elements(SortNewestFirst(s)) == Elements(s)
  {
    if s != [] {
      var rest := SortNewestFirst(s[1..]);
      SortSorts(s[1..]);
      assert s == [s[0]] + s[1..];
      assert s[0] !in Elements(rest);
      InsertSorts(s[0], rest);
    }
  }

  lemma NewestFirstIsDistinct(s: seq<string>)
    requires NewestFirst(s)
    ensures Distinct(s)
  {
    forall i, j | 0 <= i < j < |s|
      ensures s[i] != s[j]
    {
      NewerTotal(s[i], s[j]);
    }
  }

  ghost predicate Distinct(s: seq<string>) {
    forall i, j :: 0 <= i < j < |s| ==> s[i] != s[j]
  }

  lemma {:induction false} PrefixSize(s: seq<string>, k: nat)
    requires Distinct(s) && k <= |s|
    ensures |Elements(s[..k])| == k
  {
    if k > 0 {
      PrefixSize(s, k - 1);
      var last := s[k - 1];
      assert s[..k] == s[..k - 1] + [last];
      ElementsSnoc(s[..k - 1], last);
      assert last !in s[..k - 1];
    }
  }

  lemma ElementsSnoc(s: seq<string>, x: string)
    ensures Elements(s + [x]) == Elements(s) + {x}
  {}

  /** In newest-first order the index of a name is its rank. */
  lemma IndexIsRank(s: seq<string>, i: nat)
    requires NewestFirst(s) && i < |s|
    ensures |NewerThan(Elements(s), s[i])| == i
  {
    forall j | 0 <= j < |s|
      ensures Newer(s[j], s[i]) <==> j < i
    {
      NewerTotal(s[j], s[i]);
    }
    assert NewerThan(Elements(s), s[i]) == Elements(s[..i]);
    NewestFirstIsDistinct(s);
    PrefixSize(s, i);
  }

  /** Rank does not depend on directory entries that are no versions. */
  lemma RankIgnoresOthers(installed: set<string>, s: seq<string>, n: string)
    requires ParseVersionDir(n).Some?
    requires Elements(s) == set m | m in installed && ParseVersionDir(m).Some?
    ensures NewerThan(installed, n) == NewerThan(Elements(s), n)
  {}

  // ---- what the rule promises ----

  lemma {:induction false} Listing(names: set<string>) returns (s: seq<string>)
    requires AllNumbered(names)
    ensures NewestFirst(s) && Elements(s) == names
    decreases names
  {
    if names == {} {
      return [];
    }
    var n :| n in names;
    var rest := Listing(names - {n});
    assert n !in Elements(rest);
    InsertSorts(n, rest);
    s := Insert(n, rest);
  }

  /** At most `keep` versions and the live one remain. */
  lemma SurvivorsAreFew(installed: set<string>, keep: nat, live: Option<string>)
    requires AllNumbered(installed)
    ensures |Survivors(installed, keep, live)| <= keep + 1
  {
    var s := Listing(installed);
    var kept := s[..if keep < |s| then keep else |s|];
    var extra := if live.Some? then {live.value} else {};
    forall n | n in Survivors(installed, keep, live)
      ensures n in Elements(kept) + extra
    {
      var i :| 0 <= i < |s| && s[i] == n;
      IndexIsRank(s, i);
      if i < keep {
        assert kept[i] == n;
      }
    }
    NewestFirstIsDistinct(s);
    PrefixSize(s, |kept|);
    assert Survivors(installed, keep, live) <= Elements(kept) + extra;
    SubsetSize(Survivors(installed, keep, live), Elements(kept) + extra);
  }

  lemma SubsetSize<T>(a: set<T>, b: set<T>)
    requires a <= b
    ensures |a| <= |b|
  {
    assert b == a + (b - a);
  }

  /** With the launcher on the newest version and two or more kept, pruning does not
      change what a rollback would pick. */
  lemma PruneKeepsRollback(installed: set<string>, keep: nat, current: string, pick: Option<string>)
    requires DistinctVersions(installed) && keep >= 2
    requires current in installed && ParseVersionDir(current).Some?
    requires NewerThan(installed, current) == {}
    ensures IsRollbackPick(installed, current, pick)
            <==> IsRollbackPick(Survivors(installed, keep, Some(current)), current, pick)
  {
    var left := Survivors(installed, keep, Some(current));
    assert Lower(left, current) <= Lower(installed, current);
    forall p | IsRollbackPick(installed, current, Some(p))
      ensures p in left
    {
      RankIsNumeric(installed, p);
      RankIsNumeric(installed, current);
      assert NewerThan(installed, p) <= {current} by {
        forall m | m in NewerThan(installed, p)
          ensures m == current
        {
          assert m !in NewerThan(installed, current);
          assert m !in Lower(installed, current);
        }
      }
      SubsetSize(NewerThan(installed, p), {current});
    }
    if Lower(installed, current) != {} {
      var top := Greatest(Lower(installed, current));
      assert IsRollbackPick(installed, current, Some(top));
      assert top in Lower(left, current);
    }
  }

  lemma {:induction false} Greatest(names: set<string>) returns (top: string)
    requires AllNumbered(names) && names != {}
    ensures top in names
    ensures forall n :: n in names ==> NumberOf(n) <= NumberOf(top)
    decreases names
  {
    var n :| n in names;
    if names == {n} {
      return n;
    }
    top := Greatest(names - {n});
    if NumberOf(top) < NumberOf(n) {
      top := n;
    }
  }
}
