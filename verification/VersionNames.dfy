/** Version-directory names of src/managed_install.rs: the strict MAJOR.MINOR.PATCH
    parser, the order prune and rollback use, and the canonical spelling of a version. */
module VersionNames {
  import opened Options
  import opened Strings

  const U64_MAX: nat := 0xFFFF_FFFF_FFFF_FFFF

  type u64 = n: nat | n <= U64_MAX

  datatype Version = Version(major: u64, minor: u64, patch: u64)

  /** `str::parse::<u64>`: an optional plus sign, then digits, without overflow. */
  function ParseU64(s: string): Option<u64> {
    var digits := if s != "" && s[0] == '+' then s[1..] else s;
    if digits == "" || exists c :: c in digits && !IsDigit(c) then None
    else if DigitsValue(digits) > U64_MAX then None
    else Some(DigitsValue(digits))
  }

  function ParseVersionDir(name: string): Option<Version> {
    var parts := Split(name, '.');
    if |parts| != 3 then None
    else
      match (ParseU64(parts[0]), ParseU64(parts[1]), ParseU64(parts[2]))
      case (Some(major), Some(minor), Some(patch)) => Some(Version(major, minor, patch))
      case _ => None
  }

  predicate VersionLess(a: Version, b: Version) {
    || a.major < b.major
    || (a.major == b.major && a.minor < b.minor)
    || (a.major == b.major && a.minor == b.minor && a.patch < b.patch)
  }

  /** The number whose digits to base 2^64 are the three parts. */
  function Code(v: Version): nat {
    (v.major * (U64_MAX + 1) + v.minor) * (U64_MAX + 1) + v.patch
  }

  /** The number of the version a directory name spells. */
  function NumberOf(name: string): nat
    requires ParseVersionDir(name).Some?
  {
    Code(ParseVersionDir(name).value)
  }

  /** The order of versions is the order of their numbers, and no two have the same. */
  lemma VersionLessIsNumeric(a: Version, b: Version)
    ensures VersionLess(a, b) <==> Code(a) < Code(b)
    ensures Code(a) == Code(b) ==> a == b
  {
    assert a.major < b.major ==> (a.major + 1) * (U64_MAX + 1) <= b.major * (U64_MAX + 1);
  }

  /** The tuple order of prune: the version, then the name itself. */
  predicate Newer(a: string, b: string)
    requires ParseVersionDir(a).Some? && ParseVersionDir(b).Some?
  {
    var va, vb := ParseVersionDir(a).value, ParseVersionDir(b).value;
    VersionLess(vb, va) || (va == vb && StrLess(b, a))
  }

  /** Newer is the larger number, and between two spellings of one the later name. */
  lemma NewerIsNumeric(a: string, b: string)
    requires ParseVersionDir(a).Some? && ParseVersionDir(b).Some?
    ensures Newer(a, b) <==> NumberOf(b) < NumberOf(a)
                             || (NumberOf(a) == NumberOf(b) && exists i: nat :: SmallerAt(b, a, i))
  {
    VersionLessIsNumeric(ParseVersionDir(b).value, ParseVersionDir(a).value);
    StrLessIsLexicographic(b, a);
  }

  lemma NewerTotal(a: string, b: string)
    requires ParseVersionDir(a).Some? && ParseVersionDir(b).Some?
    ensures Newer(a, b) || a == b || Newer(b, a)
    ensures !(Newer(a, b) && Newer(b, a)) && !Newer(a, a)
  {
    StrLessTotal(a, b);
    StrLessTotal(a, a);
  }

  lemma NewerTransitive(a: string, b: string, c: string)
    requires ParseVersionDir(a).Some? && ParseVersionDir(b).Some? && ParseVersionDir(c).Some?
    requires Newer(a, b) && Newer(b, c)
    ensures Newer(a, c)
  {
    var va, vb, vc := ParseVersionDir(a).value, ParseVersionDir(b).value, ParseVersionDir(c).value;
    if va == vb == vc {
      StrLessTransitive(c, b, a);
    }
  }

  // ---- the canonical spelling ----

  function Render(v: Version): string {
    Join([Digits(v.major), Digits(v.minor), Digits(v.patch)], '.')
  }

  predicate Canonical(name: string) {
    ParseVersionDir(name).Some? && Render(ParseVersionDir(name).value) == name
  }

  lemma ParseDigits(n: u64)
    ensures ParseU64(Digits(n)) == ParseU64("+" + Digits(n)) == Some(n)
    ensures '.' !in Digits(n)
  {
    DigitsRoundTrip(n);
    DigitsParse(Digits(n));
  }

  /** Every version has exactly one canonical directory name, and it parses back. */
  lemma RenderRoundTrip(v: Version)
    ensures ParseVersionDir(Render(v)) == Some(v) && Canonical(Render(v))
  {
    ParseDigits(v.major);
    ParseDigits(v.minor);
    ParseDigits(v.patch);
    SplitJoin([Digits(v.major), Digits(v.minor), Digits(v.patch)], '.');
  }

  /** The spellings of a number that `str::parse` accepts: a plus sign or none, any number
      of zeros, the numeral. */
  ghost predicate Spells(s: string, n: nat) {
    exists k: nat :: s == Zeros(k) + Digits(n) || s == "+" + (Zeros(k) + Digits(n))
  }

  lemma ParsesSpellings(s: string, n: u64)
    ensures ParseU64(s) == Some(n) <==> Spells(s, n)
    ensures Spells(s, n) ==> '.' !in s
  {
    if ParseU64(s) == Some(n) {
      ParsedIsSpelled(s);
    }
    if Spells(s, n) {
      var k: nat :| s == Zeros(k) + Digits(n) || s == "+" + (Zeros(k) + Digits(n));
      ZerosAreDigits(k, Digits(n));
      DigitsRoundTrip(n);
      DigitsParse(Zeros(k) + Digits(n));
    }
  }

  lemma {:induction false} ParsedIsSpelled(s: string)
    requires ParseU64(s).Some?
    ensures Spells(s, ParseU64(s).value)
  {
    var digits := if s[0] == '+' then s[1..] else s;
    var k := NumeralBehindZeros(digits);
    assert s == digits || s == "+" + digits;
  }

  lemma {:induction false} DigitsParse(digits: string)
    requires digits != "" && forall c :: c in digits ==> IsDigit(c)
    requires DigitsValue(digits) <= U64_MAX
    ensures ParseU64(digits) == ParseU64("+" + digits) == Some(DigitsValue(digits))
    ensures '.' !in digits && '.' !in "+" + digits
  {
    assert digits[0] in digits;
    assert ("+" + digits)[1..] == digits;
  }

  /** A directory name is a version exactly when it is three spelled u64 numbers with
      dots between them; nothing with a suffix, a missing or a further part is. */
  lemma ParsesExactly(name: string, v: Version)
    ensures ParseVersionDir(name) == Some(v) <==>
            exists a, b, c :: name == a + "." + b + "." + c
                              && Spells(a, v.major) && Spells(b, v.minor) && Spells(c, v.patch)
  {
    var parts := Split(name, '.');
    if ParseVersionDir(name) == Some(v) {
      ParsesSpellings(parts[0], v.major);
      ParsesSpellings(parts[1], v.minor);
      ParsesSpellings(parts[2], v.patch);
      JoinSplit(name, '.');
      JoinThree(parts);
    }
    forall a, b, c | name == a + "." + b + "." + c
                     && Spells(a, v.major) && Spells(b, v.minor) && Spells(c, v.patch)
      ensures ParseVersionDir(name) == Some(v)
    {
      ParsesSpellings(a, v.major);
      ParsesSpellings(b, v.minor);
      ParsesSpellings(c, v.patch);
      JoinThree([a, b, c]);
      SplitJoin([a, b, c], '.');
    }
  }

  lemma JoinThree(parts: seq<string>)
    requires |parts| == 3
    ensures Join(parts, '.') == parts[0] + "." + parts[1] + "." + parts[2]
  {
    assert parts[1..][1..] == [parts[2]];
    assert Join(parts[1..], '.') == parts[1] + ['.'] + parts[2];
  }

  /** Other spellings parse too, so equal versions need not have equal names. */
  lemma SpellingsCollide(v: Version)
    ensures ParseVersionDir("+" + Render(v)) == Some(v)
    ensures !Canonical("+" + Render(v))
  {
    var d := [Digits(v.major), Digits(v.minor), Digits(v.patch)];
    var signed := d[0 := "+" + d[0]];
    ParseDigits(v.major);
    ParseDigits(v.minor);
    ParseDigits(v.patch);
    assert Join(signed[1..], '.') == Join(d[1..], '.') by { assert signed[1..] == d[1..]; }
    assert Join(signed, '.') == "+" + Render(v);
    SplitJoin(signed, '.');
    assert |"+" + Render(v)| == 1 + |Render(v)|;
  }

  /** A name that parses is a single ordinary path component. */
  lemma {:induction false} ParsedNameIsComponent(name: string)
    requires ParseVersionDir(name).Some?
    ensures name != "" && '/' !in name && name != "." && name != ".."
  {
    if '/' in name {
      SlashIsNoVersion(name);
    }
    DotsAreNoVersion();
  }

  lemma {:induction false} SlashIsNoVersion(name: string)
    requires '/' in name
    ensures ParseVersionDir(name).None?
  {
    PartHoldsChar(name, '.', '/');
    forall part | part in Split(name, '.')
      ensures ParseU64(part).Some? ==> '/' !in part
    {
      ParsedHasNoSlash(part);
    }
  }

  lemma DotsAreNoVersion()
    ensures ParseVersionDir("").None? && ParseVersionDir(".").None? && ParseVersionDir("..").None?
  {
    assert Split("", '.') == [""];
    SplitAt("", "", '.');
    assert "." == "" + ['.'] + "";
    SplitAt(".", "", '.');
    assert ".." == "." + ['.'] + "";
  }

  lemma {:induction false} ParsedHasNoSlash(s: string)
    ensures ParseU64(s).Some? ==> '/' !in s
  {
    if '/' in s {
      var digits := if s[0] == '+' then s[1..] else s;
      var i :| 0 <= i < |s| && s[i] == '/';
      assert digits[if s[0] == '+' then i - 1 else i] == '/';
      assert !IsDigit('/');
    }
  }

  lemma {:induction false} PartHoldsChar(s: string, sep: char, c: char)
    requires c in s && c != sep
    ensures exists i :: 0 <= i < |Split(s, sep)| && c in Split(s, sep)[i]
  {
    var parts, rest := Split(s, sep), Split(s[1..], sep);
    if s[0] == c {
      assert c in parts[0];
    } else {
      PartHoldsChar(s[1..], sep, c);
      var i :| 0 <= i < |rest| && c in rest[i];
      if s[0] == sep {
        assert c in parts[i + 1];
      } else {
        assert c in parts[i];
      }
    }
  }
}
