/**
 ClickHouse versions, LTS branches and the choice of a query variant.
 */
module Versioning {
  import opened Prelude

  datatype Version = Version(major: nat, minor: nat, patch: nat, revision: nat)

  predicate Less(a: Version, b: Version) {
    a.major < b.major || (a.major == b.major &&
      (a.minor < b.minor || (a.minor == b.minor &&
        (a.patch < b.patch || (a.patch == b.patch && a.revision < b.revision)))))
  }

  predicate AtMost(a: Version, b: Version) {
    a == b || Less(a, b)
  }

  lemma VersionOrder(a: Version, b: Version, c: Version)
    ensures AtMost(a, b) || AtMost(b, a)
    ensures AtMost(a, b) && AtMost(b, a) ==> a == b
    ensures AtMost(a, b) && AtMost(b, c) ==> AtMost(a, c)
  {
  }

  // ---- branch texts ----

  predicate IsDigit(c: char) {
    '0' <= c <= '9'
  }

  predicate AllDigits(text: string) {
    forall i :: 0 <= i < |text| ==> IsDigit(text[i])
  }

  /** Decimal digits without a superfluous leading zero. */
  predicate IsDecimal(text: string) {
    |text| > 0 && AllDigits(text) && (|text| > 1 ==> text[0] != '0')
  }

  function DecimalValue(text: string): nat
    requires AllDigits(text)
  {
    if text == [] then 0
    else DecimalValue(text[..|text| - 1]) * 10 + (text[|text| - 1] as int - '0' as int)
  }

  function Decimal(n: nat): string {
    if n < 10 then [('0' as int + n) as char] else Decimal(n / 10) + [('0' as int + n % 10) as char]
  }

  lemma {:induction false} DecimalRoundTrip(n: nat)
    ensures IsDecimal(Decimal(n)) && DecimalValue(Decimal(n)) == n
    ensures n > 0 ==> Decimal(n)[0] != '0'
  {
    if n >= 10 {
      DecimalRoundTrip(n / 10);
      var text := Decimal(n);
      assert text[..|text| - 1] == Decimal(n / 10);
    } else {
      assert Decimal(n)[..0] == [];
    }
  }

  function Trim(text: string): string {
    if |text| > 0 && IsSpace(text[0]) then Trim(text[1..])
    else if |text| > 0 && IsSpace(text[|text| - 1]) then Trim(text[..|text| - 1])
    else text
  }

  function DotAt(text: string, i: nat): (at: nat)
    requires i <= |text|
    ensures i <= at <= |text| && (at < |text| ==> text[at] == '.')
    ensures forall k :: i <= k < at ==> text[k] != '.'
    decreases |text| - i
  {
    if i == |text| || text[i] == '.' then i else DotAt(text, i + 1)
  }

  /** parse_lts_branch: an exact major.minor with a positive major, or None where it raises. */
  function ParseLtsBranch(value: string): Option<Version> {
    var text := Trim(value);
    var dot := DotAt(text, 0);
    if dot == |text| then None
    else
      var major, minor := text[..dot], text[dot + 1..];
      if IsDecimal(major) && major[0] != '0' && IsDecimal(minor)
      then Some(Version(DecimalValue(major), DecimalValue(minor), 0, 0)) else None
  }

  /** ClickHouseVersion.branch */
  function Branch(v: Version): string {
    Decimal(v.major) + "." + Decimal(v.minor)
  }

  /** The branch text of a version parses back to its major and minor numbers. */
  lemma BranchRoundTrip(v: Version)
    requires v.major > 0
    ensures ParseLtsBranch(Branch(v)) == Some(Version(v.major, v.minor, 0, 0))
  {
    var major, minor := Decimal(v.major), Decimal(v.minor);
    DecimalRoundTrip(v.major);
    DecimalRoundTrip(v.minor);
    var text := major + "." + minor;
    assert text[0] == major[0] && text[|text| - 1] == minor[|minor| - 1];
    assert Trim(text) == text;
    assert forall k :: 0 <= k < |major| ==> text[k] == major[k];
    assert text[|major|] == '.';
    assert DotAt(text, 0) == |major|;
    assert text[..|major|] == major && text[|major| + 1..] == minor;
  }

  lemma {:induction false} DecimalOfValue(text: string)
    requires IsDecimal(text)
    ensures Decimal(DecimalValue(text)) == text
    ensures |text| > 1 || text[0] != '0' ==> DecimalValue(text) > 0
  {
    var n := |text| - 1;
    var init := text[..n];
    assert text == init + [text[n]];
    if n > 0 {
      assert init[0] == text[0];
      DecimalOfValue(init);
    } else {
      assert DecimalValue(init) == 0;
    }
  }

  /** A branch is accepted exactly when, trimmed, it is the text of a branch with a positive major number. */
  lemma {:induction false} ParseExactly(value: string, v: Version)
    ensures ParseLtsBranch(value) == Some(v) <==>
              v.major > 0 && v.patch == 0 && v.revision == 0 && Trim(value) == Branch(v)
  {
    if ParseLtsBranch(value) == Some(v) {
      var text := Trim(value);
      var dot := DotAt(text, 0);
      DecimalOfValue(text[..dot]);
      DecimalOfValue(text[dot + 1..]);
      assert text == text[..dot] + "." + text[dot + 1..];
    }
    if v.major > 0 && Trim(value) == Branch(v) {
      BranchRoundTrip(v);
      BranchIsTrimmed(v);
    }
  }

  lemma BranchIsTrimmed(v: Version)
    requires v.major > 0
    ensures Trim(Branch(v)) == Branch(v)
  {
    DecimalRoundTrip(v.major);
    DecimalRoundTrip(v.minor);
    var text := Branch(v);
    assert text[0] == Decimal(v.major)[0] && text[|text| - 1] == Decimal(v.minor)[|Decimal(v.minor)| - 1];
  }

  // ---- resolution ----

  predicate AllParse(supported: seq<string>) {
    forall i :: 0 <= i < |supported| ==> ParseLtsBranch(supported[i]).Some?
  }

  /**
   resolve_lts_branch: the first greatest branch not above the version.  A
   branch that does not parse makes the original raise.
   */
  function ResolveLtsBranch(version: Version, supported: seq<string>): (branch: Option<string>)
    requires AllParse(supported)
    ensures branch.Some? ==> branch.value in supported && AtMost(ParseLtsBranch(branch.value).value, version)
    ensures forall b :: b in supported && AtMost(ParseLtsBranch(b).value, version) ==>
              branch.Some? && AtMost(ParseLtsBranch(b).value, ParseLtsBranch(branch.value).value)
  {
    if supported == [] then None
    else
      var last := supported[|supported| - 1];
      var best := ResolveLtsBranch(version, supported[..|supported| - 1]);
      if AtMost(ParseLtsBranch(last).value, version)
         && (best.None? || Less(ParseLtsBranch(best.value).value, ParseLtsBranch(last).value))
      then Some(last) else best
  }

  /** The branches are in ascending order, without two that parse alike. */
  ghost predicate Ascending(supported: seq<string>) {
    AllParse(supported) &&
    forall i, j :: 0 <= i < j < |supported| ==>
      Less(ParseLtsBranch(supported[i]).value, ParseLtsBranch(supported[j]).value)
  }

  /** A supported branch resolves to itself. */
  lemma {:induction false} BranchResolvesToItself(supported: seq<string>, branch: string)
    requires Ascending(supported) && branch in supported
    ensures ResolveLtsBranch(ParseLtsBranch(branch).value, supported) == Some(branch)
  {
    var version := ParseLtsBranch(branch).value;
    var found := ResolveLtsBranch(version, supported);
    assert AtMost(version, version);
    VersionOrder(version, ParseLtsBranch(found.value).value, version);
    var i :| 0 <= i < |supported| && supported[i] == branch;
    var j :| 0 <= j < |supported| && supported[j] == found.value;
    assert i == j;
  }

  // ---- variants ----

  datatype Scope = Node | Cluster

  datatype Variant = Variant(id: string, sqlFile: string, ltsVersions: seq<string>, scopes: seq<Scope>)

  /** A variant without scopes serves both. */
  predicate Serves(v: Variant, scope: Scope) {
    v.scopes == [] || scope in v.scopes
  }

  predicate Matches(v: Variant, branch: string, scope: Scope) {
    branch in v.ltsVersions && Serves(v, scope)
  }

  function Matching(variants: seq<Variant>, branch: string, scope: Scope): seq<Variant> {
    if variants == [] then []
    else
      Matching(variants[..|variants| - 1], branch, scope)
      + if Matches(variants[|variants| - 1], branch, scope) then [variants[|variants| - 1]] else []
  }

  datatype SelectError = Overlapping

  /** select_variant, given the supported branches. */
  function SelectVariant(variants: seq<Variant>, version: Version, scope: Scope, supported: seq<string>)
    : Result<Option<Variant>, SelectError>
    requires AllParse(supported)
  {
    match ResolveLtsBranch(version, supported)
    case None => Ok(None)
    case Some(branch) =>
      var matches := Matching(variants, branch, scope);
      if |matches| > 1 then Err(Overlapping)
      else if |matches| == 1 then Ok(Some(matches[0]))
      else Ok(None)
  }

  /** Variant i is the only one that matches. */
  ghost predicate OnlyMatch(variants: seq<Variant>, branch: string, scope: Scope, i: nat) {
    && i < |variants| && Matches(variants[i], branch, scope)
    && forall k :: 0 <= k < |variants| && k != i ==> !Matches(variants[k], branch, scope)
  }

  lemma LastMatches(variants: seq<Variant>, branch: string, scope: Scope, i: nat)
    requires variants != [] && Matches(variants[|variants| - 1], branch, scope)
    ensures OnlyMatch(variants, branch, scope, i) <==>
              i == |variants| - 1 && forall k :: 0 <= k < |variants| - 1 ==> !Matches(variants[k], branch, scope)
  {
    var n := |variants| - 1;
    assert OnlyMatch(variants, branch, scope, i) ==> i == n;
  }

  lemma {:induction false} MatchingMeaning(variants: seq<Variant>, branch: string, scope: Scope)
    ensures |Matching(variants, branch, scope)| == 0 <==>
              forall i :: 0 <= i < |variants| ==> !Matches(variants[i], branch, scope)
    ensures |Matching(variants, branch, scope)| == 1 <==> exists i: nat :: OnlyMatch(variants, branch, scope, i)
    ensures forall i: nat :: OnlyMatch(variants, branch, scope, i) ==>
              Matching(variants, branch, scope) == [variants[i]]
  {
    if variants != [] {
      var n := |variants| - 1;
      var init := variants[..n];
      MatchingMeaning(init, branch, scope);
      if Matches(variants[n], branch, scope) {
        forall i: nat
          ensures OnlyMatch(variants, branch, scope, i) <==> i == n && |Matching(init, branch, scope)| == 0
        {
          LastMatches(variants, branch, scope, i);
        }
        if |Matching(init, branch, scope)| == 0 {
          assert OnlyMatch(variants, branch, scope, n);
        }
      } else {
        forall i: nat
          ensures OnlyMatch(variants, branch, scope, i) <==> OnlyMatch(init, branch, scope, i)
        {
        }
      }
    }
  }

  // ---- the order of the fields ----

  function Fields(v: Version): seq<nat> {
    [v.major, v.minor, v.patch, v.revision]
  }

  predicate DiffersFirst(a: seq<nat>, b: seq<nat>, k: nat) {
    k < |a| == |b| && a[..k] == b[..k] && a[k] < b[k]
  }

  /** The first field in which two versions differ decides their order. */
  lemma FirstDifferenceDecides(a: Version, b: Version)
    ensures Less(a, b) <==> exists k: nat :: DiffersFirst(Fields(a), Fields(b), k)
  {
    var x, y := Fields(a), Fields(b);
    if Less(a, b) {
      var k := if a.major < b.major then 0 else if a.minor < b.minor then 1 else if a.patch < b.patch then 2 else 3;
      assert DiffersFirst(x, y, k);
    }
    if k: nat :| DiffersFirst(x, y, k) {
      assert k > 0 ==> x[..k][0] == y[..k][0];
      assert k > 1 ==> x[..k][1] == y[..k][1];
      assert k > 2 ==> x[..k][2] == y[..k][2];
    }
  }
}
