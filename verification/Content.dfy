/**
 The content pack and the checks of validate_content on which planning relies.
 */
module Content {
  import opened Prelude
  import opened Versioning

  datatype Query = Query(variants: seq<Variant>)

  datatype Metric = Metric(sourceQuery: Option<string>, sourceSampler: Option<string>)

  datatype Item = Item(
    key: string, query: Option<string>, script: Option<string>, metric: Option<string>,
    tags: seq<string>, fallbackItem: Option<string>, fallbackOn: Option<seq<string>>)

  /** A fallback item; `nested` says that it declares a fallback of its own. */
  datatype FallbackItem = FallbackItem(query: Option<string>, script: Option<string>, nested: bool)

  datatype Section = Section(id: string, items: seq<Item>)

  datatype ContentPack = ContentPack(
    supported: seq<string>, queries: map<string, Query>, scripts: set<string>, metrics: map<string, Metric>,
    samplerOutputs: set<string>, sections: seq<Section>, fallbackItems: map<string, FallbackItem>)

  datatype Kind = QueryKind | ScriptKind | MetricKind

  /** One entry of iter_report_items. */
  datatype ReportItem = ReportItem(sectionId: string, itemId: string, item: Item)

  function SectionItems(section: Section, n: nat): seq<ReportItem>
    requires n <= |section.items|
  {
    if n == 0 then []
    else
      SectionItems(section, n - 1)
      + [ReportItem(section.id, section.id + "." + section.items[n - 1].key, section.items[n - 1])]
  }

  function ReportItems(sections: seq<Section>): seq<ReportItem> {
    if sections == [] then []
    else
      ReportItems(sections[..|sections| - 1])
      + SectionItems(sections[|sections| - 1], |sections[|sections| - 1].items|)
  }

  // ---- LTS coverage of the variants ----

  /** The branches that the variants serving a scope list, in order. */
  function Assigned(variants: seq<Variant>, scope: Scope): seq<string> {
    if variants == [] then []
    else
      var last := variants[|variants| - 1];
      Assigned(variants[..|variants| - 1], scope) + if Serves(last, scope) then last.ltsVersions else []
  }

  predicate Declares(variants: seq<Variant>, scope: Scope) {
    exists i :: 0 <= i < |variants| && Serves(variants[i], scope)
  }

  /** One scope: no branch twice, and no supported branch missing if the scope is declared at all. */
  predicate ScopeCovered(variants: seq<Variant>, scope: Scope, supported: seq<string>) {
    && NoDuplicates(Assigned(variants, scope))
    && (Declares(variants, scope) ==> forall b :: b in supported ==> b in Assigned(variants, scope))
  }

  predicate VariantsCover(variants: seq<Variant>, supported: seq<string>) {
    ScopeCovered(variants, Node, supported) && ScopeCovered(variants, Cluster, supported)
  }

  /** The inner loop over the branches of one variant. */
  method AssignBranches(owners: map<string, string>, variant: Variant, ghost before: seq<string>)
    returns (owners': map<string, string>, ok: bool)
    requires owners.Keys == (set b | b in before) && NoDuplicates(before)
    ensures ok <==> NoDuplicates(before + variant.ltsVersions)
    ensures ok ==> owners'.Keys == set b | b in before + variant.ltsVersions
  {
    owners', ok := owners, true;
    assert before + [] == before;
    for i := 0 to |variant.ltsVersions|
      invariant owners'.Keys == set b | b in before + variant.ltsVersions[..i]
      invariant NoDuplicates(before + variant.ltsVersions[..i])
    {
      var branch := variant.ltsVersions[i];
      ghost var sofar := before + variant.ltsVersions[..i];
      assert sofar + [branch] == before + variant.ltsVersions[..i + 1];
      assert before + variant.ltsVersions == sofar + variant.ltsVersions[i..];
      if branch in owners' {
        Repeated(sofar, variant.ltsVersions[i..]);
        return owners', false;
      }
      owners' := owners'[branch := variant.id];
    }
    assert variant.ltsVersions[..|variant.ltsVersions|] == variant.ltsVersions;
  }

  lemma Repeated<T>(s: seq<T>, rest: seq<T>)
    requires rest != [] && rest[0] in s
    ensures !NoDuplicates(s + rest)
  {
    var i :| 0 <= i < |s| && s[i] == rest[0];
    assert (s + rest)[i] == (s + rest)[|s|];
  }

  lemma {:induction false} VariantStep(variants: seq<Variant>, scope: Scope, i: nat)
    requires i < |variants|
    ensures Declares(variants[..i + 1], scope) <==> Declares(variants[..i], scope) || Serves(variants[i], scope)
    ensures Assigned(variants[..i + 1], scope) ==
            if Serves(variants[i], scope) then Assigned(variants[..i], scope) + variants[i].ltsVersions
            else Assigned(variants[..i], scope)
  {
    assert variants[..i + 1][..i] == variants[..i] && variants[..i + 1][i] == variants[i];
    assert Assigned(variants[..i], scope) + [] == Assigned(variants[..i], scope);
  }

  /** The loop over the variants for one scope. */
  method ScopeIsCovered(variants: seq<Variant>, scope: Scope, supported: seq<string>) returns (ok: bool)
    ensures ok <==> ScopeCovered(variants, scope, supported)
  {
    var owners: map<string, string> := map[];
    var declared := false;
    for i := 0 to |variants|
      invariant NoDuplicates(Assigned(variants[..i], scope))
      invariant owners.Keys == set b | b in Assigned(variants[..i], scope)
      invariant declared == Declares(variants[..i], scope)
    {
      var variant := variants[i];
      VariantStep(variants, scope, i);
      AssignedPrefix(variants, scope, i + 1);
      if Serves(variant, scope) {
        declared := true;
        var fits;
        owners, fits := AssignBranches(owners, variant, Assigned(variants[..i], scope));
        if !fits {
          return false;
        }
      }
    }
    assert variants[..|variants|] == variants;
    ok := !declared || forall b :: b in supported ==> b in owners;
  }

  lemma {:induction false} AssignedPrefix(variants: seq<Variant>, scope: Scope, i: nat)
    requires i <= |variants|
    ensures Assigned(variants[..i], scope) <= Assigned(variants, scope)
    ensures NoDuplicates(Assigned(variants, scope)) ==> NoDuplicates(Assigned(variants[..i], scope))
  {
    if i < |variants| {
      var init := variants[..|variants| - 1];
      AssignedPrefix(init, scope, i);
      assert init[..i] == variants[..i];
      assert Assigned(init, scope) <= Assigned(variants, scope);
    } else {
      assert variants[..i] == variants;
    }
  }

  /** _validate_variant_lts; false where it raises. */
  method ValidateVariantLts(variants: seq<Variant>, supported: seq<string>) returns (ok: bool)
    ensures ok <==> VariantsCover(variants, supported)
  {
    ok := ScopeIsCovered(variants, Node, supported);
    if ok {
      ok := ScopeIsCovered(variants, Cluster, supported);
    }
  }

  // ---- what the check guarantees ----

  lemma {:induction false} AssignedMeaning(variants: seq<Variant>, scope: Scope, branch: string)
    ensures branch in Assigned(variants, scope) <==>
              exists i :: 0 <= i < |variants| && Matches(variants[i], branch, scope)
  {
    if variants != [] {
      var n := |variants| - 1;
      AssignedMeaning(variants[..n], scope, branch);
      if i :| 0 <= i < |variants| && Matches(variants[i], branch, scope) {
        if i < n {
          assert Matches(variants[..n][i], branch, scope);
        }
      }
    }
  }

  lemma {:induction false} MatchedTwice(variants: seq<Variant>, scope: Scope, branch: string, i: nat, j: nat)
    requires i < j < |variants|
    requires Matches(variants[i], branch, scope) && Matches(variants[j], branch, scope)
    ensures !NoDuplicates(Assigned(variants, scope))
  {
    var n := |variants| - 1;
    AssignedPrefix(variants, scope, n);
    if j < n {
      MatchedTwice(variants[..n], scope, branch, i, j);
    } else {
      assert Matches(variants[..n][i], branch, scope);
      AssignedMeaning(variants[..n], scope, branch);
      var before := Assigned(variants[..n], scope);
      var p :| 0 <= p < |before| && before[p] == branch;
      var q :| 0 <= q < |variants[n].ltsVersions| && variants[n].ltsVersions[q] == branch;
      assert Assigned(variants, scope)[p] == Assigned(variants, scope)[|before| + q];
    }
  }

  /** Accepted variants: a declared scope has exactly one variant for every branch a version resolves to. */
  lemma {:induction false} CoverGivesOne(variants: seq<Variant>, supported: seq<string>, version: Version, scope: Scope)
    requires AllParse(supported) && ScopeCovered(variants, scope, supported) && Declares(variants, scope)
    requires ResolveLtsBranch(version, supported).Some?
    ensures SelectVariant(variants, version, scope, supported).Ok?
    ensures SelectVariant(variants, version, scope, supported).value.Some?
    ensures exists i: nat :: OnlyMatch(variants, ResolveLtsBranch(version, supported).value, scope, i)
              && SelectVariant(variants, version, scope, supported).value == Some(variants[i])
  {
    var branch := ResolveLtsBranch(version, supported).value;
    AssignedMeaning(variants, scope, branch);
    var i :| 0 <= i < |variants| && Matches(variants[i], branch, scope);
    forall k | 0 <= k < |variants| && k != i
      ensures !Matches(variants[k], branch, scope)
    {
      if Matches(variants[k], branch, scope) {
        if k < i {
          MatchedTwice(variants, scope, branch, k, i);
        } else {
          MatchedTwice(variants, scope, branch, i, k);
        }
      }
    }
    assert OnlyMatch(variants, branch, scope, i);
    MatchingMeaning(variants, branch, scope);
  }

  /** A scope that no variant serves selects nothing. */
  lemma UndeclaredSelectsNothing(variants: seq<Variant>, supported: seq<string>, version: Version, scope: Scope)
    requires AllParse(supported) && !Declares(variants, scope)
    ensures SelectVariant(variants, version, scope, supported) == Ok(None)
  {
    if ResolveLtsBranch(version, supported).Some? {
      MatchingMeaning(variants, ResolveLtsBranch(version, supported).value, scope);
    }
  }

  /** What validate_content requires of each variant before the coverage check. */
  predicate BranchesKnown(variants: seq<Variant>, supported: seq<string>) {
    forall i :: 0 <= i < |variants| ==>
      NoDuplicates(variants[i].ltsVersions) && forall b :: b in variants[i].ltsVersions ==> b in supported
  }

  /** Every version that resolves finds one variant in every declared scope. */
  ghost predicate AlwaysOne(variants: seq<Variant>, supported: seq<string>, scope: Scope)
    requires AllParse(supported)
  {
    Declares(variants, scope) ==>
      forall version :: ResolveLtsBranch(version, supported).Some? ==>
        exists i: nat :: OnlyMatch(variants, ResolveLtsBranch(version, supported).value, scope, i)
  }

  lemma {:induction false} OneMatchNoDuplicates(variants: seq<Variant>, scope: Scope)
    requires forall i :: 0 <= i < |variants| ==> NoDuplicates(variants[i].ltsVersions)
    requires forall b, i, j :: 0 <= i < j < |variants| && Matches(variants[i], b, scope) ==>
               !Matches(variants[j], b, scope)
    ensures NoDuplicates(Assigned(variants, scope))
  {
    if variants != [] {
      var n := |variants| - 1;
      var init := variants[..n];
      OneMatchNoDuplicates(init, scope);
      var before := Assigned(init, scope);
      if Serves(variants[n], scope) {
        forall p, q | 0 <= p < |before| && 0 <= q < |variants[n].ltsVersions|
          ensures before[p] != variants[n].ltsVersions[q]
        {
          AssignedMeaning(init, scope, before[p]);
          var i :| 0 <= i < n && Matches(init[i], before[p], scope);
          assert Matches(variants[i], before[p], scope);
          assert !Matches(variants[n], before[p], scope);
        }
      }
    }
  }

  /**
   The coverage check accepts exactly the variant lists that give one variant to
   every version from the earliest branch on, in every scope they declare.
   */
  lemma VariantCheckExact(variants: seq<Variant>, supported: seq<string>, scope: Scope)
    requires Ascending(supported) && BranchesKnown(variants, supported)
    ensures ScopeCovered(variants, scope, supported) <==> AlwaysOne(variants, supported, scope)
  {
    if ScopeCovered(variants, scope, supported) && Declares(variants, scope) {
      forall version | ResolveLtsBranch(version, supported).Some?
        ensures exists i: nat :: OnlyMatch(variants, ResolveLtsBranch(version, supported).value, scope, i)
      {
        CoverGivesOne(variants, supported, version, scope);
      }
    }
    if AlwaysOne(variants, supported, scope) {
      AlwaysOneCovers(variants, supported, scope);
    }
  }

  lemma AlwaysOneCovers(variants: seq<Variant>, supported: seq<string>, scope: Scope)
    requires Ascending(supported) && BranchesKnown(variants, supported)
    requires AlwaysOne(variants, supported, scope)
    ensures ScopeCovered(variants, scope, supported)
  {
    forall b | b in supported && Declares(variants, scope)
      ensures exists i: nat :: OnlyMatch(variants, b, scope, i)
      ensures b in Assigned(variants, scope)
    {
      BranchResolvesToItself(supported, b);
      var version := ParseLtsBranch(b).value;
      assert ResolveLtsBranch(version, supported) == Some(b);
      AssignedMeaning(variants, scope, b);
    }
    forall b, i, j | 0 <= i < j < |variants| && Matches(variants[i], b, scope)
      ensures !Matches(variants[j], b, scope)
    {
      assert b in variants[i].ltsVersions && b in supported && Declares(variants, scope);
      var k: nat :| OnlyMatch(variants, b, scope, k);
    }
    OneMatchNoDuplicates(variants, scope);
  }
}
