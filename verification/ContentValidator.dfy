/** The remaining checks of validate_content that planning relies on. */
module ContentValidator {
  import opened Prelude
  import opened Versioning
  import opened Content

  const QUERY_TRIGGERS: set<string> := {
    "query_timeout", "transport_disconnect", "permission_denied", "unsupported_capability",
    "read_limit", "result_limit", "query_canceled"
  }

  const SCRIPT_TRIGGERS: set<string> := {"shell_timeout"}

  // ---- one item ----

  /** next(key for key in (query, script, metric) if item has it) */
  function KindOf(item: Item): Option<Kind> {
    if item.query.Some? then Some(QueryKind)
    else if item.script.Some? then Some(ScriptKind)
    else if item.metric.Some? then Some(MetricKind)
    else None
  }

  function SourceOf(item: Item): string
    requires KindOf(item).Some?
  {
    if item.query.Some? then item.query.value
    else if item.script.Some? then item.script.value
    else item.metric.value
  }

  function SourceCount(item: Item): nat {
    (if item.query.Some? then 1 else 0) + (if item.script.Some? then 1 else 0) + (if item.metric.Some? then 1 else 0)
  }

  /** Exactly one source, and it is in its catalogue. */
  predicate SourceOk(content: ContentPack, item: Item) {
    && SourceCount(item) == 1
    && match KindOf(item).value
       case QueryKind => SourceOf(item) in content.queries
       case ScriptKind => SourceOf(item) in content.scripts
       case MetricKind => SourceOf(item) in content.metrics
  }

  function Scopes(query: Query): (scopes: set<Scope>)
    ensures forall scope :: scope in scopes <==> Declares(query.variants, scope)
  {
    set scope: Scope | Declares(query.variants, scope)
  }

  /** [key for key in (query, script) if the definition has it] == [kind] */
  predicate HasOnly(definition: FallbackItem, kind: Kind) {
    match kind
    case QueryKind => definition.query.Some? && definition.script.None?
    case ScriptKind => definition.query.None? && definition.script.Some?
    case MetricKind => false
  }

  predicate FallbackOk(content: ContentPack, item: Item) {
    if item.fallbackItem.None? then item.fallbackOn.None?
    else
      && item.fallbackItem.value in content.fallbackItems
      && item.fallbackOn.Some? && item.fallbackOn.value != [] && NoDuplicates(item.fallbackOn.value)
      && KindOf(item).Some? && HasOnly(content.fallbackItems[item.fallbackItem.value], KindOf(item).value)
      && (forall t :: t in item.fallbackOn.value ==>
            t in if KindOf(item) == Some(QueryKind) then QUERY_TRIGGERS else SCRIPT_TRIGGERS)
      && (KindOf(item) == Some(QueryKind) && SourceOf(item) in content.queries ==>
            var fallback := content.fallbackItems[item.fallbackItem.value].query.value;
            fallback in content.queries ==>
              Scopes(content.queries[SourceOf(item)]) <= Scopes(content.queries[fallback]))
  }

  // ---- whole lists ----

  predicate DistinctIds(items: seq<ReportItem>) {
    forall i, j :: 0 <= i < j < |items| ==> items[i].itemId != items[j].itemId
  }

  predicate ItemsOk(content: ContentPack, items: seq<ReportItem>) {
    && DistinctIds(items)
    && forall i :: 0 <= i < |items| ==> SourceOk(content, items[i].item) && FallbackOk(content, items[i].item)
  }

  predicate FallbackItemOk(content: ContentPack, id: string, definition: FallbackItem, seen: set<string>) {
    && id !in seen && "fallback." <= id
    && (definition.query.Some? <==> definition.script.None?) && !definition.nested
    && (definition.query.Some? ==> definition.query.value in content.queries)
    && (definition.script.Some? ==> definition.script.value in content.scripts)
  }

  predicate QueryOk(query: Query, supported: seq<string>) {
    && query.variants != []
    && (forall i :: 0 <= i < |query.variants| ==>
          query.variants[i].id != "" && query.variants[i].sqlFile != "" && query.variants[i].ltsVersions != [])
    && BranchesKnown(query.variants, supported)
    && VariantsCover(query.variants, supported)
  }

  predicate MetricOk(content: ContentPack, metric: Metric) {
    && (metric.sourceQuery.Some? <==> metric.sourceSampler.None?)
    && (metric.sourceQuery.Some? ==> metric.sourceQuery.value in content.queries)
    && (metric.sourceSampler.Some? ==> metric.sourceSampler.value in content.samplerOutputs)
  }

  /** The supported branches parse and do not descend. */
  predicate SupportedOk(supported: seq<string>) {
    && supported != [] && NoDuplicates(supported) && AllParse(supported)
    && forall i :: 0 <= i < |supported| - 1 ==>
         AtMost(ParseLtsBranch(supported[i]).value, ParseLtsBranch(supported[i + 1]).value)
  }

  function Ids(items: seq<ReportItem>): set<string> {
    set i | 0 <= i < |items| :: items[i].itemId
  }

  predicate ContentOk(content: ContentPack) {
    && SupportedOk(content.supported)
    && ItemsOk(content, ReportItems(content.sections))
    && (forall id :: id in content.fallbackItems ==>
          FallbackItemOk(content, id, content.fallbackItems[id], Ids(ReportItems(content.sections))))
    && (forall id :: id in content.queries ==> QueryOk(content.queries[id], content.supported))
    && (forall id :: id in content.metrics ==> MetricOk(content, content.metrics[id]))
  }

  // ---- the validator ----

  /** The loop over the report items. */
  method ValidateItems(content: ContentPack, items: seq<ReportItem>) returns (seen: set<string>, ok: bool)
    ensures ok <==> ItemsOk(content, items)
    ensures ok ==> seen == Ids(items)
  {
    seen := {};
    for i := 0 to |items|
      invariant seen == Ids(items[..i])
      invariant ItemsOk(content, items[..i])
    {
      assert items[..i + 1] == items[..i] + [items[i]];
      if items[i].itemId in seen {
        var j :| 0 <= j < i && items[..i][j].itemId == items[i].itemId;
        assert items[j].itemId == items[i].itemId;
        return seen, false;
      }
      if !SourceOk(content, items[i].item) || !FallbackOk(content, items[i].item) {
        return seen, false;
      }
      seen := seen + {items[i].itemId};
    }
    assert items[..|items|] == items;
    ok := true;
  }

  method ValidateFallbackItems(content: ContentPack, seen: set<string>) returns (ok: bool)
    ensures ok <==> forall id :: id in content.fallbackItems ==>
                      FallbackItemOk(content, id, content.fallbackItems[id], seen)
  {
    var rest := content.fallbackItems.Keys;
    while rest != {}
      invariant rest <= content.fallbackItems.Keys
      invariant forall id :: id in content.fallbackItems && id !in rest ==>
                  FallbackItemOk(content, id, content.fallbackItems[id], seen)
      decreases |rest|
    {
      var id := Pick(rest);
      if !FallbackItemOk(content, id, content.fallbackItems[id], seen) {
        return false;
      }
      rest := rest - {id};
    }
    ok := true;
  }

  method ValidateQuery(query: Query, supported: seq<string>) returns (ok: bool)
    ensures ok <==> QueryOk(query, supported)
  {
    if query.variants == [] {
      return false;
    }
    for i := 0 to |query.variants|
      invariant forall j :: 0 <= j < i ==>
                  query.variants[j].id != "" && query.variants[j].sqlFile != "" && query.variants[j].ltsVersions != []
      invariant BranchesKnown(query.variants[..i], supported)
    {
      var variant := query.variants[i];
      assert query.variants[..i + 1] == query.variants[..i] + [variant];
      if variant.id == "" || variant.sqlFile == "" || variant.ltsVersions == [] {
        return false;
      }
      if !NoDuplicates(variant.ltsVersions) || exists b :: b in variant.ltsVersions && b !in supported {
        return false;
      }
    }
    assert query.variants[..|query.variants|] == query.variants;
    ok := ValidateVariantLts(query.variants, supported);
  }

  method ValidateQueries(content: ContentPack) returns (ok: bool)
    ensures ok <==> forall id :: id in content.queries ==> QueryOk(content.queries[id], content.supported)
  {
    var rest := content.queries.Keys;
    while rest != {}
      invariant rest <= content.queries.Keys
      invariant forall id :: id in content.queries && id !in rest ==> QueryOk(content.queries[id], content.supported)
      decreases |rest|
    {
      var id := Pick(rest);
      var fits := ValidateQuery(content.queries[id], content.supported);
      if !fits {
        return false;
      }
      rest := rest - {id};
    }
    ok := true;
  }

  /** validate_content, reduced to the checks above; false where it raises. */
  method ValidateContent(content: ContentPack) returns (ok: bool)
    ensures ok <==> ContentOk(content)
  {
    if !SupportedOk(content.supported) {
      return false;
    }
    var seen, itemsOk := ValidateItems(content, ReportItems(content.sections));
    if !itemsOk {
      return false;
    }
    var fallbacksOk := ValidateFallbackItems(content, seen);
    if !fallbacksOk {
      return false;
    }
    var queriesOk := ValidateQueries(content);
    if !queriesOk {
      return false;
    }
    ok := forall id :: id in content.metrics ==> MetricOk(content, content.metrics[id]);
  }

  // ---- soundness ----

  lemma {:induction false} SupportedAscend(supported: seq<string>, i: nat)
    requires SupportedOk(supported) && i < |supported|
    ensures AtMost(ParseLtsBranch(supported[0]).value, ParseLtsBranch(supported[i]).value)
  {
    if i > 0 {
      SupportedAscend(supported, i - 1);
      VersionOrder(ParseLtsBranch(supported[0]).value, ParseLtsBranch(supported[i - 1]).value,
                   ParseLtsBranch(supported[i]).value);
    }
  }

  /** A version resolves exactly when it is not older than the first supported branch. */
  lemma {:induction false} ResolvesFromEarliest(supported: seq<string>, version: Version)
    requires SupportedOk(supported)
    ensures ResolveLtsBranch(version, supported).Some? <==>
              AtMost(ParseLtsBranch(supported[0]).value, version)
  {
    var found := ResolveLtsBranch(version, supported);
    if found.Some? {
      var i :| 0 <= i < |supported| && supported[i] == found.value;
      SupportedAscend(supported, i);
      VersionOrder(ParseLtsBranch(supported[0]).value, ParseLtsBranch(supported[i]).value, version);
    }
  }

  /**
   If content validation accepts, variant selection never raises, and from the
   earliest LTS branch on it returns one variant in exactly the declared scopes.
   */
  lemma ValidatorSound(content: ContentPack, queryId: string, version: Version, scope: Scope)
    requires ContentOk(content) && queryId in content.queries
    ensures SelectVariant(content.queries[queryId].variants, version, scope, content.supported).Ok?
    ensures SelectVariant(content.queries[queryId].variants, version, scope, content.supported).value.Some? <==>
              (scope in Scopes(content.queries[queryId])
               && AtMost(ParseLtsBranch(content.supported[0]).value, version))
  {
    var variants := content.queries[queryId].variants;
    assert QueryOk(content.queries[queryId], content.supported);
    ResolvesFromEarliest(content.supported, version);
    if ResolveLtsBranch(version, content.supported).Some? {
      if Declares(variants, scope) {
        CoverGivesOne(variants, content.supported, version, scope);
      } else {
        UndeclaredSelectsNothing(variants, content.supported, version, scope);
      }
    }
  }

  /** What accepted content says of its metrics, its query variants and its fallbacks. */
  lemma ContentGuarantees(content: ContentPack, r: ReportItem)
    requires ContentOk(content) && r in ReportItems(content.sections)
    ensures forall id :: id in content.metrics ==>
              var m := content.metrics[id];
              && (m.sourceQuery.Some? <==> m.sourceSampler.None?)
              && (m.sourceQuery.Some? ==> m.sourceQuery.value in content.queries)
              && (m.sourceSampler.Some? ==> m.sourceSampler.value in content.samplerOutputs)
    ensures forall id, v :: id in content.queries && v in content.queries[id].variants ==>
              v.id != "" && v.sqlFile != "" && v.ltsVersions != [] && NoDuplicates(v.ltsVersions)
              && forall b :: b in v.ltsVersions ==> b in content.supported
    ensures forall id :: id in content.fallbackItems ==>
              var f := content.fallbackItems[id];
              id != r.itemId && "fallback." <= id && !f.nested && (f.query.Some? <==> f.script.None?)
    ensures r.item.fallbackItem.Some? ==>
              && r.item.fallbackItem.value in content.fallbackItems && r.item.fallbackOn.Some?
              && r.item.fallbackOn.value != [] && NoDuplicates(r.item.fallbackOn.value)
              && r.item.metric.None?
              && forall t :: t in r.item.fallbackOn.value ==>
                   t in (if r.item.query.Some? then
                           ["query_timeout", "transport_disconnect", "permission_denied", "unsupported_capability",
                            "read_limit", "result_limit", "query_canceled"]
                         else ["shell_timeout"])
  {
    var items := ReportItems(content.sections);
    var i :| 0 <= i < |items| && items[i] == r;
    assert SourceOk(content, r.item) && FallbackOk(content, r.item);
    assert r.itemId in Ids(items);
    forall id, v | id in content.queries && v in content.queries[id].variants
      ensures v.id != "" && v.sqlFile != "" && v.ltsVersions != [] && NoDuplicates(v.ltsVersions)
      ensures forall b :: b in v.ltsVersions ==> b in content.supported
    {
      var k :| 0 <= k < |content.queries[id].variants| && content.queries[id].variants[k] == v;
      assert QueryOk(content.queries[id], content.supported);
    }
    forall id | id in content.fallbackItems
      ensures FallbackItemOk(content, id, content.fallbackItems[id], Ids(items))
    {
    }
  }

  // ---- when the coverage check is exact ----

  /** No branch is spelled in two ways. */
  ghost predicate SpelledOnce(supported: seq<string>)
    requires AllParse(supported)
  {
    forall i, j :: 0 <= i < j < |supported| ==> ParseLtsBranch(supported[i]) != ParseLtsBranch(supported[j])
  }

  lemma {:induction false} NeverDescends(supported: seq<string>, i: nat, j: nat)
    requires SupportedOk(supported) && i <= j < |supported|
    ensures AtMost(ParseLtsBranch(supported[i]).value, ParseLtsBranch(supported[j]).value)
  {
    if i < j {
      NeverDescends(supported, i, j - 1);
      VersionOrder(ParseLtsBranch(supported[i]).value, ParseLtsBranch(supported[j - 1]).value,
                   ParseLtsBranch(supported[j]).value);
    }
  }

  lemma SpelledOnceAscends(supported: seq<string>)
    requires SupportedOk(supported) && SpelledOnce(supported)
    ensures Ascending(supported)
  {
    forall i, j | 0 <= i < j < |supported|
      ensures Less(ParseLtsBranch(supported[i]).value, ParseLtsBranch(supported[j]).value)
    {
      NeverDescends(supported, i, j);
    }
  }

  /** Of two spellings of one branch only the first is ever resolved to. */
  lemma {:induction false} FirstSpellingWins(version: Version, supported: seq<string>, i: nat, j: nat)
    requires AllParse(supported) && NoDuplicates(supported) && i < j < |supported|
    requires ParseLtsBranch(supported[i]) == ParseLtsBranch(supported[j])
    ensures ResolveLtsBranch(version, supported) != Some(supported[j])
  {
    var init, last := supported[..|supported| - 1], supported[|supported| - 1];
    var best := ResolveLtsBranch(version, init);
    if j < |init| {
      FirstSpellingWins(version, init, i, j);
      assert init[j] != last;
    } else {
      assert init[i] in init;
      if best.Some? {
        var k :| 0 <= k < |init| && init[k] == best.value;
        assert init[k] != last;
        VersionOrder(ParseLtsBranch(last).value, ParseLtsBranch(best.value).value, ParseLtsBranch(last).value);
      }
    }
  }

  /** One variant for everything but the second spelling. */
  function AllBut(supported: seq<string>, j: nat): (variants: seq<Variant>)
    requires j < |supported|
  {
    [Variant("variant", "query.sql", supported[..j] + supported[j + 1..], [])]
  }

  lemma AllButMembers(supported: seq<string>, j: nat, scope: Scope)
    requires NoDuplicates(supported) && j < |supported|
    ensures BranchesKnown(AllBut(supported, j), supported) && Declares(AllBut(supported, j), scope)
    ensures forall b :: b in AllBut(supported, j)[0].ltsVersions <==> b in supported && b != supported[j]
  {
    var listed := supported[..j] + supported[j + 1..];
    assert supported == supported[..j] + [supported[j]] + supported[j + 1..];
    assert AllBut(supported, j)[0].ltsVersions == listed && Serves(AllBut(supported, j)[0], scope);
    forall p, q | 0 <= p < q < |listed|
      ensures listed[p] != listed[q]
    {
      var p', q' := if p < j then p else p + 1, if q < j then q else q + 1;
      assert listed[p] == supported[p'] && listed[q] == supported[q'];
    }
    forall b
      ensures b in listed <==> b in supported && b != supported[j]
    {
      if b in listed {
        var p :| 0 <= p < |listed| && listed[p] == b;
        assert supported[if p < j then p else p + 1] == b;
      }
    }
  }

  /** With a second spelling the check rejects variants that serve every version. */
  lemma SecondSpellingRejected(supported: seq<string>, i: nat, j: nat, scope: Scope)
    requires SupportedOk(supported) && i < j < |supported|
    requires ParseLtsBranch(supported[i]) == ParseLtsBranch(supported[j])
    ensures BranchesKnown(AllBut(supported, j), supported)
    ensures AlwaysOne(AllBut(supported, j), supported, scope) && !ScopeCovered(AllBut(supported, j), scope, supported)
  {
    var variants := AllBut(supported, j);
    AllButMembers(supported, j, scope);
    forall version | ResolveLtsBranch(version, supported).Some?
      ensures exists k: nat :: OnlyMatch(variants, ResolveLtsBranch(version, supported).value, scope, k)
    {
      FirstSpellingWins(version, supported, i, j);
      assert OnlyMatch(variants, ResolveLtsBranch(version, supported).value, scope, 0);
    }
    AssignedMeaning(variants, scope, supported[j]);
  }

  ghost predicate CheckIsExact(supported: seq<string>, scope: Scope)
    requires AllParse(supported)
  {
    forall variants :: BranchesKnown(variants, supported) ==>
      (ScopeCovered(variants, scope, supported) <==> AlwaysOne(variants, supported, scope))
  }

  /**
   The coverage check accepts exactly the variants that give one to every version,
   in every declared scope, if and only if no supported branch is spelled twice.
   */
  lemma CheckIsExactWhenSpelledOnce(supported: seq<string>, scope: Scope)
    requires SupportedOk(supported)
    ensures CheckIsExact(supported, scope) <==> SpelledOnce(supported)
  {
    if SpelledOnce(supported) {
      SpelledOnceAscends(supported);
      forall variants | BranchesKnown(variants, supported)
        ensures ScopeCovered(variants, scope, supported) <==> AlwaysOne(variants, supported, scope)
      {
        VariantCheckExact(variants, supported, scope);
      }
    } else {
      var i, j :| 0 <= i < j < |supported| && ParseLtsBranch(supported[i]) == ParseLtsBranch(supported[j]);
      SecondSpellingRejected(supported, i, j, scope);
    }
  }
}
