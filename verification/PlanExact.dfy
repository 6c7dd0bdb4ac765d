/** Which report items a plan holds and which of them it runs, said with the content and the options alone. */
module PlanExact {
  import opened Prelude
  import opened Versioning
  import opened Content
  import opened ContentValidator
  import opened Planner
  import opened PlanLaws

  // ---- the items of the report ----

  /** The number of items in the first s sections. */
  function Offset(sections: seq<Section>, s: nat): nat
    requires s <= |sections|
  {
    if s == 0 then 0 else Offset(sections, s - 1) + |sections[s - 1].items|
  }

  /** Item k of section s is the report item at this place. */
  predicate IsItemAt(sections: seq<Section>, s: nat, k: nat, items: seq<ReportItem>)
    requires s < |sections| && k < |sections[s].items|
  {
    var at := Offset(sections, s) + k;
    at < |items| && items[at] ==
      ReportItem(sections[s].id, sections[s].id + "." + sections[s].items[k].key, sections[s].items[k])
  }

  lemma {:induction false} SectionItemAt(section: Section, n: nat, k: nat)
    requires k < n <= |section.items|
    ensures |SectionItems(section, n)| == n
    ensures SectionItems(section, n)[k]
         == ReportItem(section.id, section.id + "." + section.items[k].key, section.items[k])
  {
    SectionItemsIn(section, n - 1);
    if k < n - 1 {
      SectionItemAt(section, n - 1, k);
    }
  }

  lemma {:induction false} OffsetPrefix(sections: seq<Section>, init: seq<Section>, s: nat)
    requires init <= sections && s <= |init|
    ensures Offset(sections, s) == Offset(init, s)
  {
    if s > 0 {
      OffsetPrefix(sections, init, s - 1);
    }
  }

  /** The report lists the items of its sections, section by section. */
  lemma {:induction false} ReportItemsMeaning(sections: seq<Section>)
    ensures |ReportItems(sections)| == Offset(sections, |sections|)
    ensures forall s: nat, k: nat :: s < |sections| && k < |sections[s].items| ==>
              IsItemAt(sections, s, k, ReportItems(sections))
  {
    if sections != [] {
      var n := |sections| - 1;
      var init, last := sections[..n], sections[n];
      ReportItemsMeaning(init);
      OffsetPrefix(sections, init, n);
      SectionItemsIn(last, |last.items|);
      forall s: nat, k: nat | s < |sections| && k < |sections[s].items|
        ensures IsItemAt(sections, s, k, ReportItems(sections))
      {
        if s < n {
          OffsetPrefix(sections, init, s);
          assert init[s] == sections[s] && IsItemAt(init, s, k, ReportItems(init));
        } else {
          SectionItemAt(last, |last.items|, k);
        }
      }
    }
  }

  // ---- one item ----

  /** The filter asks for the item: by its id or by one of its tags, or there is no filter. */
  predicate Wanted(selection: Selection, r: ReportItem) {
    match selection
    case Everything => true
    case ItemIds(ids) => r.itemId in ids
    case Tags(tags) => exists tag :: tag in tags && tag in r.item.tags
  }

  lemma WantedIsSelected(selection: Selection, r: ReportItem)
    ensures Wanted(selection, r) <==> Selected(selection, r)
  {
    if selection.Tags? {
      if tag :| tag in selection.tags && tag in r.item.tags {
        var i :| 0 <= i < |r.item.tags| && r.item.tags[i] == tag;
      }
    }
  }

  /** Some variant of the query serves the scope. */
  predicate InScope(content: ContentPack, queryId: string, scope: Scope) {
    && queryId in content.queries
    && exists v :: 0 <= v < |content.queries[queryId].variants|
         && (content.queries[queryId].variants[v].scopes == [] || scope in content.queries[queryId].variants[v].scopes)
  }

  /** The item is to be run, and not skipped. */
  predicate Runs(content: ContentPack, item: Item, mode: Mode, collection: CollectionMode, scope: Scope) {
    || (item.query.Some? && InScope(content, item.query.value, scope))
    || (item.script.Some? && collection != RemoteDbOnly)
    || (item.metric.Some? && item.metric.value in content.metrics && mode == Snapshots
        && !(collection == RemoteDbOnly && content.metrics[item.metric.value].sourceSampler.Some?))
  }

  /** The variant lists the newest supported branch that is not above the version, and serves the scope. */
  ghost predicate VariantFits(content: ContentPack, queryId: string, version: Version, scope: Scope, v: Variant)
    requires queryId in content.queries && AllParse(content.supported)
  {
    && v in content.queries[queryId].variants && (v.scopes == [] || scope in v.scopes)
    && exists branch :: branch in v.ltsVersions && branch in content.supported
         && AtMost(ParseLtsBranch(branch).value, version)
         && forall b :: b in content.supported && AtMost(ParseLtsBranch(b).value, version) ==>
              AtMost(ParseLtsBranch(b).value, ParseLtsBranch(branch).value)
  }

  /** The metric is computed from a query, and not from a sampler. */
  predicate ReadsQuery(content: ContentPack, metricId: string) {
    metricId in content.metrics && content.metrics[metricId].sourceQuery.Some?
  }

  /** Queries and metrics of queries read the database, everything else the host. */
  predicate PlansTarget(content: ContentPack, p: PlannedItem) {
    p.target == DatabaseTarget <==> p.kind == QueryKind || (p.kind == MetricKind && ReadsQuery(content, p.sourceId))
  }

  /** The planned item is the one the report item asks for. */
  ghost predicate PlansItem(content: ContentPack, r: ReportItem, version: Option<Version>, mode: Mode,
                            collection: CollectionMode, scope: Scope, p: PlannedItem)
    requires AllParse(content.supported)
  {
    && p.itemId == r.itemId && p.sectionId == r.sectionId
    && (p.kind == QueryKind <==> r.item.query == Some(p.sourceId))
    && (p.kind == ScriptKind <==> r.item.script == Some(p.sourceId))
    && (p.kind == MetricKind <==> r.item.metric == Some(p.sourceId))
    && (p.status == Planned <==> Runs(content, r.item, mode, collection, scope))
    && (p.kind == QueryKind && p.status == Planned ==>
          p.sourceId in content.queries && version.Some? && p.variant.Some?
          && VariantFits(content, p.sourceId, version.value, scope, p.variant.value))
    && (p.kind != QueryKind || p.status == Skipped ==> p.variant.None?)
  }

  /** The fallback of the planned item is the one the report item names. */
  ghost predicate PlansFallback(content: ContentPack, r: ReportItem, version: Option<Version>,
                                collection: CollectionMode, scope: Scope, p: PlannedItem)
    requires AllParse(content.supported)
  {
    && (p.fallback.None? <==> r.item.fallbackItem.None?)
    && (p.fallback.None? ==> p.fallbackOn == [])
    && (p.fallback.Some? ==>
          var f := p.fallback.value;
          && r.item.fallbackItem == Some(f.itemId) && r.item.fallbackOn == Some(p.fallbackOn)
          && f.itemId in content.fallbackItems
          && (f.kind == QueryKind <==> content.fallbackItems[f.itemId].query == Some(f.sourceId))
          && (f.kind == ScriptKind <==> content.fallbackItems[f.itemId].script == Some(f.sourceId))
          && f.kind != MetricKind && (f.target == DatabaseTarget <==> f.kind == QueryKind)
          && (f.status == Planned <==>
                (f.kind == QueryKind && InScope(content, f.sourceId, scope))
                || (f.kind == ScriptKind && collection != RemoteDbOnly))
          && (f.kind == QueryKind && f.status == Planned ==>
                f.sourceId in content.queries && version.Some? && f.variant.Some?
                && VariantFits(content, f.sourceId, version.value, scope, f.variant.value)))
  }

  lemma {:induction false} QueryPlan(content: ContentPack, queryId: string, version: Version, scope: Scope)
    requires ContentOk(content) && queryId in content.queries
    requires ResolveLtsBranch(version, content.supported).Some?
    ensures var plan := PlanQuery(content, queryId, version, scope);
            && plan.Ok? && (plan.value.0 == Planned <==> InScope(content, queryId, scope))
            && (plan.value.0 == Planned ==>
                  plan.value.1.Some? && VariantFits(content, queryId, version, scope, plan.value.1.value))
            && (plan.value.0 == Skipped ==> plan.value.1.None?)
  {
    PlanQuerySound(content, queryId, version, scope);
    ScopeDeclared(content, queryId, scope);
    var plan := PlanQuery(content, queryId, version, scope);
    if plan.value.0 == Planned {
      PlannedVariant(content, queryId, version, scope, plan.value.1.value);
    }
  }

  lemma ScopeDeclared(content: ContentPack, queryId: string, scope: Scope)
    requires queryId in content.queries
    ensures InScope(content, queryId, scope) <==> scope in Scopes(content.queries[queryId])
  {
    var variants := content.queries[queryId].variants;
    if Declares(variants, scope) {
      var v :| 0 <= v < |variants| && Serves(variants[v], scope);
    }
    if v :| 0 <= v < |variants| && (variants[v].scopes == [] || scope in variants[v].scopes) {
      assert Serves(variants[v], scope);
    }
  }

  lemma {:induction false} PlannedVariant(
      content: ContentPack, queryId: string, version: Version, scope: Scope, v: Variant)
    requires queryId in content.queries && AllParse(content.supported)
    requires PlanQuery(content, queryId, version, scope) == Ok((Planned, Some(v)))
    ensures VariantFits(content, queryId, version, scope, v)
  {
    var variants := content.queries[queryId].variants;
    var branch := ResolveLtsBranch(version, content.supported).value;
    MatchingMeaning(variants, branch, scope);
    assert |Matching(variants, branch, scope)| == 1;
    var i: nat :| OnlyMatch(variants, branch, scope, i);
    assert variants[i] == v && branch in v.ltsVersions;
  }

  lemma KindIs(item: Item)
    requires SourceCount(item) == 1
    ensures KindOf(item) == Some(QueryKind) <==> item.query.Some?
    ensures KindOf(item) == Some(ScriptKind) <==> item.script.Some?
    ensures KindOf(item) == Some(MetricKind) <==> item.metric.Some?
    ensures item.query.Some? ==> item.query == Some(SourceOf(item)) && item.script.None? && item.metric.None?
    ensures item.script.Some? ==> item.script == Some(SourceOf(item)) && item.query.None? && item.metric.None?
    ensures item.metric.Some? ==> item.metric == Some(SourceOf(item)) && item.query.None? && item.script.None?
  {
  }

  /** A version for every selected query, and none that is too old. */
  predicate VersionServes(content: ContentPack, r: ReportItem, version: Option<Version>)
    requires AllParse(content.supported)
  {
    VersionFits(content, version) && (r.item.query.Some? ==> version.Some?)
  }

  lemma SourcePlan(content: ContentPack, r: ReportItem, version: Option<Version>, mode: Mode,
                   collection: CollectionMode, scope: Scope)
    requires ContentOk(content) && Plannable(content, r) && VersionServes(content, r, version)
    ensures var plan := PlanSource(content, r, version, mode, collection, scope);
            && plan.Ok? && (plan.value.0 == Planned <==> Runs(content, r.item, mode, collection, scope))
            && (plan.value.0 == Planned && r.item.query.Some? ==>
                  version.Some? && plan.value.1.Some?
                  && VariantFits(content, r.item.query.value, version.value, scope, plan.value.1.value))
            && (r.item.query.None? || plan.value.0 == Skipped ==> plan.value.1.None?)
  {
    KindIs(r.item);
    if r.item.query.Some? {
      QueryPlan(content, r.item.query.value, version.value, scope);
    }
  }

  lemma ItemPlan(content: ContentPack, r: ReportItem, version: Option<Version>, mode: Mode,
                 collection: CollectionMode, scope: Scope)
    requires ContentOk(content) && Plannable(content, r) && VersionServes(content, r, version)
    ensures PlanItem(content, r, version, mode, collection, scope).Ok?
    ensures PlansItem(content, r, version, mode, collection, scope,
                      PlanItem(content, r, version, mode, collection, scope).value)
  {
    KindIs(r.item);
    PlanItemSound(content, r, version, mode, collection, scope);
    SourcePlan(content, r, version, mode, collection, scope);
  }

  lemma TargetPlan(content: ContentPack, r: ReportItem, version: Option<Version>, mode: Mode,
                   collection: CollectionMode, scope: Scope)
    requires Plannable(content, r) && PlanItem(content, r, version, mode, collection, scope).Ok?
    ensures PlansTarget(content, PlanItem(content, r, version, mode, collection, scope).value)
  {
  }

  lemma FallbackPlan(content: ContentPack, r: ReportItem, version: Option<Version>, mode: Mode,
                     collection: CollectionMode, scope: Scope)
    requires ContentOk(content) && Plannable(content, r) && VersionServes(content, r, version)
    requires PlanItem(content, r, version, mode, collection, scope).Ok?
    ensures PlansFallback(content, r, version, collection, scope,
                          PlanItem(content, r, version, mode, collection, scope).value)
  {
    KindIs(r.item);
    if r.item.fallbackItem.Some? {
      var definition := content.fallbackItems[r.item.fallbackItem.value];
      if definition.query.Some? {
        QueryPlan(content, definition.query.value, version.value, scope);
      }
    }
  }

  // ---- the whole plan ----

  /** The positions ascend and are those of the wanted items. */
  ghost predicate PicksWanted(selection: Selection, report: seq<ReportItem>, picks: seq<nat>) {
    && (forall m, n :: 0 <= m < n < |picks| ==> picks[m] < picks[n])
    && (forall i: nat :: i in picks <==> i < |report| && Wanted(selection, report[i]))
  }

  /** The plan holds each wanted report item once, in report order, as the report item asks for it. */
  ghost predicate PlanIs(content: ContentPack, report: seq<ReportItem>, version: Option<Version>, mode: Mode,
                         collection: CollectionMode, scope: Scope, selection: Selection, items: seq<PlannedItem>,
                         picks: seq<nat>)
    requires AllParse(content.supported)
  {
    && PicksWanted(selection, report, picks) && |picks| == |items|
    && forall m :: 0 <= m < |items| ==>
         picks[m] < |report| && PlansOne(content, report[picks[m]], version, mode, collection, scope, items[m])
  }

  ghost predicate PlansOne(content: ContentPack, r: ReportItem, version: Option<Version>, mode: Mode,
                           collection: CollectionMode, scope: Scope, p: PlannedItem)
    requires AllParse(content.supported)
  {
    && PlansItem(content, r, version, mode, collection, scope, p)
    && PlansFallback(content, r, version, collection, scope, p) && PlansTarget(content, p)
  }

  lemma PicksSame(selection: Selection, init: seq<ReportItem>, last: ReportItem, picks: seq<nat>)
    requires PicksWanted(selection, init, picks) && !Wanted(selection, last)
    ensures PicksWanted(selection, init + [last], picks)
  {
    forall i: nat
      ensures i in picks <==> i < |init| + 1 && Wanted(selection, (init + [last])[i])
    {
      assert i < |init| ==> (init + [last])[i] == init[i];
    }
  }

  lemma PicksMore(selection: Selection, init: seq<ReportItem>, last: ReportItem, picks: seq<nat>)
    requires PicksWanted(selection, init, picks) && Wanted(selection, last)
    ensures PicksWanted(selection, init + [last], picks + [|init|])
  {
    var more := picks + [|init|];
    forall m | 0 <= m < |picks|
      ensures picks[m] < |init|
    {
      assert picks[m] in picks;
    }
    forall i: nat
      ensures i in more <==> i < |init| + 1 && Wanted(selection, (init + [last])[i])
    {
      assert i in more <==> i in picks || i == |init|;
      assert i < |init| ==> (init + [last])[i] == init[i];
    }
  }

  lemma {:induction false} PlanIsExact(
      content: ContentPack, report: seq<ReportItem>, version: Option<Version>, mode: Mode,
      collection: CollectionMode, scope: Scope, selection: Selection) returns (picks: seq<nat>)
    requires ContentOk(content) && AllPlannable(content, report)
    requires forall i :: 0 <= i < |report| && Wanted(selection, report[i]) ==>
               VersionServes(content, report[i], version)
    ensures PlanItems(content, report, version, mode, collection, scope, selection).Ok?
    ensures PlanIs(content, report, version, mode, collection, scope, selection,
                   PlanItems(content, report, version, mode, collection, scope, selection).value, picks)
  {
    if report == [] {
      picks := [];
    } else {
      var init, last := report[..|report| - 1], report[|report| - 1];
      assert report == init + [last];
      var before := PlanIsExact(content, init, version, mode, collection, scope, selection);
      var items := PlanItems(content, init, version, mode, collection, scope, selection).value;
      WantedIsSelected(selection, last);
      if Wanted(selection, last) {
        ItemPlan(content, last, version, mode, collection, scope);
        FallbackPlan(content, last, version, mode, collection, scope);
        TargetPlan(content, last, version, mode, collection, scope);
        PicksMore(selection, init, last, before);
        picks := before + [|init|];
        PlanMore(content, init, last, version, mode, collection, scope, selection, items, before,
                 PlanItem(content, last, version, mode, collection, scope).value);
      } else {
        PicksSame(selection, init, last, before);
        picks := before;
      }
    }
  }

  lemma PlanMore(content: ContentPack, init: seq<ReportItem>, last: ReportItem, version: Option<Version>, mode: Mode,
                 collection: CollectionMode, scope: Scope, selection: Selection, items: seq<PlannedItem>,
                 picks: seq<nat>, p: PlannedItem)
    requires AllParse(content.supported)
    requires PlanIs(content, init, version, mode, collection, scope, selection, items, picks)
    requires PicksWanted(selection, init + [last], picks + [|init|])
    requires PlansOne(content, last, version, mode, collection, scope, p)
    ensures PlanIs(content, init + [last], version, mode, collection, scope, selection, items + [p], picks + [|init|])
  {
  }

  // ---- what is needed is planned ----

  /** A selected item that calls for a transport is planned, unless it is a query outside the scope. */
  lemma NeededIsPlanned(content: ContentPack, r: ReportItem, version: Option<Version>, mode: Mode,
                        collection: CollectionMode, scope: Scope, selection: Selection)
    requires ContentOk(content) && Plannable(content, r) && VersionServes(content, r, version)
    requires PlanItem(content, r, version, mode, collection, scope).Ok?
    ensures Needs(content, mode, collection, selection, r)
            && (r.item.query.Some? ==> InScope(content, r.item.query.value, scope))
            <==> Wanted(selection, r) && PlanItem(content, r, version, mode, collection, scope).value.status == Planned
  {
    KindIs(r.item);
    WantedIsSelected(selection, r);
    ItemPlan(content, r, version, mode, collection, scope);
    if r.item.metric.Some? {
      assert MetricOk(content, content.metrics[r.item.metric.value]);
    }
  }

  /** The positions ascend and are those of the set flags. */
  ghost predicate PicksSet(flags: seq<bool>, picks: seq<nat>) {
    && (forall m, n :: 0 <= m < n < |picks| ==> picks[m] < picks[n])
    && forall i: nat :: i in picks <==> i < |flags| && flags[i]
  }

  lemma PicksSetStep(flags: seq<bool>, flag: bool, picks: seq<nat>)
    requires PicksSet(flags, picks)
    ensures PicksSet(flags + [flag], if flag then picks + [|flags|] else picks)
  {
    assert forall m :: 0 <= m < |picks| ==> picks[m] in picks;
    forall i: nat
      ensures i in (if flag then picks + [|flags|] else picks) <==> i < |flags| + 1 && (flags + [flag])[i]
    {
      assert i < |flags| ==> (flags + [flag])[i] == flags[i];
    }
  }

  /** Which items need the target. */
  function NeedFlags(content: ContentPack, mode: Mode, collection: CollectionMode, selection: Selection,
                     items: seq<ReportItem>, target: Target): (flags: seq<bool>)
    requires SourcesOk(content, items)
    ensures |flags| == |items|
    ensures forall i :: 0 <= i < |items| ==>
              (flags[i] <==> Needs(content, mode, collection, selection, items[i])
                             && TargetOf(content, items[i].item) == target)
  {
    seq(|items|, i requires 0 <= i < |items| =>
      Needs(content, mode, collection, selection, items[i]) && TargetOf(content, items[i].item) == target)
  }

  predicate IdsAt(ids: seq<string>, items: seq<ReportItem>, picks: seq<nat>) {
    |ids| == |picks| && forall m :: 0 <= m < |picks| ==> picks[m] < |items| && ids[m] == items[picks[m]].itemId
  }

  lemma IdsAtStep(ids: seq<string>, init: seq<ReportItem>, last: ReportItem, picks: seq<nat>)
    requires IdsAt(ids, init, picks)
    ensures IdsAt(ids, init + [last], picks)
    ensures IdsAt(ids + [last.itemId], init + [last], picks + [|init|])
  {
  }

  lemma {:induction false} NeedStep(
      content: ContentPack, mode: Mode, collection: CollectionMode, selection: Selection, init: seq<ReportItem>,
      last: ReportItem, target: Target)
    requires SourcesOk(content, init + [last]) && SourcesOk(content, init) && SourceOk(content, last.item)
    ensures var needed := Needs(content, mode, collection, selection, last) && TargetOf(content, last.item) == target;
            && NeedFlags(content, mode, collection, selection, init + [last], target)
               == NeedFlags(content, mode, collection, selection, init, target) + [needed]
            && NeedIds(content, mode, collection, selection, init + [last], target)
               == NeedIds(content, mode, collection, selection, init, target)
                  + if needed then [last.itemId] else []
  {
    assert (init + [last])[..|init|] == init;
  }

  /** The picks say which items need the target, and the ids are theirs. */
  ghost predicate NeedsAre(items: seq<ReportItem>, flags: seq<bool>, ids: seq<string>, picks: seq<nat>) {
    PicksSet(flags, picks) && IdsAt(ids, items, picks)
  }

  lemma NeedMore(init: seq<ReportItem>, last: ReportItem, flags: seq<bool>, flag: bool, ids: seq<string>,
                 before: seq<nat>) returns (picks: seq<nat>)
    requires |flags| == |init| && NeedsAre(init, flags, ids, before)
    ensures NeedsAre(init + [last], flags + [flag], ids + if flag then [last.itemId] else [], picks)
  {
    PicksSetStep(flags, flag, before);
    IdsAtStep(ids, init, last, before);
    assert ids + [] == ids;
    picks := if flag then before + [|init|] else before;
  }

  /** The ids of the requirements are those of the items that need the target, in report order. */
  lemma {:induction false} NeedIdsExactly(
      content: ContentPack, mode: Mode, collection: CollectionMode, selection: Selection, items: seq<ReportItem>,
      target: Target) returns (picks: seq<nat>)
    requires SourcesOk(content, items)
    ensures NeedsAre(items, NeedFlags(content, mode, collection, selection, items, target),
                     NeedIds(content, mode, collection, selection, items, target), picks)
  {
    if items == [] {
      picks := [];
    } else {
      var init, last := items[..|items| - 1], items[|items| - 1];
      assert items == init + [last] && SourceOk(content, last.item);
      var before := NeedIdsExactly(content, mode, collection, selection, init, target);
      NeedStep(content, mode, collection, selection, init, last, target);
      picks := NeedMore(init, last, NeedFlags(content, mode, collection, selection, init, target),
                        Needs(content, mode, collection, selection, last) && TargetOf(content, last.item) == target,
                        NeedIds(content, mode, collection, selection, init, target), before);
    }
  }
}
