/** What validated content guarantees about every plan. */
module PlanLaws {
  import opened Prelude
  import opened Versioning
  import opened Content
  import opened ContentValidator
  import opened Planner

  lemma ContentIsPlannable(content: ContentPack)
    requires ContentOk(content)
    ensures AllPlannable(content, ReportItems(content.sections))
    ensures SourcesOk(content, ReportItems(content.sections))
  {
    var items := ReportItems(content.sections);
    forall i | 0 <= i < |items|
      ensures Plannable(content, items[i])
    {
      var item := items[i].item;
      assert FallbackOk(content, item);
      if item.fallbackItem.Some? {
        var fallback := item.fallbackItem.value;
        assert FallbackItemOk(content, fallback, content.fallbackItems[fallback], Ids(items));
      }
    }
  }

  // ---- one item ----

  /** An item that is planned, and not skipped, counted towards the requirements. */
  lemma PlannedIsNeeded(content: ContentPack, r: ReportItem, version: Option<Version>, mode: Mode,
                        collection: CollectionMode, scope: Scope, selection: Selection, p: PlannedItem)
    requires ContentOk(content) && Plannable(content, r) && Selected(selection, r)
    requires PlanItem(content, r, version, mode, collection, scope) == Ok(p) && p.status == Planned
    ensures p.target == TargetOf(content, r.item) && Needs(content, mode, collection, selection, r)
  {
    if KindOf(r.item) == Some(MetricKind) {
      assert MetricOk(content, content.metrics[SourceOf(r.item)]);
    }
  }

  /** A selected query item always needs the database. */
  lemma QueryNeedsDatabase(content: ContentPack, r: ReportItem, mode: Mode, collection: CollectionMode,
                           selection: Selection)
    requires Plannable(content, r) && Selected(selection, r) && KindOf(r.item) == Some(QueryKind)
    ensures Needs(content, mode, collection, selection, r) && TargetOf(content, r.item) == DatabaseTarget
  {
  }

  lemma {:induction false} PlanQuerySound(content: ContentPack, queryId: string, version: Version, scope: Scope)
    requires ContentOk(content) && queryId in content.queries
    requires ResolveLtsBranch(version, content.supported).Some?
    ensures PlanQuery(content, queryId, version, scope).Ok?
    ensures PlanQuery(content, queryId, version, scope).value.0 ==
            if scope in Scopes(content.queries[queryId]) then Planned else Skipped
    ensures PlanQuery(content, queryId, version, scope).value.1.Some? <==>
            PlanQuery(content, queryId, version, scope).value.0 == Planned
  {
    ValidatorSound(content, queryId, version, scope);
    ResolvesFromEarliest(content.supported, version);
  }

  /** The version a plan may be given: known when a query is selected, and never too old. */
  predicate VersionFits(content: ContentPack, version: Option<Version>)
    requires AllParse(content.supported)
  {
    version.Some? ==> ResolveLtsBranch(version.value, content.supported).Some?
  }

  /** Planning one item of validated content cannot fail, and a planned item's fallback is planned too. */
  lemma PlanItemSound(content: ContentPack, r: ReportItem, version: Option<Version>, mode: Mode,
                      collection: CollectionMode, scope: Scope)
    requires ContentOk(content) && Plannable(content, r) && VersionFits(content, version)
    requires KindOf(r.item) == Some(QueryKind) ==> version.Some?
    ensures PlanItem(content, r, version, mode, collection, scope).Ok?
    ensures var p := PlanItem(content, r, version, mode, collection, scope).value;
            && p.itemId == r.itemId && p.sectionId == r.sectionId
            && (p.kind == QueryKind && p.status == Planned ==> p.variant.Some?)
            && (p.fallback.Some? ==>
                  p.fallback.value.kind == p.kind && p.kind != MetricKind && p.fallback.value.target == p.target)
            && (p.fallback.Some? && p.status == Planned ==>
                  p.fallback.value.status == Planned
                  && (p.kind == QueryKind ==> p.fallback.value.variant.Some?))
  {
    if KindOf(r.item) == Some(QueryKind) {
      PlanQuerySound(content, SourceOf(r.item), version.value, scope);
    }
    if r.item.fallbackItem.Some? {
      FallbackSound(content, r, version, collection, scope);
    }
  }

  lemma FallbackSound(content: ContentPack, r: ReportItem, version: Option<Version>, collection: CollectionMode,
                      scope: Scope)
    requires ContentOk(content) && Plannable(content, r) && VersionFits(content, version)
    requires KindOf(r.item) == Some(QueryKind) ==> version.Some?
    requires r.item.fallbackItem.Some?
    ensures var f := PlanFallback(content, r, version, scope, collection);
            && f.Ok? && f.value.Some? && Some(f.value.value.kind) == KindOf(r.item)
            && f.value.value.kind != MetricKind && f.value.value.target == TargetOf(content, r.item)
            && (f.value.value.kind == QueryKind ==>
                  (scope in Scopes(content.queries[SourceOf(r.item)]) ==>
                     f.value.value.status == Planned && f.value.value.variant.Some?))
            && (f.value.value.kind == ScriptKind ==>
                  f.value.value.status == if collection == RemoteDbOnly then Skipped else Planned)
  {
    var definition := content.fallbackItems[r.item.fallbackItem.value];
    if definition.query.Some? {
      PlanQuerySound(content, definition.query.value, version.value, scope);
    }
  }

  // ---- all items ----

  /** Without a database requirement no query item is selected. */
  lemma NoDatabaseNoQuery(content: ContentPack, mode: Mode, collection: CollectionMode, scope: Scope,
                          selection: Selection, i: nat)
    requires ContentOk(content) && i < |ReportItems(content.sections)|
    requires SourcesOk(content, ReportItems(content.sections))
    requires Selected(selection, ReportItems(content.sections)[i])
    requires KindOf(ReportItems(content.sections)[i].item) == Some(QueryKind)
    ensures RequiresDatabase(content, mode, collection, scope, selection)
  {
    ContentIsPlannable(content);
    var items := ReportItems(content.sections);
    QueryNeedsDatabase(content, items[i], mode, collection, selection);
    NeedIdsMeaning(content, mode, collection, selection, items, DatabaseTarget);
  }

  /** Each planned item comes from a selected report item. */
  lemma {:induction false} PlannedFrom(content: ContentPack, items: seq<ReportItem>, version: Option<Version>,
                                       mode: Mode, collection: CollectionMode, scope: Scope, selection: Selection,
                                       p: PlannedItem) returns (i: nat)
    requires AllPlannable(content, items)
    requires PlanItems(content, items, version, mode, collection, scope, selection).Ok?
    requires p in PlanItems(content, items, version, mode, collection, scope, selection).value
    ensures i < |items| && Selected(selection, items[i])
    ensures PlanItem(content, items[i], version, mode, collection, scope) == Ok(p)
  {
    var n := |items| - 1;
    if p in PlanItems(content, items[..n], version, mode, collection, scope, selection).value {
      i := PlannedFrom(content, items[..n], version, mode, collection, scope, selection, p);
    } else {
      i := n;
    }
  }

  lemma {:induction false} PlanItemsSucceed(content: ContentPack, items: seq<ReportItem>, version: Option<Version>,
                                            mode: Mode, collection: CollectionMode, scope: Scope,
                                            selection: Selection)
    requires ContentOk(content) && AllPlannable(content, items) && VersionFits(content, version)
    requires forall i :: 0 <= i < |items| && Selected(selection, items[i]) ==>
               (KindOf(items[i].item) == Some(QueryKind) ==> version.Some?)
    ensures PlanItems(content, items, version, mode, collection, scope, selection).Ok?
  {
    if items != [] {
      var n := |items| - 1;
      PlanItemsSucceed(content, items[..n], version, mode, collection, scope, selection);
      if Selected(selection, items[n]) {
        PlanItemSound(content, items[n], version, mode, collection, scope);
      }
    }
  }

  /** What _collect has opened when it plans, for the requirements of the same selection. */
  predicate OpenedFor(content: ContentPack, mode: Mode, collection: CollectionMode, scope: Scope, selection: Selection,
                      t: Transports)
    requires SourcesOk(content, ReportItems(content.sections))
  {
    var database := RequiresDatabase(content, mode, collection, scope, selection);
    var host := NeedIds(content, mode, collection, selection, ReportItems(content.sections), HostTarget) != [];
    && (t.database <==> database)
    && (t.host <==> ((collection == Local && host) || (collection == Remote && (host || database))))
    && t.scope == if database then scope else Node
  }

  /** The transports opened by _collect fit the requirements computed before. */
  method OpenForSelection(content: ContentPack, mode: Mode, collection: CollectionMode, scope: Scope,
                          selection: Selection, sshConfigured: bool)
    returns (transports: Result<Transports, OpenError>)
    requires ContentOk(content) && SourcesOk(content, ReportItems(content.sections))
    ensures transports.Ok? ==> OpenedFor(content, mode, collection, scope, selection, transports.value)
  {
    var requirements := CollectionRequirements(content, mode, collection, scope, selection);
    transports := OpenTransports(requirements, collection, scope, sshConfigured);
  }

  /** A server version is read exactly when the database is open; it fits unless it is too old. */
  predicate VersionRead(content: ContentPack, t: Transports, version: Option<Version>)
    requires AllParse(content.supported)
  {
    (version.Some? <==> t.database) && VersionFits(content, version)
  }

  /** The target is open when the item runs. */
  predicate Reachable(target: Target, t: Transports) {
    if target == DatabaseTarget then t.database else t.host
  }

  /**
   Transport sufficiency: for validated content, any mode, scope and selection,
   planning never fails, its assertion on the server version included, and every
   planned item and its fallback find their transport open.
   */
  lemma {:induction false} TransportSufficiency(
      content: ContentPack, mode: Mode, collection: CollectionMode, scope: Scope,
      selection: Selection, t: Transports, version: Option<Version>)
    requires ContentOk(content) && SourcesOk(content, ReportItems(content.sections))
    requires AllPlannable(content, ReportItems(content.sections))
    requires OpenedFor(content, mode, collection, scope, selection, t) && VersionRead(content, t, version)
    ensures t.scope == scope
    ensures PlanItems(content, ReportItems(content.sections), version, mode, collection, t.scope, selection).Ok?
    ensures forall p ::
              p in PlanItems(
                content, ReportItems(content.sections), version, mode, collection, t.scope, selection).value
              && p.status == Planned ==>
                Reachable(p.target, t)
                && (p.fallback.Some? ==>
                      p.fallback.value.status == Planned && p.fallback.value.kind == p.kind
                      && Reachable(p.fallback.value.target, t))
  {
    var items := ReportItems(content.sections);
    forall i | 0 <= i < |items| && Selected(selection, items[i]) && KindOf(items[i].item) == Some(QueryKind)
      ensures version.Some?
    {
      NoDatabaseNoQuery(content, mode, collection, scope, selection, i);
    }
    PlanItemsSucceed(content, items, version, mode, collection, t.scope, selection);
    var planned := PlanItems(content, items, version, mode, collection, t.scope, selection).value;
    forall p | p in planned && p.status == Planned
      ensures Reachable(p.target, t)
      ensures p.fallback.Some? ==>
                p.fallback.value.status == Planned && p.fallback.value.kind == p.kind
                && Reachable(p.fallback.value.target, t)
    {
      var i := PlannedFrom(content, items, version, mode, collection, t.scope, selection, p);
      PlannedReachable(content, mode, collection, scope, selection, t, version, i, p);
      PlanItemSound(content, items[i], version, mode, collection, t.scope);
    }
  }

  lemma PlannedReachable(content: ContentPack, mode: Mode, collection: CollectionMode, scope: Scope,
                         selection: Selection, t: Transports, version: Option<Version>, i: nat, p: PlannedItem)
    requires ContentOk(content) && SourcesOk(content, ReportItems(content.sections))
    requires OpenedFor(content, mode, collection, scope, selection, t)
    requires i < |ReportItems(content.sections)| && Plannable(content, ReportItems(content.sections)[i])
    requires Selected(selection, ReportItems(content.sections)[i])
    requires PlanItem(content, ReportItems(content.sections)[i], version, mode, collection, t.scope) == Ok(p)
    requires p.status == Planned
    ensures Reachable(p.target, t)
  {
    var items := ReportItems(content.sections);
    PlannedIsNeeded(content, items[i], version, mode, collection, t.scope, selection, p);
    NeedIdsMeaning(content, mode, collection, selection, items, p.target);
  }

  // ---- sections and ids ----

  function IdList(items: seq<PlannedItem>): (ids: seq<string>)
    ensures |ids| == |items| && forall i :: 0 <= i < |items| ==> ids[i] == items[i].itemId
  {
    seq(|items|, i requires 0 <= i < |items| => items[i].itemId)
  }

  function Concat(sections: seq<PlanSection>): seq<string> {
    if sections == [] then [] else Concat(sections[..|sections| - 1]) + sections[|sections| - 1].items
  }

  predicate DistinctSections(sections: seq<Section>) {
    forall i, j :: 0 <= i < j < |sections| ==> sections[i].id != sections[j].id
  }

  predicate AllIn(items: seq<PlannedItem>, sectionId: string) {
    forall i :: 0 <= i < |items| ==> items[i].sectionId == sectionId
  }

  predicate NoneIn(items: seq<PlannedItem>, sectionId: string) {
    forall i :: 0 <= i < |items| ==> items[i].sectionId != sectionId
  }

  lemma {:induction false} IdsInAppend(a: seq<PlannedItem>, b: seq<PlannedItem>, id: string)
    ensures IdsIn(a + b, id) == IdsIn(a, id) + IdsIn(b, id)
  {
    if b == [] {
      assert a + b == a;
    } else {
      var n := |b| - 1;
      IdsInAppend(a, b[..n], id);
      assert (a + b)[..|a + b| - 1] == a + b[..n];
    }
  }

  lemma {:induction false} IdsInAll(items: seq<PlannedItem>, id: string)
    ensures AllIn(items, id) ==> IdsIn(items, id) == IdList(items)
    ensures NoneIn(items, id) ==> IdsIn(items, id) == []
  {
    if items != [] {
      IdsInAll(items[..|items| - 1], id);
      assert IdList(items) == IdList(items[..|items| - 1]) + [items[|items| - 1].itemId];
    }
  }

  lemma {:induction false} SectionsIgnoreOthers(sections: seq<Section>, a: seq<PlannedItem>, b: seq<PlannedItem>)
    requires forall i :: 0 <= i < |sections| ==> NoneIn(b, sections[i].id)
    ensures SectionsOf(sections, a + b) == SectionsOf(sections, a)
  {
    if sections != [] {
      var id := sections[|sections| - 1].id;
      SectionsIgnoreOthers(sections[..|sections| - 1], a, b);
      IdsInAppend(a, b, id);
      IdsInAll(b, id);
      assert NoneIn(b, id);
      assert IdsIn(a, id) + [] == IdsIn(a, id);
    }
  }

  /** The items planned for the first sections, followed by those of the last one. */
  lemma {:induction false} PlanAppend(content: ContentPack, a: seq<ReportItem>, b: seq<ReportItem>,
                                      version: Option<Version>, mode: Mode, collection: CollectionMode, scope: Scope,
                                      selection: Selection, sectionId: string)
    returns (first: seq<PlannedItem>, second: seq<PlannedItem>)
    requires AllPlannable(content, a) && AllPlannable(content, b) && AllPlannable(content, a + b)
    requires PlanItems(content, a + b, version, mode, collection, scope, selection).Ok?
    requires forall i :: 0 <= i < |b| ==> b[i].sectionId == sectionId
    ensures PlanItems(content, a, version, mode, collection, scope, selection) == Ok(first)
    ensures PlanItems(content, a + b, version, mode, collection, scope, selection) == Ok(first + second)
    ensures AllIn(second, sectionId)
  {
    if b == [] {
      assert a + b == a;
      first, second := PlanItems(content, a, version, mode, collection, scope, selection).value, [];
      assert first + second == first;
    } else {
      var n := |b| - 1;
      assert (a + b)[..|a + b| - 1] == a + b[..n];
      var front;
      first, front := PlanAppend(content, a, b[..n], version, mode, collection, scope, selection, sectionId);
      assert (a + b)[|a + b| - 1] == b[n];
      if Selected(selection, b[n]) {
        var p := PlanItem(content, b[n], version, mode, collection, scope).value;
        second := front + [p];
        assert first + second == (first + front) + [p];
      } else {
        second := front;
      }
    }
  }

  lemma {:induction false} SectionItemsIn(section: Section, n: nat)
    requires n <= |section.items|
    ensures |SectionItems(section, n)| == n
    ensures forall i :: 0 <= i < n ==> SectionItems(section, n)[i].sectionId == section.id
  {
    if n > 0 {
      SectionItemsIn(section, n - 1);
    }
  }

  /** Items of earlier sections add nothing to the last one, and its own items all belong to it. */
  lemma {:induction false} LastSectionIds(first: seq<PlannedItem>, second: seq<PlannedItem>, id: string)
    requires NoneIn(first, id) && AllIn(second, id)
    ensures IdsIn(first + second, id) == IdList(second)
  {
    IdsInAppend(first, second, id);
    IdsInAll(first, id);
    IdsInAll(second, id);
    assert [] + IdList(second) == IdList(second);
  }

  lemma {:induction false} ConcatAppend(front: seq<PlanSection>, last: PlanSection)
    ensures Concat(front + [last]) == Concat(front) + last.items
  {
    assert (front + [last])[..|front|] == front;
  }

  lemma IdListAppend(first: seq<PlannedItem>, second: seq<PlannedItem>)
    ensures IdList(first + second) == IdList(first) + IdList(second)
  {
  }

  lemma {:induction false} SectionStep(
      init: seq<Section>, last: Section, first: seq<PlannedItem>, second: seq<PlannedItem>)
    requires forall i :: 0 <= i < |init| ==> init[i].id != last.id
    requires AllIn(second, last.id) && NoneIn(first, last.id)
    ensures Concat(SectionsOf(init + [last], first + second)) ==
            Concat(SectionsOf(init, first)) + IdList(second)
  {
    var sections := init + [last];
    assert sections[..|sections| - 1] == init;
    SectionsIgnoreOthers(init, first, second);
    LastSectionIds(first, second, last.id);
    var front := SectionsOf(init, first);
    if IdList(second) == [] {
      assert front + [] == front && Concat(front) + IdList(second) == Concat(front);
    } else {
      ConcatAppend(front, PlanSection(last.id, IdList(second)));
    }
  }

  predicate HasSection(sections: seq<Section>, id: string) {
    exists k :: 0 <= k < |sections| && sections[k].id == id
  }

  predicate OnlyIn(items: seq<PlannedItem>, sections: seq<Section>) {
    forall i :: 0 <= i < |items| ==> HasSection(sections, items[i].sectionId)
  }

  lemma HasSectionStep(init: seq<Section>, last: Section, id: string)
    ensures HasSection(init + [last], id) <==> HasSection(init, id) || id == last.id
  {
    var sections := init + [last];
    assert sections[|init|] == last;
    if HasSection(init, id) {
      var k :| 0 <= k < |init| && init[k].id == id;
      assert sections[k].id == id;
    }
  }

  lemma OnlyInStep(init: seq<Section>, last: Section, first: seq<PlannedItem>, second: seq<PlannedItem>)
    requires OnlyIn(first, init) && AllIn(second, last.id)
    ensures OnlyIn(first + second, init + [last])
  {
    forall i | 0 <= i < |first + second|
      ensures HasSection(init + [last], (first + second)[i].sectionId)
    {
      HasSectionStep(init, last, (first + second)[i].sectionId);
    }
  }

  lemma OnlyInExcludes(items: seq<PlannedItem>, init: seq<Section>, last: Section)
    requires OnlyIn(items, init) && DistinctSections(init + [last])
    ensures NoneIn(items, last.id)
    ensures DistinctSections(init) && forall i :: 0 <= i < |init| ==> init[i].id != last.id
  {
    var sections := init + [last];
    forall i | 0 <= i < |init|
      ensures init[i].id != last.id
    {
      assert sections[i] == init[i] && sections[|init|] == last;
    }
    forall i, j | 0 <= i < j < |init|
      ensures init[i].id != init[j].id
    {
      assert sections[i] == init[i] && sections[j] == init[j];
    }
  }

  /** The plan of all sections is the plan of the first ones followed by that of the last. */
  lemma PlanLastSection(content: ContentPack, sections: seq<Section>, version: Option<Version>, mode: Mode,
                        collection: CollectionMode, scope: Scope, selection: Selection)
    returns (first: seq<PlannedItem>, second: seq<PlannedItem>)
    requires sections != [] && AllPlannable(content, ReportItems(sections))
    requires PlanItems(content, ReportItems(sections), version, mode, collection, scope, selection).Ok?
    ensures AllPlannable(content, ReportItems(sections[..|sections| - 1]))
    ensures PlanItems(content, ReportItems(sections[..|sections| - 1]), version, mode, collection, scope, selection)
         == Ok(first)
    ensures PlanItems(content, ReportItems(sections), version, mode, collection, scope, selection) == Ok(first + second)
    ensures AllIn(second, sections[|sections| - 1].id)
  {
    var last := sections[|sections| - 1];
    var a, b := ReportItems(sections[..|sections| - 1]), SectionItems(last, |last.items|);
    SectionItemsIn(last, |last.items|);
    assert ReportItems(sections) == a + b;
    assert forall i :: 0 <= i < |a| ==> a[i] == (a + b)[i];
    assert forall i :: 0 <= i < |b| ==> b[i] == (a + b)[|a| + i];
    first, second := PlanAppend(content, a, b, version, mode, collection, scope, selection, last.id);
  }

  /** The section lists of a plan, one after the other, are the ids of its items in plan order. */
  lemma {:induction false} SectionsFollowPlan(content: ContentPack, sections: seq<Section>, version: Option<Version>,
                                              mode: Mode, collection: CollectionMode, scope: Scope,
                                              selection: Selection, items: seq<PlannedItem>)
    requires DistinctSections(sections) && AllPlannable(content, ReportItems(sections))
    requires PlanItems(content, ReportItems(sections), version, mode, collection, scope, selection) == Ok(items)
    ensures Concat(SectionsOf(sections, items)) == IdList(items)
    ensures OnlyIn(items, sections)
  {
    if sections != [] {
      var init, last := sections[..|sections| - 1], sections[|sections| - 1];
      var first, second := PlanLastSection(content, sections, version, mode, collection, scope, selection);
      assert sections == init + [last];
      OnlyInExcludes([], init, last);
      SectionsFollowPlan(content, init, version, mode, collection, scope, selection, first);
      OnlyInExcludes(first, init, last);
      SectionStep(init, last, first, second);
      IdListAppend(first, second);
      OnlyInStep(init, last, first, second);
    }
  }

  lemma FreshId(before: seq<PlannedItem>, p: PlannedItem)
    requires NoDuplicates(IdList(before))
    requires forall k :: 0 <= k < |before| ==> before[k].itemId != p.itemId
    ensures NoDuplicates(IdList(before + [p]))
  {
    IdListAppend(before, [p]);
  }

  /** No item is planned twice. */
  lemma {:induction false} PlannedIdsDistinct(content: ContentPack, items: seq<ReportItem>, version: Option<Version>,
                                              mode: Mode, collection: CollectionMode, scope: Scope,
                                              selection: Selection)
    requires DistinctIds(items) && AllPlannable(content, items)
    requires PlanItems(content, items, version, mode, collection, scope, selection).Ok?
    ensures NoDuplicates(IdList(PlanItems(content, items, version, mode, collection, scope, selection).value))
  {
    if items != [] {
      var n := |items| - 1;
      PlannedIdsDistinct(content, items[..n], version, mode, collection, scope, selection);
      var before := PlanItems(content, items[..n], version, mode, collection, scope, selection).value;
      if Selected(selection, items[n]) {
        forall k | 0 <= k < |before|
          ensures before[k].itemId != items[n].itemId
        {
          var i := PlannedFrom(content, items[..n], version, mode, collection, scope, selection, before[k]);
          assert items[i].itemId != items[n].itemId;
        }
        FreshId(before, PlanItem(content, items[n], version, mode, collection, scope).value);
      }
    }
  }
}
