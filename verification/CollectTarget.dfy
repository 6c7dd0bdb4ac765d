/**
 _collect_target: run the planned items, keep or omit each result, and leave an
 artifact whose references always validate.
 */
module CollectTarget {
  import opened Prelude
  import opened Content
  import opened Planner
  import opened PlanLaws
  import opened Collector

  /** fail_fast stopped the collection at an item. */
  datatype CollectError = FailFast(itemId: string)

  predicate Deferred(p: PlannedItem) {
    p.status == Planned && p.kind == MetricKind
  }

  /** The items with or without the deferred metrics, in plan order. */
  function Only(items: seq<PlannedItem>, deferred: bool): seq<PlannedItem> {
    if items == [] then []
    else
      Only(items[..|items| - 1], deferred)
      + if Deferred(items[|items| - 1]) == deferred then [items[|items| - 1]] else []
  }

  /** The order in which the items are handled. */
  function HandlingOrder(items: seq<PlannedItem>): seq<PlannedItem> {
    Only(items, false) + Only(items, true)
  }

  /** The loop state after handling some items. */
  ghost predicate Handled(world: World, done: seq<PlannedItem>, items: map<string, CollectedItem>,
                          omitted: set<string>, progress: seq<string>)
  {
    && Answered(world, done) && items == ItemsOf(world, done)
    && omitted == OmittedOf(world, done) && progress == IdList(done)
  }

  /** What the loops do with one item; stop is set when fail_fast raises. */
  method HandleItem(world: World, p: PlannedItem, failFast: bool, items: map<string, CollectedItem>,
                    omitted: set<string>, progress: seq<string>, ghost done: seq<PlannedItem>)
    returns (items': map<string, CollectedItem>, omitted': set<string>, progress': seq<string>, stop: bool)
    requires p.itemId in world.answers && Handled(world, done, items, omitted, progress)
    ensures Handled(world, done + [p], items', omitted', progress')
    ensures stop <==> failFast && !Omitted(world, p) && Failed(Collected(world, p).status)
  {
    assert (done + [p])[..|done|] == done;
    items', omitted', stop := items, omitted, false;
    progress' := progress + [p.itemId];
    if p.status == Skipped {
      omitted' := omitted + {p.itemId};
      return;
    }
    var item := Collected(world, p);
    if item.status == StatusUnsupported {
      omitted' := omitted + {p.itemId};
      return;
    }
    items' := items[p.itemId := item];
    stop := failFast && Failed(item.status);
  }

  predicate NoFailure(world: World, list: seq<PlannedItem>) {
    forall i :: 0 <= i < |list| && list[i].itemId in world.answers && !Omitted(world, list[i]) ==>
      !Failed(Collected(world, list[i]).status)
  }

  /** An item with this id was collected, and it failed. */
  predicate FailedIn(world: World, list: seq<PlannedItem>, id: string) {
    exists i :: 0 <= i < |list| && list[i].itemId == id && id in world.answers && !Omitted(world, list[i])
                && Failed(Collected(world, list[i]).status)
  }

  /** The item with this id was collected and failed, and none before it in the list did. */
  predicate FirstFailure(world: World, list: seq<PlannedItem>, id: string) {
    exists i :: 0 <= i < |list| && FailsAt(world, list, i) && list[i].itemId == id && NoFailure(world, list[..i])
  }

  predicate FailsAt(world: World, list: seq<PlannedItem>, i: nat) {
    && i < |list| && list[i].itemId in world.answers && !Omitted(world, list[i])
    && Failed(Collected(world, list[i]).status)
  }

  lemma NextPrefix(done: seq<PlannedItem>, list: seq<PlannedItem>, i: nat)
    requires i < |list|
    ensures done + list[..i] + [list[i]] == done + list[..i + 1]
  {
  }

  lemma NoFailureStep(world: World, list: seq<PlannedItem>, i: nat)
    requires i < |list| && NoFailure(world, list[..i]) && list[i].itemId in world.answers
    requires !Omitted(world, list[i]) ==> !Failed(Collected(world, list[i]).status)
    ensures NoFailure(world, list[..i + 1])
  {
    assert forall k :: 0 <= k < i ==> list[..i + 1][k] == list[..i][k];
  }

  /** One of the two loops: over the plan without its metrics, then over the metrics. */
  method HandleAll(world: World, list: seq<PlannedItem>, failFast: bool, items: map<string, CollectedItem>,
                   omitted: set<string>, progress: seq<string>, ghost done: seq<PlannedItem>)
    returns (items': map<string, CollectedItem>, omitted': set<string>, progress': seq<string>, failed: Option<string>)
    requires Answered(world, list) && Handled(world, done, items, omitted, progress)
    ensures failed.None? ==> Handled(world, done + list, items', omitted', progress')
    ensures failed.Some? ==> failFast && FailedIn(world, list, failed.value) && FirstFailure(world, list, failed.value)
    ensures failFast && failed.None? ==> NoFailure(world, list)
  {
    items', omitted', progress', failed := items, omitted, progress, None;
    assert done + [] == done;
    for i := 0 to |list|
      invariant Handled(world, done + list[..i], items', omitted', progress')
      invariant failFast ==> NoFailure(world, list[..i])
    {
      var stop;
      items', omitted', progress', stop :=
        HandleItem(world, list[i], failFast, items', omitted', progress', done + list[..i]);
      NextPrefix(done, list, i);
      if stop {
        assert FailsAt(world, list, i);
        return items', omitted', progress', Some(list[i].itemId);
      }
      if failFast {
        NoFailureStep(world, list, i);
      }
    }
    assert list[..|list|] == list;
  }

  /** The first loop sets the metrics aside. */
  method SplitMetrics(items: seq<PlannedItem>) returns (now: seq<PlannedItem>, metrics: seq<PlannedItem>)
    ensures now == Only(items, false) && metrics == Only(items, true)
  {
    now, metrics := [], [];
    for i := 0 to |items|
      invariant now == Only(items[..i], false) && metrics == Only(items[..i], true)
    {
      assert items[..i + 1][..i] == items[..i];
      if items[i].status == Planned && items[i].kind == MetricKind {
        metrics := metrics + [items[i]];
      } else {
        now := now + [items[i]];
      }
    }
    assert items[..|items|] == items;
  }

  // ---- accounting ----

  lemma {:induction false} OnlyPartition(items: seq<PlannedItem>)
    ensures multiset(Only(items, false)) + multiset(Only(items, true)) == multiset(items)
  {
    if items != [] {
      OnlyPartition(items[..|items| - 1]);
      assert items == items[..|items| - 1] + [items[|items| - 1]];
    }
  }

  /** The deferred metrics, or all other items, in plan order. */
  lemma {:induction false} OnlyMeaning(items: seq<PlannedItem>, deferred: bool) returns (picks: seq<nat>)
    ensures |picks| == |Only(items, deferred)| && forall m, n :: 0 <= m < n < |picks| ==> picks[m] < picks[n]
    ensures forall m :: 0 <= m < |picks| ==> picks[m] < |items| && Only(items, deferred)[m] == items[picks[m]]
    ensures forall i :: 0 <= i < |items| ==>
              (i in picks <==> (items[i].status == Planned && items[i].kind == MetricKind <==> deferred))
  {
    if items == [] {
      picks := [];
    } else {
      var n := |items| - 1;
      picks := OnlyMeaning(items[..n], deferred);
      assert forall m :: 0 <= m < |picks| ==> picks[m] in picks && picks[m] < n;
      assert forall i :: 0 <= i < n ==> items[..n][i] == items[i];
      if Deferred(items[n]) == deferred {
        picks := picks + [n];
      }
    }
  }

  lemma HandlingOrderMembers(items: seq<PlannedItem>)
    ensures multiset(HandlingOrder(items)) == multiset(items)
    ensures forall p :: p in HandlingOrder(items) <==> p in items
  {
    OnlyPartition(items);
    forall p
      ensures p in HandlingOrder(items) <==> p in items
    {
      assert p in HandlingOrder(items) <==> p in multiset(HandlingOrder(items));
      assert p in items <==> p in multiset(items);
    }
  }

  lemma {:induction false} ItemsOfMeaning(world: World, done: seq<PlannedItem>)
    requires Answered(world, done)
    ensures forall id :: id in ItemsOf(world, done) <==>
              exists k :: 0 <= k < |done| && done[k].itemId == id && !Omitted(world, done[k])
    ensures forall id :: id in OmittedOf(world, done) <==>
              exists k :: 0 <= k < |done| && done[k].itemId == id && Omitted(world, done[k])
    ensures forall id :: id in ItemsOf(world, done) ==> ItemsOf(world, done)[id].itemId == id
  {
    if done != [] {
      var n := |done| - 1;
      ItemsOfMeaning(world, done[..n]);
      assert forall k :: 0 <= k < n ==> done[..n][k] == done[k];
    }
  }

  /** Equal ids mean the same plan item. */
  ghost predicate IdsIdentify(items: seq<PlannedItem>) {
    forall p, q :: p in items && q in items && p.itemId == q.itemId ==> p == q
  }

  lemma DistinctIdsIdentify(items: seq<PlannedItem>)
    requires NoDuplicates(IdList(items))
    ensures IdsIdentify(items)
  {
    forall p, q | p in items && q in items && p.itemId == q.itemId
      ensures p == q
    {
      var i :| 0 <= i < |items| && items[i] == p;
      var j :| 0 <= j < |items| && items[j] == q;
      assert IdList(items)[i] == IdList(items)[j];
    }
  }

  /** In a plan with distinct ids an id is either collected or omitted, never both, and no other is either. */
  lemma {:induction false} CollectedOrOmitted(world: World, items: seq<PlannedItem>, p: PlannedItem)
    requires NoDuplicates(IdList(items)) && p in items
    requires Answered(world, items) && Answered(world, HandlingOrder(items))
    ensures p.itemId in OmittedOf(world, HandlingOrder(items)) <==> Omitted(world, p)
    ensures p.itemId in ItemsOf(world, HandlingOrder(items)) <==> !Omitted(world, p)
  {
    var done := HandlingOrder(items);
    ItemsOfMeaning(world, done);
    DistinctIdsIdentify(items);
    HandlingOrderMembers(items);
    var k :| 0 <= k < |done| && done[k] == p;
    forall j | 0 <= j < |done| && done[j].itemId == p.itemId
      ensures done[j] == p
    {
      assert done[j] in done;
    }
  }

  lemma {:induction false} ItemValue(world: World, done: seq<PlannedItem>, p: PlannedItem)
    requires Answered(world, done) && IdsIdentify(done) && p in done && !Omitted(world, p)
    ensures p.itemId in ItemsOf(world, done) && ItemsOf(world, done)[p.itemId] == Collected(world, p)
  {
    var n := |done| - 1;
    if done[n] != p {
      assert done == done[..n] + [done[n]];
      assert p in done[..n];
      assert IdsIdentify(done[..n]);
      ItemValue(world, done[..n], p);
      assert done[n] in done && done[n].itemId != p.itemId;
    }
  }

  /** The collected keys are the plan ids that are not omitted. */
  lemma {:induction false} KeysAreKept(world: World, items: seq<PlannedItem>)
    requires NoDuplicates(IdList(items)) && Answered(world, items) && Answered(world, HandlingOrder(items))
    ensures var done := HandlingOrder(items);
            forall id :: id in ItemsOf(world, done) <==> id in Keep(IdList(items), OmittedOf(world, done))
    ensures ItemsOf(world, HandlingOrder(items)).Keys !! OmittedOf(world, HandlingOrder(items))
  {
    var done := HandlingOrder(items);
    ItemsOfMeaning(world, done);
    KeepMeaning(IdList(items), OmittedOf(world, done));
    HandlingOrderMembers(items);
    forall id
      ensures id in ItemsOf(world, done) <==> id in IdList(items) && id !in OmittedOf(world, done)
      ensures id in ItemsOf(world, done) ==> id !in OmittedOf(world, done)
    {
      if id in IdList(items) {
        var i :| 0 <= i < |items| && IdList(items)[i] == id;
        CollectedOrOmitted(world, items, items[i]);
      } else {
        forall k | 0 <= k < |done|
          ensures done[k].itemId != id
        {
          assert done[k] in done && done[k] in items;
          var i :| 0 <= i < |items| && items[i] == done[k];
          assert IdList(items)[i] == done[k].itemId;
        }
      }
    }
  }

  lemma AnsweredPart(world: World, whole: seq<PlannedItem>, part: seq<PlannedItem>)
    requires Answered(world, whole) && forall p :: p in part ==> p in whole
    ensures Answered(world, part)
  {
    forall k | 0 <= k < |part|
      ensures part[k].itemId in world.answers
    {
      assert part[k] in whole;
    }
  }

  lemma {:induction false} AnsweredInOrder(world: World, items: seq<PlannedItem>)
    requires Answered(world, items)
    ensures Answered(world, HandlingOrder(items))
    ensures Answered(world, Only(items, false)) && Answered(world, Only(items, true))
  {
    HandlingOrderMembers(items);
    var done := HandlingOrder(items);
    AnsweredPart(world, items, done);
    AnsweredPart(world, items, Only(items, false));
    AnsweredPart(world, items, Only(items, true));
  }

  /** What a complete collection has to leave behind. */
  ghost predicate Accounted(world: World, plan: Plan, items: map<string, CollectedItem>, sections: seq<PlanSection>,
                            progress: seq<string>)
    requires Answered(world, plan.items)
  {
    && (forall p :: p in plan.items ==> (p.itemId in items <==> !Omitted(world, p)))
    && (forall p :: p in plan.items && !Omitted(world, p) ==> items[p.itemId] == Collected(world, p))
    && (forall id :: id in items <==> id in Concat(sections))
    && NoDuplicates(Concat(sections))
    && (exists omitted :: Concat(sections) == Keep(IdList(plan.items), omitted)
          && forall p :: p in plan.items ==> (p.itemId in omitted <==> Omitted(world, p)))
    && multiset(progress) == multiset(IdList(plan.items))
  }

  lemma ProgressOnce(items: seq<PlannedItem>)
    ensures multiset(IdList(HandlingOrder(items))) == multiset(IdList(items))
  {
    OnlyIds(items);
    IdListAppend(Only(items, false), Only(items, true));
  }

  lemma {:induction false} OnlyIds(items: seq<PlannedItem>)
    ensures multiset(IdList(Only(items, false))) + multiset(IdList(Only(items, true))) == multiset(IdList(items))
  {
    if items != [] {
      var init, last := items[..|items| - 1], items[|items| - 1];
      OnlyIds(init);
      IdListAppend(init, [last]);
      IdListAppend(Only(init, Deferred(last)), [last]);
      assert items == init + [last];
      assert IdList([last]) == [last.itemId];
      assert Only(init, !Deferred(last)) + [] == Only(init, !Deferred(last));
    }
  }

  lemma {:induction false} AccountedAtEnd(world: World, plan: Plan)
    requires NoDuplicates(IdList(plan.items)) && Concat(plan.sections) == IdList(plan.items)
    requires Answered(world, plan.items) && Answered(world, HandlingOrder(plan.items))
    ensures var done := HandlingOrder(plan.items);
            var omitted := OmittedOf(world, done);
            Accounted(world, plan, ItemsOf(world, done) - omitted, Retained(plan.sections, omitted), IdList(done))
  {
    var done := HandlingOrder(plan.items);
    var omitted := OmittedOf(world, done);
    var items := ItemsOf(world, done);
    KeysAreKept(world, plan.items);
    assert items - omitted == items;
    RetainedConcat(plan.sections, omitted);
    KeepMeaning(IdList(plan.items), omitted);
    ProgressOnce(plan.items);
    DistinctIdsIdentify(plan.items);
    HandlingOrderMembers(plan.items);
    forall p | p in plan.items
      ensures p.itemId in items <==> !Omitted(world, p)
      ensures p.itemId in omitted <==> Omitted(world, p)
      ensures !Omitted(world, p) ==> items[p.itemId] == Collected(world, p)
    {
      CollectedOrOmitted(world, plan.items, p);
      if !Omitted(world, p) {
        assert IdsIdentify(done);
        ItemValue(world, done, p);
      }
    }
  }

  /** Both loops. */
  method HandlePlan(world: World, items: seq<PlannedItem>, failFast: bool)
    returns (collected: map<string, CollectedItem>, omitted: set<string>, progress: seq<string>, failed: Option<string>)
    requires Answered(world, items) && Answered(world, HandlingOrder(items))
    ensures failed.None? ==> Handled(world, HandlingOrder(items), collected, omitted, progress)
    ensures failed.Some? ==>
              failFast && FailedIn(world, items, failed.value)
              && FirstFailure(world, HandlingOrder(items), failed.value)
    ensures failFast && failed.None? ==> NoFailure(world, items)
  {
    AnsweredInOrder(world, items);
    var now, metrics := SplitMetrics(items);
    collected, omitted, progress, failed := HandleAll(world, now, failFast, map[], {}, [], []);
    if failed.Some? {
      FailedInPart(world, items, false, failed.value);
      FirstOfFirst(world, now, metrics, failed.value);
      return;
    }
    assert [] + now == now;
    collected, omitted, progress, failed := HandleAll(world, metrics, failFast, collected, omitted, progress, now);
    if failed.Some? {
      FailedInPart(world, items, true, failed.value);
      FirstOfSecond(world, now, metrics, failed.value);
    } else if failFast {
      NoFailureAtAll(world, items);
    }
  }

  lemma {:induction false} FailedInPart(world: World, items: seq<PlannedItem>, deferred: bool, id: string)
    requires FailedIn(world, Only(items, deferred), id)
    ensures FailedIn(world, items, id)
  {
    var part := Only(items, deferred);
    var i :| 0 <= i < |part| && part[i].itemId == id && !Omitted(world, part[i])
      && Failed(Collected(world, part[i]).status);
    HandlingOrderMembers(items);
    assert part[i] in HandlingOrder(items) && part[i] in items;
  }

  lemma FirstOfFirst(world: World, a: seq<PlannedItem>, b: seq<PlannedItem>, id: string)
    requires FirstFailure(world, a, id)
    ensures FirstFailure(world, a + b, id)
  {
    var i :| 0 <= i < |a| && FailsAt(world, a, i) && a[i].itemId == id && NoFailure(world, a[..i]);
    assert (a + b)[..i] == a[..i] && FailsAt(world, a + b, i);
  }

  lemma FirstOfSecond(world: World, a: seq<PlannedItem>, b: seq<PlannedItem>, id: string)
    requires NoFailure(world, a) && FirstFailure(world, b, id)
    ensures FirstFailure(world, a + b, id)
  {
    var i :| 0 <= i < |b| && FailsAt(world, b, i) && b[i].itemId == id && NoFailure(world, b[..i]);
    var at := |a| + i;
    assert (a + b)[..at] == a + b[..i] && FailsAt(world, a + b, at);
    forall k | 0 <= k < at
      ensures (a + b[..i])[k] == if k < |a| then a[k] else b[..i][k - |a|]
    {
    }
  }

  lemma {:induction false} NoFailureAtAll(world: World, items: seq<PlannedItem>)
    requires NoFailure(world, Only(items, false)) && NoFailure(world, Only(items, true))
    ensures NoFailure(world, items)
  {
    HandlingOrderMembers(items);
    forall i | 0 <= i < |items| && items[i].itemId in world.answers && !Omitted(world, items[i])
      ensures !Failed(Collected(world, items[i]).status)
    {
      assert items[i] in HandlingOrder(items);
      assert items[i] in Only(items, false) || items[i] in Only(items, true);
    }
  }

  /**
   _collect_target: for any answers the artifact accounts for every plan item,
   its reference checks pass, and progress hears of each item once.
   */
  method CollectTarget(plan: Plan, world: World, failFast: bool)
    returns (result: Result<Artifact, CollectError>, progress: seq<string>)
    requires NoDuplicates(IdList(plan.items)) && Concat(plan.sections) == IdList(plan.items)
    requires Answered(world, plan.items)
    ensures !failFast ==> result.Ok?
    ensures result.Ok? ==>
              fresh(result.value) && Accounted(world, plan, result.value.items, result.value.sections, progress)
    ensures result.Ok? && failFast ==> NoFailure(world, plan.items)
    ensures result.Err? ==>
              FailedIn(world, plan.items, result.error.itemId)
              && FirstFailure(world, HandlingOrder(plan.items), result.error.itemId)
  {
    AnsweredInOrder(world, plan.items);
    var artifact := new Artifact(plan.sections);
    var items, omitted, failed;
    items, omitted, progress, failed := HandlePlan(world, plan.items, failFast);
    if failed.Some? {
      return Err(FailFast(failed.value)), progress;
    }
    artifact.items := items;
    artifact.OmitUncollected(omitted);
    AccountedAtEnd(world, plan);
    var valid := artifact.ValidateReferences();
    assert valid;
    result := Ok(artifact);
  }
}
