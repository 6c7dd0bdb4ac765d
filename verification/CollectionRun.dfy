/** One target from validated content to a finished artifact. */
module CollectionRun {
  import opened Prelude
  import opened Versioning
  import opened Content
  import opened ContentValidator
  import opened Planner
  import opened PlanLaws
  import opened PlanExact
  import opened Collector
  import opened CollectTarget

  /** The plan of validated content lists each item once, section by section. */
  lemma {:induction false} PlanFitsCollection(
      content: ContentPack, version: Option<Version>, mode: Mode, collection: CollectionMode,
      scope: Scope, selection: Selection, items: seq<PlannedItem>)
    requires ContentOk(content) && DistinctSections(content.sections)
    requires AllPlannable(content, ReportItems(content.sections))
    requires PlanItems(content, ReportItems(content.sections), version, mode, collection, scope, selection) == Ok(items)
    ensures NoDuplicates(IdList(items)) && Concat(SectionsOf(content.sections, items)) == IdList(items)
  {
    SectionsFollowPlan(content, content.sections, version, mode, collection, scope, selection, items);
    PlannedIdsDistinct(content, ReportItems(content.sections), version, mode, collection, scope, selection);
  }

  /**
   Plan and collect one target.  With validated content, the transports opened
   for the selection and a version that is not too old, nothing raises without
   fail_fast, every planned item runs over an open transport, and the artifact
   accounts for the whole plan.
   */
  method CollectSelection(content: ContentPack, version: Option<Version>, mode: Mode, collection: CollectionMode,
                          scope: Scope, selection: Selection, t: Transports, world: World, failFast: bool)
    returns (plan: Plan, result: Result<Artifact, CollectError>, progress: seq<string>)
    requires ContentOk(content) && DistinctSections(content.sections)
    requires SourcesOk(content, ReportItems(content.sections))
    requires OpenedFor(content, mode, collection, scope, selection, t) && VersionRead(content, t, version)
    requires forall r :: r in ReportItems(content.sections) ==> r.itemId in world.answers
    ensures AllPlannable(content, ReportItems(content.sections))
    ensures PlanItems(content, ReportItems(content.sections), version, mode, collection, t.scope, selection)
         == Ok(plan.items)
    ensures plan.sections == SectionsOf(content.sections, plan.items)
    ensures exists picks :: PlanIs(content, ReportItems(content.sections), version, mode, collection, scope, selection,
                                   plan.items, picks)
    ensures Answered(world, plan.items)
    ensures forall p :: p in plan.items && p.status == Planned ==>
              Reachable(p.target, t) && (p.fallback.Some? ==> Reachable(p.fallback.value.target, t))
    ensures result.Ok? <==> !failFast || NoFailure(world, plan.items)
    ensures result.Ok? ==> Accounted(world, plan, result.value.items, result.value.sections, progress)
  {
    ContentIsPlannable(content);
    TransportSufficiency(content, mode, collection, scope, selection, t, version);
    var built := BuildPlan(content, version, mode, collection, t.scope, selection);
    plan := built.value;
    PlanOfSelection(content, version, mode, collection, scope, selection, t);
    PlanFitsCollection(content, version, mode, collection, t.scope, selection, plan.items);
    AnsweredPlan(content, version, mode, collection, t.scope, selection, plan.items, world);
    result, progress := CollectTarget.CollectTarget(plan, world, failFast);
  }

  lemma {:induction false} PlanOfSelection(
      content: ContentPack, version: Option<Version>, mode: Mode, collection: CollectionMode,
      scope: Scope, selection: Selection, t: Transports)
    requires ContentOk(content) && SourcesOk(content, ReportItems(content.sections))
    requires AllPlannable(content, ReportItems(content.sections))
    requires OpenedFor(content, mode, collection, scope, selection, t) && VersionRead(content, t, version)
    ensures PlanItems(content, ReportItems(content.sections), version, mode, collection, scope, selection).Ok?
    ensures exists picks :: PlanIs(
              content, ReportItems(content.sections), version, mode, collection, scope, selection,
              PlanItems(content, ReportItems(content.sections), version, mode, collection, scope, selection).value,
              picks)
  {
    var report := ReportItems(content.sections);
    forall i | 0 <= i < |report| && Wanted(selection, report[i])
      ensures VersionServes(content, report[i], version)
    {
      WantedIsSelected(selection, report[i]);
      KindIs(report[i].item);
      if report[i].item.query.Some? {
        NoDatabaseNoQuery(content, mode, collection, scope, selection, i);
      }
    }
    var picks := PlanIsExact(content, report, version, mode, collection, scope, selection);
  }

  lemma {:induction false} AnsweredPlan(
      content: ContentPack, version: Option<Version>, mode: Mode, collection: CollectionMode,
      scope: Scope, selection: Selection, items: seq<PlannedItem>, world: World)
    requires AllPlannable(content, ReportItems(content.sections))
    requires PlanItems(content, ReportItems(content.sections), version, mode, collection, scope, selection) == Ok(items)
    requires forall r :: r in ReportItems(content.sections) ==> r.itemId in world.answers
    ensures Answered(world, items)
  {
    forall k | 0 <= k < |items|
      ensures items[k].itemId in world.answers
    {
      var i :=
        PlannedFrom(content, ReportItems(content.sections), version, mode, collection, scope, selection, items[k]);
      assert ReportItems(content.sections)[i] in ReportItems(content.sections);
    }
  }

  // ---- the collection summary ----

  datatype Completion = CompletionSucceeded | CompletionPartial | CompletionFailed

  datatype Summary = Summary(
    total: nat, successful: nat, complete: nat, failed: nat, incomplete: nat, fallbacks: nat, completion: Completion)

  function Count(items: map<string, CollectedItem>, test: CollectedItem -> bool): nat {
    |set id | id in items && test(items[id])|
  }

  predicate IsSuccessful(item: CollectedItem) {
    Successful(item.status)
  }

  predicate IsFailed(item: CollectedItem) {
    Failed(item.status)
  }

  predicate IsIncomplete(item: CollectedItem) {
    item.coverageIncomplete
  }

  predicate HasFallback(item: CollectedItem) {
    item.fallbackTrigger.Some?
  }

  predicate IsComplete(item: CollectedItem) {
    Successful(item.status) && !item.coverageIncomplete
  }

  /** The counting loop over the items, one test at a time. */
  method CountItems(items: map<string, CollectedItem>, test: CollectedItem -> bool) returns (count: nat)
    ensures count == Count(items, test)
  {
    count := 0;
    var rest := items.Keys;
    ghost var counted: set<string> := {};
    while rest != {}
      invariant rest <= items.Keys
      invariant counted == set id | id in items && id !in rest && test(items[id])
      invariant count == |counted|
      decreases |rest|
    {
      var id := Pick(rest);
      rest := rest - {id};
      if test(items[id]) {
        count := count + 1;
        counted := counted + {id};
      }
    }
    assert counted == set id | id in items && test(items[id]);
  }

  /** The completion status follows from three of the counts. */
  method CompletionOf(items: map<string, CollectedItem>, successful: nat, failed: nat, incomplete: nat)
    returns (completion: Completion)
    requires successful == Count(items, IsSuccessful) && failed == Count(items, IsFailed)
    requires incomplete == Count(items, IsIncomplete)
    ensures completion == CompletionSucceeded <==>
              forall id :: id in items ==> !Failed(items[id].status) && !items[id].coverageIncomplete
    ensures completion == CompletionFailed <==>
              ((exists id :: id in items && Failed(items[id].status))
               && forall id :: id in items ==> !Successful(items[id].status))
  {
    CountZero(items, IsSuccessful);
    CountZero(items, IsFailed);
    CountZero(items, IsIncomplete);
    if failed > 0 && successful == 0 {
      completion := CompletionFailed;
    } else if failed > 0 || incomplete > 0 {
      completion := CompletionPartial;
    } else {
      completion := CompletionSucceeded;
    }
  }

  /** finalize_collection_summary */
  method FinalizeSummary(items: map<string, CollectedItem>) returns (summary: Summary)
    ensures summary.total == |items|
    ensures summary.successful == Count(items, IsSuccessful)
    ensures summary.failed == Count(items, IsFailed)
    ensures summary.incomplete == Count(items, IsIncomplete)
    ensures summary.complete == Count(items, IsComplete)
    ensures summary.fallbacks == Count(items, HasFallback)
    ensures summary.complete <= summary.successful && summary.successful + summary.failed <= summary.total
    ensures summary.completion == CompletionSucceeded <==>
              forall id :: id in items ==> !Failed(items[id].status) && !items[id].coverageIncomplete
    ensures summary.completion == CompletionFailed <==>
              ((exists id :: id in items && Failed(items[id].status))
               && forall id :: id in items ==> !Successful(items[id].status))
  {
    var successful := CountItems(items, IsSuccessful);
    var failed := CountItems(items, IsFailed);
    var incomplete := CountItems(items, IsIncomplete);
    var complete := CountItems(items, IsComplete);
    var fallbacks := CountItems(items, HasFallback);
    var completion := CompletionOf(items, successful, failed, incomplete);
    CountSubset(items, IsComplete, IsSuccessful);
    CountDisjoint(items, IsSuccessful, IsFailed);
    summary := Summary(|items|, successful, complete, failed, incomplete, fallbacks, completion);
  }

  lemma CountZero(items: map<string, CollectedItem>, test: CollectedItem -> bool)
    ensures Count(items, test) == 0 <==> forall id :: id in items ==> !test(items[id])
  {
    var hits := set id | id in items && test(items[id]);
    assert |hits| == 0 <==> hits == {};
    assert forall id :: id in items ==> (id in hits <==> test(items[id]));
    if hits != {} {
      var id :| id in hits;
      assert id in items && test(items[id]);
    }
  }

  lemma CountSubset(items: map<string, CollectedItem>, narrow: CollectedItem -> bool, wide: CollectedItem -> bool)
    requires forall id :: id in items && narrow(items[id]) ==> wide(items[id])
    ensures Count(items, narrow) <= Count(items, wide)
  {
    var a := set id | id in items && narrow(items[id]);
    var b := set id | id in items && wide(items[id]);
    Subset(a, b);
  }

  lemma CountDisjoint(items: map<string, CollectedItem>, one: CollectedItem -> bool, other: CollectedItem -> bool)
    requires forall id :: id in items ==> !(one(items[id]) && other(items[id]))
    ensures Count(items, one) + Count(items, other) <= |items|
  {
    var a := set id | id in items && one(items[id]);
    var b := set id | id in items && other(items[id]);
    assert a !! b;
    assert |a + b| == |a| + |b|;
    Subset(a + b, items.Keys);
  }

  lemma Subset(a: set<string>, b: set<string>)
    requires a <= b
    ensures |a| <= |b|
  {
    assert a + (b - a) == b;
    assert a !! (b - a);
  }
}
