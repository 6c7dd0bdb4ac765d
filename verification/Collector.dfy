/** What running a planned item and its fallback comes to, and the artifact that keeps the results. */
module Collector {
  import opened Prelude
  import opened Content
  import opened Planner
  import opened PlanLaws

  datatype CollectionStatus =
    | StatusOk | StatusEmpty | StatusError | StatusUnsupported | StatusPermissionDenied | StatusTimeout | StatusSkipped

  datatype Diagnostic = Diagnostic(failureKind: Option<string>, code: Option<string>)

  /** What running a source came to; exceptions are already turned into error items. */
  datatype Execution = Execution(status: CollectionStatus, diagnostics: seq<Diagnostic>, coverageIncomplete: bool)

  datatype CollectedItem = CollectedItem(
    itemId: string, status: CollectionStatus, coverageIncomplete: bool, fallbackTrigger: Option<string>)

  predicate Failed(status: CollectionStatus) {
    status == StatusError || status == StatusPermissionDenied || status == StatusTimeout
  }

  predicate Successful(status: CollectionStatus) {
    status == StatusOk || status == StatusEmpty
  }

  /** Every status is successful, failed, or one of the two that say that nothing was attempted. */
  lemma StatusKinds(status: CollectionStatus)
    ensures !(Successful(status) && Failed(status))
    ensures !Successful(status) && !Failed(status) <==> status == StatusUnsupported || status == StatusSkipped
    ensures Successful(StatusOk) && Successful(StatusEmpty)
    ensures Failed(StatusError) && Failed(StatusPermissionDenied) && Failed(StatusTimeout)
  {
  }

  // ---- one item, with its fallback ----

  function DiagnosticTrigger(d: Diagnostic, allowed: seq<string>): Option<string> {
    if d.failureKind.Some? && d.failureKind.value in allowed then d.failureKind
    else if d.code.Some? && d.code.value in allowed then d.code
    else None
  }

  /** The first diagnostic that names an allowed trigger. */
  function FirstTrigger(diagnostics: seq<Diagnostic>, allowed: seq<string>): (trigger: Option<string>)
    ensures trigger.Some? ==> trigger.value in allowed
  {
    if diagnostics == [] then None
    else if DiagnosticTrigger(diagnostics[0], allowed).Some? then DiagnosticTrigger(diagnostics[0], allowed)
    else FirstTrigger(diagnostics[1..], allowed)
  }

  /** _fallback_trigger */
  function FallbackTrigger(e: Execution, allowed: seq<string>): (trigger: Option<string>)
    ensures trigger.Some? ==> trigger.value in allowed && !Successful(e.status)
  {
    if Successful(e.status) || allowed == [] then None else FirstTrigger(e.diagnostics, allowed)
  }

  /** A diagnostic names a text: its failure kind, or else its code, is among the allowed ones. */
  predicate Names(d: Diagnostic, allowed: seq<string>, t: string) {
    && t in allowed
    && (d.failureKind == Some(t)
        || (d.code == Some(t) && forall kind :: d.failureKind == Some(kind) ==> kind !in allowed))
  }

  /** Diagnostic k is the first that names an allowed text, and it names t. */
  predicate FirstNamed(diagnostics: seq<Diagnostic>, allowed: seq<string>, k: nat, t: string) {
    && k < |diagnostics| && Names(diagnostics[k], allowed, t)
    && forall j, u :: 0 <= j < k && u in allowed ==> !Names(diagnostics[j], allowed, u)
  }

  lemma {:induction false} FirstTriggerMeaning(diagnostics: seq<Diagnostic>, allowed: seq<string>, t: string)
    ensures FirstTrigger(diagnostics, allowed) == Some(t) <==> exists k: nat :: FirstNamed(diagnostics, allowed, k, t)
  {
    if diagnostics != [] {
      FirstTriggerMeaning(diagnostics[1..], allowed, t);
      if DiagnosticTrigger(diagnostics[0], allowed) == Some(t) {
        assert FirstNamed(diagnostics, allowed, 0, t);
      } else if k: nat :| FirstNamed(diagnostics[1..], allowed, k, t) {
        if DiagnosticTrigger(diagnostics[0], allowed).None? {
          FirstNamedLater(diagnostics, allowed, k, t);
        } else {
          NotFirstNamed(diagnostics, allowed, t);
        }
      } else {
        NotFirstNamed(diagnostics, allowed, t);
      }
    }
  }

  lemma FirstNamedLater(diagnostics: seq<Diagnostic>, allowed: seq<string>, k: nat, t: string)
    requires diagnostics != [] && DiagnosticTrigger(diagnostics[0], allowed).None?
    requires FirstNamed(diagnostics[1..], allowed, k, t)
    ensures FirstNamed(diagnostics, allowed, k + 1, t)
  {
    forall j, u | 0 <= j < k + 1 && u in allowed
      ensures !Names(diagnostics[j], allowed, u)
    {
      if j > 0 {
        assert diagnostics[j] == diagnostics[1..][j - 1];
      }
    }
  }

  lemma NotFirstNamed(diagnostics: seq<Diagnostic>, allowed: seq<string>, t: string)
    requires diagnostics != [] && DiagnosticTrigger(diagnostics[0], allowed) != Some(t)
    requires DiagnosticTrigger(diagnostics[0], allowed).None? ==>
               !exists k: nat :: FirstNamed(diagnostics[1..], allowed, k, t)
    ensures !exists k: nat :: FirstNamed(diagnostics, allowed, k, t)
  {
    if k: nat :| FirstNamed(diagnostics, allowed, k, t) {
      if DiagnosticTrigger(diagnostics[0], allowed).Some? {
        assert Names(diagnostics[0], allowed, DiagnosticTrigger(diagnostics[0], allowed).value);
      } else if k > 0 {
        assert FirstNamed(diagnostics[1..], allowed, k - 1, t);
      }
    }
  }

  /** A fallback is due to t: the primary failed and t is the first allowed text its diagnostics name. */
  lemma FallbackTriggerMeaning(e: Execution, allowed: seq<string>, t: string)
    ensures FallbackTrigger(e, allowed) == Some(t) <==>
              !Successful(e.status) && exists k: nat :: FirstNamed(e.diagnostics, allowed, k, t)
  {
    FirstTriggerMeaning(e.diagnostics, allowed, t);
  }

  /** What the sources of an item answer when they are run. */
  datatype Answers = Answers(primary: Execution, fallback: Execution)

  /** _execute_item_safely: the primary, or its fallback under the identity of the primary. */
  function ExecuteSafely(p: PlannedItem, answers: Answers): (item: CollectedItem)
    ensures item.itemId == p.itemId
    ensures item.fallbackTrigger.Some? ==>
              p.fallback.Some? && item.fallbackTrigger == FallbackTrigger(answers.primary, p.fallbackOn)
              && item.fallbackTrigger.value in p.fallbackOn && !Successful(answers.primary.status)
    ensures item.fallbackTrigger.None? && p.fallback.Some? ==> FallbackTrigger(answers.primary, p.fallbackOn).None?
    ensures var effective := if item.fallbackTrigger.Some? then answers.fallback else answers.primary;
            item.status == effective.status && item.coverageIncomplete == effective.coverageIncomplete
  {
    var trigger := FallbackTrigger(answers.primary, p.fallbackOn);
    if trigger.None? || p.fallback.None? then
      CollectedItem(p.itemId, answers.primary.status, answers.primary.coverageIncomplete, None)
    else
      CollectedItem(p.itemId, answers.fallback.status, answers.fallback.coverageIncomplete, trigger)
  }

  // ---- the verdict on each plan item ----

  /** The answers of every source, and whether the metric collection as a whole raised. */
  datatype World = World(answers: map<string, Answers>, metricsRaise: bool)

  predicate Answered(world: World, items: seq<PlannedItem>) {
    forall i :: 0 <= i < |items| ==> items[i].itemId in world.answers
  }

  /** The item as it comes back, before unsupported ones are omitted. */
  function Collected(world: World, p: PlannedItem): CollectedItem
    requires p.itemId in world.answers
  {
    if p.kind == MetricKind then
      if world.metricsRaise then CollectedItem(p.itemId, StatusError, false, None)
      else
        var e := world.answers[p.itemId].primary;
        CollectedItem(p.itemId, e.status, e.coverageIncomplete, None)
    else ExecuteSafely(p, world.answers[p.itemId])
  }

  predicate Omitted(world: World, p: PlannedItem)
    requires p.itemId in world.answers
  {
    p.status == Skipped || Collected(world, p).status == StatusUnsupported
  }

  /** The primary failed, and its diagnostics name a trigger of the fallback. */
  ghost predicate FallsBack(p: PlannedItem, primary: Execution) {
    && p.kind != MetricKind && p.fallback.Some? && !Successful(primary.status)
    && exists k: nat, t: string :: FirstNamed(primary.diagnostics, p.fallbackOn, k, t)
  }

  /** What the artifact records of an item, and when it is left out. */
  lemma CollectedMeaning(world: World, p: PlannedItem)
    requires p.itemId in world.answers
    ensures var item, answers := Collected(world, p), world.answers[p.itemId];
            && item.itemId == p.itemId
            && (p.kind == MetricKind && world.metricsRaise ==>
                  item.status == StatusError && item.fallbackTrigger.None?)
            && (!(p.kind == MetricKind && world.metricsRaise) ==>
                  var answer := if FallsBack(p, answers.primary) then answers.fallback else answers.primary;
                  item.status == answer.status && item.coverageIncomplete == answer.coverageIncomplete)
            && (item.fallbackTrigger.Some? <==> FallsBack(p, answers.primary))
            && (Omitted(world, p) <==> p.status == Skipped || item.status == StatusUnsupported)
  {
    var primary := world.answers[p.itemId].primary;
    var trigger := FallbackTrigger(primary, p.fallbackOn);
    if trigger.Some? {
      FallbackTriggerMeaning(primary, p.fallbackOn, trigger.value);
    }
    if k: nat, t: string :| FirstNamed(primary.diagnostics, p.fallbackOn, k, t) {
      FallbackTriggerMeaning(primary, p.fallbackOn, t);
    }
  }

  function ItemsOf(world: World, done: seq<PlannedItem>): map<string, CollectedItem>
    requires Answered(world, done)
  {
    if done == [] then map[]
    else
      var p := done[|done| - 1];
      var before := ItemsOf(world, done[..|done| - 1]);
      if Omitted(world, p) then before else before[p.itemId := Collected(world, p)]
  }

  function OmittedOf(world: World, done: seq<PlannedItem>): set<string>
    requires Answered(world, done)
  {
    if done == [] then {}
    else
      var p := done[|done| - 1];
      OmittedOf(world, done[..|done| - 1]) + if Omitted(world, p) then {p.itemId} else {}
  }

  // ---- the artifact ----

  class Artifact {
    var items: map<string, CollectedItem>
    var sections: seq<PlanSection>

    constructor (sections: seq<PlanSection>)
      ensures items == map[] && this.sections == sections
    {
      this.items, this.sections := map[], sections;
    }

    /** omit_uncollected_items */
    method OmitUncollected(omitted: set<string>)
      modifies this
      ensures items == old(items) - omitted
      ensures sections == Retained(old(sections), omitted)
    {
      items := items - omitted;
      var retained := [];
      for k := 0 to |sections|
        invariant sections == old(sections) && retained == Retained(sections[..k], omitted)
        invariant items == old(items) - omitted
      {
        assert sections[..k + 1][..k] == sections[..k];
        var kept := Keep(sections[k].items, omitted);
        if kept != [] {
          retained := retained + [PlanSection(sections[k].id, kept)];
        }
      }
      assert sections[..|sections|] == sections;
      sections := retained;
    }

    /** The reference checks of validate_artifact; false where they raise. */
    method ValidateReferences() returns (ok: bool)
      ensures ok <==> NoDuplicates(Concat(sections)) && forall id :: id in items <==> id in Concat(sections)
    {
      var referenced: set<string> := {};
      for k := 0 to |sections|
        invariant NoDuplicates(Concat(sections[..k]))
        invariant forall id :: id in referenced <==> id in Concat(sections[..k])
      {
        assert sections[..k + 1][..k] == sections[..k];
        ConcatPrefix(sections, k + 1);
        var fits;
        referenced, fits := AddReferences(referenced, sections[k].items, Concat(sections[..k]));
        if !fits {
          return false;
        }
      }
      assert sections[..|sections|] == sections;
      ok := referenced == items.Keys;
    }
  }

  /** The loop over the items of one section. */
  method AddReferences(referenced: set<string>, ids: seq<string>, ghost before: seq<string>)
    returns (more: set<string>, ok: bool)
    requires NoDuplicates(before) && forall id :: id in referenced <==> id in before
    ensures ok <==> NoDuplicates(before + ids)
    ensures ok ==> forall id :: id in more <==> id in before + ids
  {
    more := referenced;
    assert before + [] == before;
    for i := 0 to |ids|
      invariant NoDuplicates(before + ids[..i])
      invariant forall id :: id in more <==> id in before + ids[..i]
    {
      ghost var sofar := before + ids[..i];
      assert sofar + [ids[i]] == before + ids[..i + 1];
      assert before + ids == sofar + ids[i..];
      if ids[i] in more {
        Repeated(sofar, ids[i..]);
        return more, false;
      }
      more := more + {ids[i]};
    }
    assert ids[..|ids|] == ids;
    ok := true;
  }

  lemma {:induction false} ConcatPrefix(sections: seq<PlanSection>, k: nat)
    requires k <= |sections|
    ensures Concat(sections[..k]) <= Concat(sections)
    ensures NoDuplicates(Concat(sections)) ==> NoDuplicates(Concat(sections[..k]))
  {
    if k < |sections| {
      var init := sections[..|sections| - 1];
      ConcatPrefix(init, k);
      assert init[..k] == sections[..k];
      assert Concat(init) <= Concat(sections);
    } else {
      assert sections[..k] == sections;
    }
  }

  /** [item_id for item_id in ids if item_id not in omitted] */
  function Keep(ids: seq<string>, omitted: set<string>): seq<string> {
    if ids == [] then []
    else Keep(ids[..|ids| - 1], omitted) + if ids[|ids| - 1] in omitted then [] else [ids[|ids| - 1]]
  }

  function Retained(sections: seq<PlanSection>, omitted: set<string>): seq<PlanSection> {
    if sections == [] then []
    else
      var last := sections[|sections| - 1];
      Retained(sections[..|sections| - 1], omitted)
      + if Keep(last.items, omitted) == [] then [] else [PlanSection(last.id, Keep(last.items, omitted))]
  }

  lemma {:induction false} KeepAppend(a: seq<string>, b: seq<string>, omitted: set<string>)
    ensures Keep(a + b, omitted) == Keep(a, omitted) + Keep(b, omitted)
  {
    if b == [] {
      assert a + b == a;
    } else {
      KeepAppend(a, b[..|b| - 1], omitted);
      assert (a + b)[..|a + b| - 1] == a + b[..|b| - 1];
    }
  }

  lemma {:induction false} KeepMeaning(ids: seq<string>, omitted: set<string>)
    ensures forall id :: id in Keep(ids, omitted) <==> id in ids && id !in omitted
    ensures NoDuplicates(ids) ==> NoDuplicates(Keep(ids, omitted))
  {
    if ids != [] {
      KeepMeaning(ids[..|ids| - 1], omitted);
      assert ids == ids[..|ids| - 1] + [ids[|ids| - 1]];
    }
  }

  /** Omitting items section by section omits them from the plan order. */
  lemma {:induction false} RetainedConcat(sections: seq<PlanSection>, omitted: set<string>)
    ensures Concat(Retained(sections, omitted)) == Keep(Concat(sections), omitted)
  {
    if sections != [] {
      var init, last := sections[..|sections| - 1], sections[|sections| - 1];
      RetainedConcat(init, omitted);
      KeepAppend(Concat(init), last.items, omitted);
      var front := Retained(init, omitted);
      var kept := Keep(last.items, omitted);
      if kept == [] {
        assert front + [] == front && Concat(front) + kept == Concat(front);
      } else {
        ConcatAppend(front, PlanSection(last.id, kept));
      }
    }
  }
}
