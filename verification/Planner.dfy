/**
 collection_requirements, the transports that are opened for it, and build_plan.
 */
module Planner {
  import opened Prelude
  import opened Versioning
  import opened Content
  import opened ContentValidator

  datatype Mode = OneShot | Snapshots

  datatype CollectionMode = Local | RemoteDbOnly | Remote

  datatype Target = HostTarget | DatabaseTarget

  /** The normalised --item-id or --tags filter. */
  datatype Selection = Everything | ItemIds(ids: set<string>) | Tags(tags: set<string>)

  predicate Selected(selection: Selection, r: ReportItem) {
    match selection
    case Everything => true
    case ItemIds(ids) => r.itemId in ids
    case Tags(tags) => exists i :: 0 <= i < |r.item.tags| && r.item.tags[i] in tags
  }

  /** _source_targets */
  function SourceTarget(content: ContentPack, kind: Kind, sourceId: string): Target
    requires kind == MetricKind ==> sourceId in content.metrics
  {
    match kind
    case QueryKind => DatabaseTarget
    case ScriptKind => HostTarget
    case MetricKind => if content.metrics[sourceId].sourceQuery.Some? then DatabaseTarget else HostTarget
  }

  function TargetOf(content: ContentPack, item: Item): Target
    requires SourceOk(content, item)
  {
    SourceTarget(content, KindOf(item).value, SourceOf(item))
  }

  /** Does the item call for a transport in this mode? */
  predicate Needs(content: ContentPack, mode: Mode, collection: CollectionMode, selection: Selection, r: ReportItem)
    requires SourceOk(content, r.item)
  {
    && Selected(selection, r)
    && !(KindOf(r.item) == Some(MetricKind) && mode != Snapshots)
    && !(collection == RemoteDbOnly && TargetOf(content, r.item) == HostTarget)
  }

  datatype Requirements = Requirements(hostItems: seq<string>, databaseItems: seq<string>)

  predicate SourcesOk(content: ContentPack, items: seq<ReportItem>) {
    forall i :: 0 <= i < |items| ==> SourceOk(content, items[i].item)
  }

  /** The ids of the items that need a target, in report order. */
  function NeedIds(content: ContentPack, mode: Mode, collection: CollectionMode, selection: Selection,
                   items: seq<ReportItem>, target: Target): seq<string>
    requires SourcesOk(content, items)
  {
    if items == [] then []
    else
      var last := items[|items| - 1];
      NeedIds(content, mode, collection, selection, items[..|items| - 1], target)
      + if Needs(content, mode, collection, selection, last) && TargetOf(content, last.item) == target
        then [last.itemId] else []
  }

  lemma {:induction false} NeedIdsStep(
      content: ContentPack, mode: Mode, collection: CollectionMode, selection: Selection,
      items: seq<ReportItem>, i: nat, target: Target)
    requires SourcesOk(content, items) && i < |items|
    ensures NeedIds(content, mode, collection, selection, items[..i + 1], target)
         == NeedIds(content, mode, collection, selection, items[..i], target)
            + if Needs(content, mode, collection, selection, items[i]) && TargetOf(content, items[i].item) == target
              then [items[i].itemId] else []
  {
    assert items[..i + 1][..i] == items[..i] && items[..i + 1][i] == items[i];
  }

  /** collection_requirements */
  method CollectionRequirements(content: ContentPack, mode: Mode, collection: CollectionMode, scope: Scope,
                                selection: Selection)
    returns (requirements: Requirements)
    requires SourcesOk(content, ReportItems(content.sections))
    ensures var items := ReportItems(content.sections);
            && requirements.hostItems == NeedIds(content, mode, collection, selection, items, HostTarget)
            && (var needed := NeedIds(content, mode, collection, selection, items, DatabaseTarget);
                requirements.databaseItems ==
                  if needed == [] && scope == Cluster then ["<cluster-target-resolution>"] else needed)
  {
    var items := ReportItems(content.sections);
    var hostItems, databaseItems := [], [];
    for i := 0 to |items|
      invariant hostItems == NeedIds(content, mode, collection, selection, items[..i], HostTarget)
      invariant databaseItems == NeedIds(content, mode, collection, selection, items[..i], DatabaseTarget)
    {
      var r := items[i];
      NeedIdsStep(content, mode, collection, selection, items, i, HostTarget);
      NeedIdsStep(content, mode, collection, selection, items, i, DatabaseTarget);
      if !Selected(selection, r) {
        continue;
      }
      var target := TargetOf(content, r.item);
      if KindOf(r.item) == Some(MetricKind) && mode != Snapshots {
        continue;
      }
      if collection == RemoteDbOnly && target == HostTarget {
        continue;
      }
      if target == HostTarget {
        hostItems := hostItems + [r.itemId];
      } else {
        databaseItems := databaseItems + [r.itemId];
      }
    }
    assert items[..|items|] == items;
    if scope == Cluster && databaseItems == [] {
      databaseItems := ["<cluster-target-resolution>"];
    }
    requirements := Requirements(hostItems, databaseItems);
  }

  // ---- transports ----

  datatype Transports = Transports(host: bool, database: bool, scope: Scope)

  datatype OpenError = SshOptionsRequired | SshOptionsNotAllowed

  /** What _collect opens before it plans a target. */
  method OpenTransports(requirements: Requirements, collection: CollectionMode, scope: Scope, sshConfigured: bool)
    returns (transports: Result<Transports, OpenError>)
    ensures transports.Ok? ==>
              && (transports.value.database <==> requirements.databaseItems != [])
              && (transports.value.host <==>
                    ((collection == Local && requirements.hostItems != [])
                     || (collection == Remote && (requirements.hostItems != [] || requirements.databaseItems != []))))
              && transports.value.scope == if requirements.databaseItems != [] then scope else Node
    ensures transports.Err? <==>
              ((collection == Remote && !sshConfigured
                && (requirements.hostItems != [] || requirements.databaseItems != []))
               || (collection != Remote && sshConfigured))
  {
    var requiresSsh := collection == Remote && (requirements.hostItems != [] || requirements.databaseItems != []);
    var hostRunner := false;
    if collection == Remote {
      if requiresSsh && !sshConfigured {
        return Err(SshOptionsRequired);
      }
      if requiresSsh {
        hostRunner := true;
      }
      assert requirements.databaseItems != [] ==> hostRunner;
    } else if sshConfigured {
      return Err(SshOptionsNotAllowed);
    } else if collection == Local && requirements.hostItems != [] {
      hostRunner := true;
    }
    var adapter := requirements.databaseItems != [];
    transports := Ok(Transports(hostRunner, adapter, if adapter then scope else Node));
  }

  // ---- planned items ----

  datatype Status = Planned | Skipped

  datatype PlannedFallback = PlannedFallback(
    itemId: string, kind: Kind, sourceId: string, target: Target, status: Status, variant: Option<Variant>)

  datatype PlannedItem = PlannedItem(
    itemId: string, sectionId: string, kind: Kind, sourceId: string, target: Target, status: Status,
    variant: Option<Variant>, fallbackOn: seq<string>, fallback: Option<PlannedFallback>)

  datatype PlanError =
    | VersionRequired          // the first check of build_plan
    | UnsupportedVersion       // older than the earliest LTS branch
    | VersionAssertion         // assert server_version is not None
    | OverlappingVariants      // select_variant raises
    | FallbackVersionRequired  // a query fallback without a server version

  /** A query planned for a version: its status and variant, or the error of select_variant. */
  function PlanQuery(content: ContentPack, queryId: string, version: Version, scope: Scope)
    : Result<(Status, Option<Variant>), PlanError>
    requires queryId in content.queries && AllParse(content.supported)
  {
    match SelectVariant(content.queries[queryId].variants, version, scope, content.supported)
    case Err(_) => Err(OverlappingVariants)
    case Ok(None) => Ok((Skipped, None))
    case Ok(Some(v)) => Ok((Planned, Some(v)))
  }

  /** _attach_fallback */
  function PlanFallback(content: ContentPack, r: ReportItem, version: Option<Version>, scope: Scope,
                        collection: CollectionMode)
    : Result<Option<PlannedFallback>, PlanError>
    requires AllParse(content.supported)
    requires FallbackOk(content, r.item)
    requires r.item.fallbackItem.Some? ==>
               FallbackItemOk(content, r.item.fallbackItem.value, content.fallbackItems[r.item.fallbackItem.value], {})
  {
    if r.item.fallbackItem.None? then Ok(None)
    else
      var id := r.item.fallbackItem.value;
      var definition := content.fallbackItems[id];
      if definition.query.Some? then
        if version.None? then Err(FallbackVersionRequired)
        else
          match PlanQuery(content, definition.query.value, version.value, scope)
          case Err(e) => Err(e)
          case Ok((status, variant)) =>
            Ok(Some(PlannedFallback(id, QueryKind, definition.query.value,
                                    SourceTarget(content, QueryKind, definition.query.value), status, variant)))
      else
        Ok(Some(PlannedFallback(id, ScriptKind, definition.script.value,
                                SourceTarget(content, ScriptKind, definition.script.value),
                                if collection == RemoteDbOnly then Skipped else Planned, None)))
  }

  /** What one report item needs to be planned without a missing key. */
  predicate Plannable(content: ContentPack, r: ReportItem) {
    && AllParse(content.supported) && SourceOk(content, r.item) && FallbackOk(content, r.item)
    && (r.item.fallbackItem.Some? ==>
          FallbackItemOk(content, r.item.fallbackItem.value, content.fallbackItems[r.item.fallbackItem.value], {}))
  }

  /** The status and variant of the primary source. */
  function PlanSource(content: ContentPack, r: ReportItem, version: Option<Version>, mode: Mode,
                      collection: CollectionMode, scope: Scope)
    : Result<(Status, Option<Variant>), PlanError>
    requires Plannable(content, r)
  {
    match KindOf(r.item).value
    case QueryKind =>
      if version.None? then Err(VersionAssertion)
      else PlanQuery(content, SourceOf(r.item), version.value, scope)
    case ScriptKind => Ok((if collection == RemoteDbOnly then Skipped else Planned, None))
    case MetricKind =>
      if mode != Snapshots then Ok((Skipped, None))
      else if collection == RemoteDbOnly && content.metrics[SourceOf(r.item)].sourceSampler.Some?
      then Ok((Skipped, None))
      else Ok((Planned, None))
  }

  function PlanItem(content: ContentPack, r: ReportItem, version: Option<Version>, mode: Mode,
                    collection: CollectionMode, scope: Scope): Result<PlannedItem, PlanError>
    requires Plannable(content, r)
  {
    match PlanSource(content, r, version, mode, collection, scope)
    case Err(e) => Err(e)
    case Ok((status, variant)) =>
      match PlanFallback(content, r, version, scope, collection)
      case Err(e) => Err(e)
      case Ok(fallback) =>
        Ok(PlannedItem(
          r.itemId, r.sectionId, KindOf(r.item).value, SourceOf(r.item), TargetOf(content, r.item), status, variant,
          if fallback.Some? then r.item.fallbackOn.value else [], fallback))
  }

  predicate AllPlannable(content: ContentPack, items: seq<ReportItem>) {
    forall i :: 0 <= i < |items| ==> Plannable(content, items[i])
  }

  /** The selected items planned in report order, or the first error. */
  function PlanItems(content: ContentPack, items: seq<ReportItem>, version: Option<Version>, mode: Mode,
                     collection: CollectionMode, scope: Scope, selection: Selection)
    : Result<seq<PlannedItem>, PlanError>
    requires AllPlannable(content, items)
  {
    if items == [] then Ok([])
    else
      match PlanItems(content, items[..|items| - 1], version, mode, collection, scope, selection)
      case Err(e) => Err(e)
      case Ok(planned) =>
        if !Selected(selection, items[|items| - 1]) then Ok(planned)
        else
          match PlanItem(content, items[|items| - 1], version, mode, collection, scope)
          case Err(e) => Err(e)
          case Ok(item) => Ok(planned + [item])
  }

  datatype PlanSection = PlanSection(id: string, items: seq<string>)

  datatype Plan = Plan(sections: seq<PlanSection>, items: seq<PlannedItem>)

  /** The ids planned in one section, in plan order. */
  function IdsIn(items: seq<PlannedItem>, sectionId: string): seq<string> {
    if items == [] then []
    else
      IdsIn(items[..|items| - 1], sectionId)
      + if items[|items| - 1].sectionId == sectionId then [items[|items| - 1].itemId] else []
  }

  /** The report sections that hold planned items. */
  function SectionsOf(sections: seq<Section>, items: seq<PlannedItem>): seq<PlanSection> {
    if sections == [] then []
    else
      var id := sections[|sections| - 1].id;
      SectionsOf(sections[..|sections| - 1], items)
      + if IdsIn(items, id) == [] then [] else [PlanSection(id, IdsIn(items, id))]
  }

  ghost predicate SectionsAgree(sectionItems: map<string, seq<string>>, items: seq<PlannedItem>) {
    forall id :: (if id in sectionItems then sectionItems[id] else []) == IdsIn(items, id)
  }

  /** section_items.setdefault(section_id, []).append(item_id) */
  method AppendToSection(sectionItems: map<string, seq<string>>, planned: PlannedItem, ghost items: seq<PlannedItem>)
    returns (longer: map<string, seq<string>>)
    requires SectionsAgree(sectionItems, items)
    ensures SectionsAgree(longer, items + [planned])
  {
    assert (items + [planned])[..|items|] == items;
    var id := planned.sectionId;
    longer := sectionItems[id := (if id in sectionItems then sectionItems[id] else []) + [planned.itemId]];
  }

  lemma {:induction false} PlanStep(
      content: ContentPack, all: seq<ReportItem>, i: nat, version: Option<Version>, mode: Mode,
      collection: CollectionMode, scope: Scope, selection: Selection)
    requires AllPlannable(content, all) && i < |all|
    ensures PlanItems(content, all[..i + 1], version, mode, collection, scope, selection) ==
            match PlanItems(content, all[..i], version, mode, collection, scope, selection)
            case Err(e) => Err(e)
            case Ok(planned) =>
              if !Selected(selection, all[i]) then Ok(planned)
              else
                match PlanItem(content, all[i], version, mode, collection, scope)
                case Err(e) => Err(e)
                case Ok(item) => Ok(planned + [item])
  {
    assert all[..i + 1][..i] == all[..i] && all[..i + 1][i] == all[i];
  }

  /** The item loop of build_plan, with its section_items dictionary. */
  method PlanSelected(content: ContentPack, version: Option<Version>, mode: Mode, collection: CollectionMode,
                      scope: Scope, selection: Selection)
    returns (result: Result<seq<PlannedItem>, PlanError>, sectionItems: map<string, seq<string>>)
    requires AllPlannable(content, ReportItems(content.sections))
    ensures result == PlanItems(content, ReportItems(content.sections), version, mode, collection, scope, selection)
    ensures result.Ok? ==> SectionsAgree(sectionItems, result.value)
  {
    var all := ReportItems(content.sections);
    var items: seq<PlannedItem> := [];
    sectionItems := map[];
    for i := 0 to |all|
      invariant PlanItems(content, all[..i], version, mode, collection, scope, selection) == Ok(items)
      invariant SectionsAgree(sectionItems, items)
    {
      PlanStep(content, all, i, version, mode, collection, scope, selection);
      if Selected(selection, all[i]) {
        var planned := PlanItem(content, all[i], version, mode, collection, scope);
        if planned.Err? {
          PlanPrefix(content, all, i + 1, version, mode, collection, scope, selection);
          return Err(planned.error), sectionItems;
        }
        sectionItems := AppendToSection(sectionItems, planned.value, items);
        items := items + [planned.value];
      }
    }
    assert all[..|all|] == all;
    result := Ok(items);
  }

  lemma {:induction false} PlanPrefix(content: ContentPack, items: seq<ReportItem>, n: nat, version: Option<Version>,
                                      mode: Mode, collection: CollectionMode, scope: Scope, selection: Selection)
    requires AllPlannable(content, items) && n <= |items|
    ensures PlanItems(content, items[..n], version, mode, collection, scope, selection).Err? ==>
              PlanItems(content, items, version, mode, collection, scope, selection)
              == PlanItems(content, items[..n], version, mode, collection, scope, selection)
  {
    if n < |items| {
      var init := items[..|items| - 1];
      PlanPrefix(content, init, n, version, mode, collection, scope, selection);
      assert init[..n] == items[..n];
    } else {
      assert items[..n] == items;
    }
  }

  /** The section loop of build_plan. */
  method BuildSections(sections: seq<Section>, sectionItems: map<string, seq<string>>, ghost items: seq<PlannedItem>)
    returns (planned: seq<PlanSection>)
    requires SectionsAgree(sectionItems, items)
    ensures planned == SectionsOf(sections, items)
  {
    planned := [];
    for k := 0 to |sections|
      invariant planned == SectionsOf(sections[..k], items)
    {
      var id := sections[k].id;
      assert sections[..k + 1][..k] == sections[..k];
      if id in sectionItems && sectionItems[id] != [] {
        planned := planned + [PlanSection(id, sectionItems[id])];
      }
    }
    assert sections[..|sections|] == sections;
  }

  /** Is a database connection required by the selected items or the scope? */
  predicate RequiresDatabase(content: ContentPack, mode: Mode, collection: CollectionMode, scope: Scope,
                             selection: Selection)
    requires SourcesOk(content, ReportItems(content.sections))
  {
    scope == Cluster ||
    NeedIds(content, mode, collection, selection, ReportItems(content.sections), DatabaseTarget) != []
  }

  /** build_plan; the version checks come first. */
  method BuildPlan(content: ContentPack, version: Option<Version>, mode: Mode, collection: CollectionMode,
                   scope: Scope, selection: Selection)
    returns (result: Result<Plan, PlanError>)
    requires AllPlannable(content, ReportItems(content.sections)) && AllParse(content.supported)
    ensures var items := PlanItems(content, ReportItems(content.sections), version, mode, collection, scope, selection);
            if version.None? && RequiresDatabase(content, mode, collection, scope, selection)
            then result == Err(VersionRequired)
            else if version.Some? && ResolveLtsBranch(version.value, content.supported).None?
            then result == Err(UnsupportedVersion)
            else if items.Err? then result == Err(items.error)
            else result == Ok(Plan(SectionsOf(content.sections, items.value), items.value))
  {
    var requirements := CollectionRequirements(content, mode, collection, scope, selection);
    if requirements.databaseItems != [] && version.None? {
      return Err(VersionRequired);
    }
    if version.Some? && ResolveLtsBranch(version.value, content.supported).None? {
      return Err(UnsupportedVersion);
    }
    var items, sectionItems := PlanSelected(content, version, mode, collection, scope, selection);
    if items.Err? {
      return Err(items.error);
    }
    var sections := BuildSections(content.sections, sectionItems, items.value);
    result := Ok(Plan(sections, items.value));
  }

  lemma {:induction false} NeedIdsMeaning(content: ContentPack, mode: Mode, collection: CollectionMode,
                                          selection: Selection, items: seq<ReportItem>, target: Target)
    requires SourcesOk(content, items)
    ensures NeedIds(content, mode, collection, selection, items, target) != [] <==>
              exists i :: 0 <= i < |items| && Needs(content, mode, collection, selection, items[i])
                && TargetOf(content, items[i].item) == target
  {
    if items != [] {
      var n := |items| - 1;
      NeedIdsMeaning(content, mode, collection, selection, items[..n], target);
      assert forall i :: 0 <= i < n ==> items[..n][i] == items[i];
    }
  }
}
