/**
 * A texture's placements (one per palette group it is assigned to) and the
 * standalone copies ("dests") it keeps for placements that are not on a
 * palette, as kept by TextureImage in src/egg-palettize/textureImage.cxx.
 *
 * Placements and dests are values.  A placement's `id` stands for the
 * identity of the TexturePlacement object: kept placements keep their id, new
 * ones get a fresh id.  What the texture asks of other objects (preparing or
 * deleting a placement, asking a placement to replace its image, unlinking or
 * copying a dest file) is recorded as an Event.
 */
module Placements {
  import opened Ordering
  import opened Wrappers
  import opened GroupCover

  /** Why a placement is not on a palette; ORNone means it is. */
  datatype OmitReason = ORNone | ORWorking | ORSize | OROmitted | ORUnused | ORUnknown | ORSolitary

  /** A standalone copy of the texture, made for the placement in `group`. */
  datatype Dest = Dest(filename: string, group: GroupId)

  datatype Placement = Placement(id: nat, group: GroupId, omitReason: OmitReason, dest: Option<Dest>)

  datatype Event =
    | Prepare(group: GroupId, placementId: nat)       // PaletteGroup::prepare made a placement
    | Delete(group: GroupId, placementId: nat)        // the placement was deleted
    | ForceReplace(group: GroupId, placementId: nat)  // TexturePlacement::force_replace
    | Unlink(file: string)                            // DestTextureImage::unlink
    | Copy(file: string)                              // DestTextureImage::copy
    | CopyIfStale(file: string)                       // DestTextureImage::copy_if_stale

  function EventGroup(e: Event): int
  {
    match e
    case Prepare(g, _) => g
    case Delete(g, _) => g
    case ForceReplace(g, _) => g
    case _ => -1
  }

  ghost predicate GroupsIncreasing(evs: seq<Event>)
  {
    forall i, j :: 0 <= i < j < |evs| ==> EventGroup(evs[i]) < EventGroup(evs[j])
  }

  /** The placement PaletteGroup::prepare makes: not yet placed, no dest. */
  function NewPlacement(id: nat, g: GroupId): Placement
  {
    Placement(id, g, ORWorking, None)
  }

  // ---------------------------------------------------------------------
  // assign_to_groups: merging the new group set with the placements

  /**
   * The effects the merge at textureImage.cxx:716-760 has on other objects:
   * a Prepare for each group that is new, a Delete for each placement whose
   * group is no longer assigned, each exactly once, in increasing group order.
   */
  ghost predicate ReconcileEvents(evs: seq<Event>, groups: set<GroupId>, before: map<GroupId, Placement>,
                                  after: map<GroupId, Placement>)
    requires after.Keys == groups
  {
    (forall e :: e in evs ==>
       (e.Prepare? && e.group in groups && e.group !in before && e.placementId == after[e.group].id) ||
       (e.Delete? && e.group in before && e.group !in groups && e.placementId == before[e.group].id)) &&
    (forall g :: g in groups && g !in before ==> Prepare(g, after[g].id) in evs) &&
    (forall g :: g in before && g !in groups ==> Delete(g, before[g].id) in evs) &&
    GroupsIncreasing(evs)
  }

  /** Placements are keyed by their group and carry distinct identities below `next`. */
  ghost predicate PlacementsValid(pl: map<GroupId, Placement>, next: nat)
  {
    (forall g :: g in pl ==> pl[g].group == g && pl[g].id < next) &&
    (forall g, h :: g in pl && h in pl && g != h ==> pl[g].id != pl[h].id)
  }

  /** The two-iterator merge of textureImage.cxx:716-760. */
  method Reconcile(groups: set<GroupId>, before: map<GroupId, Placement>, nextId: nat)
    returns (after: map<GroupId, Placement>, nextId': nat, evs: seq<Event>)
    requires PlacementsValid(before, nextId)
    ensures after.Keys == groups
    ensures PlacementsValid(after, nextId')
    ensures nextId <= nextId'
    ensures forall g :: g in groups && g in before ==> after[g] == before[g]
    ensures forall g :: g in groups && g !in before ==>
              nextId <= after[g].id && after[g] == NewPlacement(after[g].id, g)
    ensures ReconcileEvents(evs, groups, before, after)
  {
    var gs := EnumerateNats(groups);
    var ps := EnumerateNats(before.Keys);
    after, nextId', evs := map[], nextId, [];
    MergeInit(gs, ps, groups, before, nextId);
    var i, j := 0, 0;
    // The main loop and the two tail loops of the source, folded into one.
    while i < |gs| || j < |ps|
      invariant 0 <= i <= |gs| && 0 <= j <= |ps|
      invariant MergeOrder(gs, ps, i, j)
      invariant MergeStatic(gs, ps, groups, before, nextId)
      invariant MergeAfter(gs, i, before, nextId, after, nextId')
      invariant MergeEvents(gs, ps, i, j, groups, before, after, evs)
      decreases |gs| - i + |ps| - j
    {
      if i < |gs| && (j == |ps| || gs[i] < ps[j]) {
        StepNew(gs, ps, i, j, groups, before, nextId, after, nextId', evs);
        after, nextId', evs := after[gs[i] := NewPlacement(nextId', gs[i])], nextId' + 1, evs + [Prepare(gs[i], nextId')];
        i := i + 1;
      } else if j < |ps| && (i == |gs| || ps[j] < gs[i]) {
        StepGone(gs, ps, i, j, groups, before, after, evs);
        evs := evs + [Delete(ps[j], before[ps[j]].id)];
        j := j + 1;
      } else {
        StepKept(gs, ps, i, j, groups, before, nextId, after, nextId', evs);
        after := after[gs[i] := before[gs[i]]];
        i, j := i + 1, j + 1;
      }
    }
    MergeDone(gs, ps, groups, before, nextId, after, nextId', evs);
  }

  lemma MergeInit(gs: seq<nat>, ps: seq<nat>, groups: set<GroupId>, before: map<GroupId, Placement>, nextId: nat)
    requires gs == SortedNats(groups) && ps == SortedNats(before.Keys)
    requires PlacementsValid(before, nextId)
    ensures MergeOrder(gs, ps, 0, 0)
    ensures MergeStatic(gs, ps, groups, before, nextId)
    ensures MergeAfter(gs, 0, before, nextId, map[], nextId)
    ensures MergeEvents(gs, ps, 0, 0, groups, before, map[], [])
  {
    SortedNatsSpec(groups);
    SortedNatsSpec(before.Keys);
  }

  /** At the end of the merge every group and every old placement has been visited. */
  lemma MergeDone(gs: seq<nat>, ps: seq<nat>, groups: set<GroupId>, before: map<GroupId, Placement>, nextId: nat,
                  after: map<GroupId, Placement>, next: nat, evs: seq<Event>)
    requires MergeStatic(gs, ps, groups, before, nextId)
    requires MergeAfter(gs, |gs|, before, nextId, after, next)
    requires MergeEvents(gs, ps, |gs|, |ps|, groups, before, after, evs)
    ensures after.Keys == groups
    ensures PlacementsValid(after, next)
    ensures nextId <= next
    ensures forall g :: g in groups && g in before ==> after[g] == before[g]
    ensures forall g :: g in groups && g !in before ==>
              nextId <= after[g].id && after[g] == NewPlacement(after[g].id, g)
    ensures ReconcileEvents(evs, groups, before, after)
  {
    assert gs[..|gs|] == gs && ps[..|ps|] == ps;
  }

  ghost predicate MergeOrder(gs: seq<nat>, ps: seq<nat>, i: int, j: int)
  {
    0 <= i <= |gs| && 0 <= j <= |ps| &&
    (forall k, l :: 0 <= k < i && j <= l < |ps| ==> gs[k] < ps[l]) &&
    (forall k, l :: 0 <= k < j && i <= l < |gs| ==> ps[k] < gs[l])
  }

  /** A value below the head of the unvisited part, above the visited part, is absent. */
  lemma NotInSorted(x: nat, s: seq<nat>, j: int)
    requires IncreasingNats(s) && 0 <= j <= |s|
    requires forall k :: 0 <= k < j ==> s[k] < x
    requires j < |s| ==> x < s[j]
    ensures x !in s
  {
  }

  // What the merge has established after visiting gs[..i] and ps[..j].

  ghost predicate MergeStatic(gs: seq<nat>, ps: seq<nat>, groups: set<GroupId>,
                              before: map<GroupId, Placement>, nextId: nat)
  {
    IncreasingNats(gs) && IncreasingNats(ps) &&
    (forall g :: g in groups <==> g in gs) &&
    (forall g :: g in before <==> g in ps) &&
    PlacementsValid(before, nextId)
  }

  ghost predicate MergeAfter(gs: seq<nat>, i: int, before: map<GroupId, Placement>, nextId: nat,
                             after: map<GroupId, Placement>, next: nat)
    requires 0 <= i <= |gs|
  {
    nextId <= next &&
    (forall g :: g in after <==> g in gs[..i]) &&
    PlacementsValid(after, next) &&
    (forall g :: g in after && g in before ==> after[g] == before[g]) &&
    (forall g :: g in after && g !in before ==> nextId <= after[g].id && after[g] == NewPlacement(after[g].id, g))
  }

  ghost predicate MergeEvents(gs: seq<nat>, ps: seq<nat>, i: int, j: int, groups: set<GroupId>,
                              before: map<GroupId, Placement>, after: map<GroupId, Placement>, evs: seq<Event>)
    requires 0 <= i <= |gs| && 0 <= j <= |ps|
  {
    (forall e :: e in evs ==>
       (e.Prepare? && e.group in after && e.group !in before && e.placementId == after[e.group].id) ||
       (e.Delete? && e.group in ps[..j] && e.group in before && e.group !in groups &&
        e.placementId == before[e.group].id)) &&
    (forall g :: g in gs[..i] && g !in before ==> g in after && Prepare(g, after[g].id) in evs) &&
    (forall g :: g in ps[..j] && g !in groups ==> g in before && Delete(g, before[g].id) in evs) &&
    (forall e :: e in evs ==> (i < |gs| ==> EventGroup(e) < gs[i]) && (j < |ps| ==> EventGroup(e) < ps[j])) &&
    GroupsIncreasing(evs)
  }

  /** gs[i] is a new group: PaletteGroup::prepare makes a placement for it. */
  lemma StepNew(gs: seq<nat>, ps: seq<nat>, i: int, j: int, groups: set<GroupId>,
                before: map<GroupId, Placement>, nextId: nat,
                after: map<GroupId, Placement>, next: nat, evs: seq<Event>)
    requires 0 <= i < |gs| && 0 <= j <= |ps|
    requires MergeStatic(gs, ps, groups, before, nextId)
    requires MergeAfter(gs, i, before, nextId, after, next)
    requires MergeEvents(gs, ps, i, j, groups, before, after, evs)
    requires MergeOrder(gs, ps, i, j)
    requires j < |ps| ==> gs[i] < ps[j]
    ensures MergeOrder(gs, ps, i + 1, j)
    ensures MergeAfter(gs, i + 1, before, nextId, after[gs[i] := NewPlacement(next, gs[i])], next + 1)
    ensures MergeEvents(gs, ps, i + 1, j, groups, before, after[gs[i] := NewPlacement(next, gs[i])],
                        evs + [Prepare(gs[i], next)])
  {
    var g := gs[i];
    NotInSorted(g, ps, j);
    assert gs[..i + 1] == gs[..i] + [g];
    assert g !in after;
    StepNewAfter(gs, i, before, nextId, after, next);
    StepNewEvents(gs, ps, i, j, groups, before, nextId, after, next, evs);
  }

  lemma StepNewAfter(gs: seq<nat>, i: int, before: map<GroupId, Placement>, nextId: nat,
                     after: map<GroupId, Placement>, next: nat)
    requires 0 <= i < |gs|
    requires IncreasingNats(gs)
    requires MergeAfter(gs, i, before, nextId, after, next)
    requires gs[i] !in before
    ensures MergeAfter(gs, i + 1, before, nextId, after[gs[i] := NewPlacement(next, gs[i])], next + 1)
  {
    assert gs[..i + 1] == gs[..i] + [gs[i]];
  }

  lemma StepNewEvents(gs: seq<nat>, ps: seq<nat>, i: int, j: int, groups: set<GroupId>,
                      before: map<GroupId, Placement>, nextId: nat,
                      after: map<GroupId, Placement>, next: nat, evs: seq<Event>)
    requires 0 <= i < |gs| && 0 <= j <= |ps|
    requires MergeStatic(gs, ps, groups, before, nextId)
    requires MergeAfter(gs, i, before, nextId, after, next)
    requires MergeEvents(gs, ps, i, j, groups, before, after, evs)
    requires gs[i] !in before && gs[i] !in after
    requires j < |ps| ==> gs[i] < ps[j]
    ensures MergeEvents(gs, ps, i + 1, j, groups, before, after[gs[i] := NewPlacement(next, gs[i])],
                        evs + [Prepare(gs[i], next)])
  {
    var g := gs[i];
    assert gs[..i + 1] == gs[..i] + [g];
    var after' := after[g := NewPlacement(next, g)];
    var evs' := evs + [Prepare(g, next)];
    forall e | e in evs' ensures (i + 1 < |gs| ==> EventGroup(e) < gs[i + 1]) && (j < |ps| ==> EventGroup(e) < ps[j]) {
      if i + 1 < |gs| { assert gs[i] < gs[i + 1]; }
    }
  }

  /** ps[j] is no longer assigned: its placement is deleted. */
  lemma StepGone(gs: seq<nat>, ps: seq<nat>, i: int, j: int, groups: set<GroupId>,
                 before: map<GroupId, Placement>, after: map<GroupId, Placement>, evs: seq<Event>)
    requires 0 <= i <= |gs| && 0 <= j < |ps|
    requires IncreasingNats(gs) && IncreasingNats(ps)
    requires forall g :: g in groups <==> g in gs
    requires forall g :: g in before <==> g in ps
    requires MergeEvents(gs, ps, i, j, groups, before, after, evs)
    requires MergeOrder(gs, ps, i, j)
    requires i < |gs| ==> ps[j] < gs[i]
    ensures MergeOrder(gs, ps, i, j + 1)
    ensures MergeEvents(gs, ps, i, j + 1, groups, before, after, evs + [Delete(ps[j], before[ps[j]].id)])
  {
    var g := ps[j];
    NotInSorted(g, gs, i);
    assert ps[..j + 1] == ps[..j] + [g];
    var evs' := evs + [Delete(g, before[g].id)];
    forall e | e in evs' ensures (i < |gs| ==> EventGroup(e) < gs[i]) && (j + 1 < |ps| ==> EventGroup(e) < ps[j + 1]) {
      if j + 1 < |ps| { assert ps[j] < ps[j + 1]; }
    }
  }

  /** gs[i] == ps[j]: the placement is kept as it is. */
  lemma StepKept(gs: seq<nat>, ps: seq<nat>, i: int, j: int, groups: set<GroupId>,
                 before: map<GroupId, Placement>, nextId: nat,
                 after: map<GroupId, Placement>, next: nat, evs: seq<Event>)
    requires 0 <= i < |gs| && 0 <= j < |ps|
    requires MergeStatic(gs, ps, groups, before, nextId)
    requires MergeAfter(gs, i, before, nextId, after, next)
    requires MergeEvents(gs, ps, i, j, groups, before, after, evs)
    requires MergeOrder(gs, ps, i, j)
    requires gs[i] == ps[j]
    ensures MergeOrder(gs, ps, i + 1, j + 1)
    ensures MergeAfter(gs, i + 1, before, nextId, after[gs[i] := before[gs[i]]], next)
    ensures MergeEvents(gs, ps, i + 1, j + 1, groups, before, after[gs[i] := before[gs[i]]], evs)
  {
    var g := gs[i];
    assert g !in after;
    StepKeptAfter(gs, i, before, nextId, after, next);
    StepKeptEvents(gs, ps, i, j, groups, before, after, evs);
  }

  lemma StepKeptAfter(gs: seq<nat>, i: int, before: map<GroupId, Placement>, nextId: nat,
                      after: map<GroupId, Placement>, next: nat)
    requires 0 <= i < |gs|
    requires IncreasingNats(gs)
    requires MergeAfter(gs, i, before, nextId, after, next)
    requires gs[i] in before && gs[i] !in after
    requires PlacementsValid(before, nextId)
    ensures MergeAfter(gs, i + 1, before, nextId, after[gs[i] := before[gs[i]]], next)
  {
    assert gs[..i + 1] == gs[..i] + [gs[i]];
  }

  lemma StepKeptEvents(gs: seq<nat>, ps: seq<nat>, i: int, j: int, groups: set<GroupId>,
                       before: map<GroupId, Placement>, after: map<GroupId, Placement>, evs: seq<Event>)
    requires 0 <= i < |gs| && 0 <= j < |ps|
    requires IncreasingNats(gs) && IncreasingNats(ps)
    requires forall g :: g in groups <==> g in gs
    requires MergeEvents(gs, ps, i, j, groups, before, after, evs)
    requires gs[i] == ps[j] && gs[i] in before && gs[i] !in after
    ensures MergeEvents(gs, ps, i + 1, j + 1, groups, before, after[gs[i] := before[gs[i]]], evs)
  {
    var g := gs[i];
    assert gs[..i + 1] == gs[..i] + [g];
    assert ps[..j + 1] == ps[..j] + [g];
    forall e | e in evs ensures (i + 1 < |gs| ==> EventGroup(e) < gs[i + 1]) && (j + 1 < |ps| ==> EventGroup(e) < ps[j + 1]) {
      if i + 1 < |gs| { assert gs[i] < gs[i + 1]; }
      if j + 1 < |ps| { assert ps[j] < ps[j + 1]; }
    }
  }

  // ---------------------------------------------------------------------
  // What a reassignment promises, and its consequences

  /** Everything Reconcile guarantees about one reassignment of a texture to `groups`. */
  ghost predicate Reassigned(groups: set<GroupId>, before: map<GroupId, Placement>, after: map<GroupId, Placement>,
                             nextBefore: nat, nextAfter: nat, evs: seq<Event>)
  {
    after.Keys == groups &&
    PlacementsValid(after, nextAfter) &&
    nextBefore <= nextAfter &&
    (forall g :: g in groups && g in before ==> after[g] == before[g]) &&
    (forall g :: g in groups && g !in before ==>
       nextBefore <= after[g].id && after[g] == NewPlacement(after[g].id, g)) &&
    ReconcileEvents(evs, groups, before, after)
  }

  /** Reassigning to the groups already held changes nothing and asks nothing of any group. */
  lemma ReassignSameGroups(groups: set<GroupId>, before: map<GroupId, Placement>, after: map<GroupId, Placement>,
                           nextBefore: nat, nextAfter: nat, evs: seq<Event>)
    requires Reassigned(groups, before, after, nextBefore, nextAfter, evs)
    requires before.Keys == groups
    ensures after == before
    ensures evs == []
  {
    FirstIn(evs);
  }

  lemma FirstIn(s: seq<Event>)
    ensures s != [] ==> s[0] in s
  {
  }

  /** Reassigning to no groups deletes every placement and prepares none. */
  lemma ReassignNoGroups(before: map<GroupId, Placement>, after: map<GroupId, Placement>,
                         nextBefore: nat, nextAfter: nat, evs: seq<Event>)
    requires Reassigned({}, before, after, nextBefore, nextAfter, evs)
    ensures after == map[]
    ensures forall e :: e in evs ==> e.Delete? && e.group in before && e.placementId == before[e.group].id
    ensures forall g :: g in before ==> Delete(g, before[g].id) in evs
    ensures GroupsIncreasing(evs)
  {
  }

  // ---------------------------------------------------------------------
  // force_replace

  /** One ForceReplace for each placement, visited in the order `gs`. */
  function ForceEvents(gs: seq<GroupId>, pl: map<GroupId, Placement>): seq<Event>
  {
    if gs == [] then []
    else
      var g := gs[|gs| - 1];
      ForceEvents(gs[..|gs| - 1], pl) + (if g in pl then [ForceReplace(g, pl[g].id)] else [])
  }

  /** force_replace asks each placement, and only the placements, to replace itself, once. */
  lemma {:induction false} ForceEventsSpec(gs: seq<GroupId>, pl: map<GroupId, Placement>)
    requires forall g :: g in gs ==> g in pl
    ensures forall e :: e in ForceEvents(gs, pl) <==>
              e.ForceReplace? && e.group in gs && e.group in pl && e.placementId == pl[e.group].id
    ensures |ForceEvents(gs, pl)| == |gs|
    decreases |gs|
  {
    if gs != [] {
      var init := gs[..|gs| - 1];
      assert gs == init + [gs[|gs| - 1]];
      assert forall g :: g in init ==> g in gs;
      ForceEventsSpec(init, pl);
    }
  }
}
