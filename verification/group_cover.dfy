/**
 * The rule by which a texture chooses the palette groups it is placed in
 * (TextureImage::assign_groups and TextureImage::compute_egg_count in
 * src/egg-palettize/textureImage.cxx), stated as functions over the egg
 * files that reference the texture.
 *
 * Groups are identified by naturals ordered by `<`; the source orders groups
 * by their addresses, so the order stands for "the order of the std::set".  A
 * group's dependency level and the number of egg files sharing it
 * (PaletteGroup::get_dependency_level and PaletteGroup::get_egg_count) are
 * state of the group objects, given here as the functions `level` and `share`.
 */
module GroupCover {
  import opened Ordering

  type GroupId = nat

  /** An egg file that references the texture, with its complete group set. */
  datatype EggRef = EggRef(id: nat, completeGroups: set<GroupId>)

  /** Every egg names at least one group (note_egg_file refuses the others). */
  ghost predicate AllNonEmpty(eggs: seq<EggRef>)
  {
    forall e :: e in eggs ==> e.completeGroups != {}
  }

  // ---------------------------------------------------------------------
  // Counting and filtering eggs by a group

  /** The number of eggs in the list whose complete group set contains g. */
  function CountSatisfied(g: GroupId, eggs: seq<EggRef>): nat
    decreases |eggs|
  {
    if eggs == [] then 0
    else CountSatisfied(g, eggs[..|eggs| - 1]) + (if g in eggs[|eggs| - 1].completeGroups then 1 else 0)
  }

  /** The eggs, in order, that group g does not satisfy. */
  function Unsatisfied(eggs: seq<EggRef>, g: GroupId): seq<EggRef>
    decreases |eggs|
  {
    if eggs == [] then []
    else
      var last := eggs[|eggs| - 1];
      Unsatisfied(eggs[..|eggs| - 1], g) + (if g in last.completeGroups then [] else [last])
  }

  /** The filter keeps exactly the eggs that do not name g. */
  lemma {:induction false} UnsatisfiedSpec(eggs: seq<EggRef>, g: GroupId)
    ensures forall e :: e in Unsatisfied(eggs, g) <==> e in eggs && g !in e.completeGroups
    decreases |eggs|
  {
    if eggs != [] {
      assert eggs == eggs[..|eggs| - 1] + [eggs[|eggs| - 1]];
      UnsatisfiedSpec(eggs[..|eggs| - 1], g);
    }
  }

  /** Every group some egg of the list names. */
  function UnionOf(eggs: seq<EggRef>): set<GroupId>
    decreases |eggs|
  {
    if eggs == [] then {}
    else UnionOf(eggs[..|eggs| - 1]) + eggs[|eggs| - 1].completeGroups
  }

  /** The union holds each egg's groups and nothing else. */
  lemma {:induction false} UnionOfSpec(eggs: seq<EggRef>)
    ensures forall e :: e in eggs ==> e.completeGroups <= UnionOf(eggs)
    ensures forall g :: g in UnionOf(eggs) ==> exists e :: e in eggs && g in e.completeGroups
    decreases |eggs|
  {
    if eggs != [] {
      assert eggs == eggs[..|eggs| - 1] + [eggs[|eggs| - 1]];
      UnionOfSpec(eggs[..|eggs| - 1]);
    }
  }

  /** An egg list whose eggs all occur in another names no group the other does not. */
  lemma UnionOfMono(small: seq<EggRef>, big: seq<EggRef>)
    requires forall e :: e in small ==> e in big
    ensures UnionOf(small) <= UnionOf(big)
  {
    UnionOfSpec(small);
    UnionOfSpec(big);
    forall g | g in UnionOf(small) ensures g in UnionOf(big) {
      var e :| e in small && g in e.completeGroups;
    }
  }

  /** Counting and filtering split the eggs into two parts. */
  lemma {:induction false} CountPartition(g: GroupId, eggs: seq<EggRef>)
    ensures CountSatisfied(g, eggs) + |Unsatisfied(eggs, g)| == |eggs|
    decreases |eggs|
  {
    if eggs != [] {
      CountPartition(g, eggs[..|eggs| - 1]);
    }
  }

  /** A group satisfies some egg exactly when some egg names it. */
  lemma {:induction false} CountPositive(g: GroupId, eggs: seq<EggRef>)
    ensures CountSatisfied(g, eggs) > 0 <==> g in UnionOf(eggs)
    decreases |eggs|
  {
    if eggs != [] {
      CountPositive(g, eggs[..|eggs| - 1]);
    }
  }

  /** compute_egg_count (textureImage.cxx:683-696). */
  method ComputeEggCount(g: GroupId, eggs: seq<EggRef>) returns (count: nat)
    ensures count == CountSatisfied(g, eggs)
    ensures count <= |eggs|
    ensures count > 0 <==> g in UnionOf(eggs)
  {
    count := 0;
    var i := 0;
    while i < |eggs|
      invariant 0 <= i <= |eggs|
      invariant count == CountSatisfied(g, eggs[..i])
    {
      assert eggs[..i + 1][..i] == eggs[..i];
      if g in eggs[i].completeGroups {
        count := count + 1;
      }
      i := i + 1;
    }
    assert eggs[..i] == eggs;
    CountPartition(g, eggs);
    CountPositive(g, eggs);
  }

  // ---------------------------------------------------------------------
  // The preference between two groups

  /**
   * The test at textureImage.cxx:134-143: a group is preferred to the best so
   * far when it satisfies more eggs; on equal counts when its dependency level
   * is lower; on equal levels when fewer egg files share it.
   */
  predicate Prefers(count: int, level: int, share: int, bestCount: int, bestLevel: int, bestShare: int)
  {
    if count != bestCount then count > bestCount
    else if level != bestLevel then level < bestLevel
    else share < bestShare
  }

  /** Prefers is a strict weak order on the triples. */
  lemma PrefersOrder(c1: int, l1: int, s1: int, c2: int, l2: int, s2: int, c3: int, l3: int, s3: int)
    ensures !Prefers(c1, l1, s1, c1, l1, s1)
    ensures Prefers(c1, l1, s1, c2, l2, s2) && Prefers(c2, l2, s2, c3, l3, s3) ==> Prefers(c1, l1, s1, c3, l3, s3)
    ensures Prefers(c1, l1, s1, c3, l3, s3) && !Prefers(c2, l2, s2, c3, l3, s3) ==> Prefers(c1, l1, s1, c2, l2, s2)
  {
  }

  predicate Better(g: GroupId, h: GroupId, eggs: seq<EggRef>, level: GroupId -> int, share: GroupId -> int)
  {
    Prefers(CountSatisfied(g, eggs), level(g), share(g), CountSatisfied(h, eggs), level(h), share(h))
  }

  /**
   * b is what the scan at textureImage.cxx:125-146 settles on over the groups
   * ks: no group is better than b, and b is strictly better than every group
   * visited before it, so an equally good earlier group would have been kept.
   */
  ghost predicate IsChoiceIn(b: GroupId, ks: seq<GroupId>, eggs: seq<EggRef>, level: GroupId -> int, share: GroupId -> int)
  {
    b in ks &&
    (forall g :: g in ks ==> !Better(g, b, eggs, level, share)) &&
    (forall g :: g in ks && g < b ==> Better(b, g, eggs, level, share))
  }

  /** The scan of textureImage.cxx:125-146 over ks, first to last. */
  ghost function FoldChoice(ks: seq<GroupId>, eggs: seq<EggRef>, level: GroupId -> int, share: GroupId -> int): GroupId
    requires |ks| > 0
    decreases |ks|
  {
    if |ks| == 1 then ks[0]
    else
      var best := FoldChoice(ks[..|ks| - 1], eggs, level, share);
      var g := ks[|ks| - 1];
      if Better(g, best, eggs, level, share) then g else best
  }

  lemma {:induction false} FoldChoiceIsChoice(ks: seq<GroupId>, eggs: seq<EggRef>, level: GroupId -> int, share: GroupId -> int)
    requires |ks| > 0 && IncreasingNats(ks)
    ensures IsChoiceIn(FoldChoice(ks, eggs, level, share), ks, eggs, level, share)
    decreases |ks|
  {
    if |ks| > 1 {
      var init := ks[..|ks| - 1];
      var x := ks[|ks| - 1];
      assert ks == init + [x];
      FoldChoiceIsChoice(init, eggs, level, share);
      var b := FoldChoice(init, eggs, level, share);
      if Better(x, b, eggs, level, share) {
        forall g | g in ks ensures !Better(g, x, eggs, level, share) {
          PrefersOrder(CountSatisfied(g, eggs), level(g), share(g), CountSatisfied(x, eggs), level(x), share(x),
                       CountSatisfied(b, eggs), level(b), share(b));
        }
        forall g | g in ks && g < x ensures Better(x, g, eggs, level, share) {
          PrefersOrder(CountSatisfied(x, eggs), level(x), share(x), CountSatisfied(g, eggs), level(g), share(g),
                       CountSatisfied(b, eggs), level(b), share(b));
        }
      } else {
        forall g | g in ks && g < b ensures g in init {
        }
      }
    }
  }

  /** The group the scan picks out of the set total. */
  ghost function Choice(total: set<GroupId>, eggs: seq<EggRef>, level: GroupId -> int, share: GroupId -> int): GroupId
    requires total != {}
  {
    SortedNatsSpec(total);
    FoldChoice(SortedNats(total), eggs, level, share)
  }

  /** The chosen group is a member of total, unbeaten, and the first of its kind. */
  lemma ChoiceSpec(total: set<GroupId>, eggs: seq<EggRef>, level: GroupId -> int, share: GroupId -> int)
    requires total != {}
    ensures Choice(total, eggs, level, share) in total
    ensures forall g :: g in total ==> !Better(g, Choice(total, eggs, level, share), eggs, level, share)
    ensures forall g :: g in total && g < Choice(total, eggs, level, share) ==>
              Better(Choice(total, eggs, level, share), g, eggs, level, share)
  {
    SortedNatsSpec(total);
    FoldChoiceIsChoice(SortedNats(total), eggs, level, share);
  }

  /** The preference leaves no freedom: only one group meets the description. */
  lemma ChoiceUnique(b: GroupId, total: set<GroupId>, eggs: seq<EggRef>, level: GroupId -> int, share: GroupId -> int)
    requires total != {} && b in total
    requires forall g :: g in total ==> !Better(g, b, eggs, level, share)
    requires forall g :: g in total && g < b ==> Better(b, g, eggs, level, share)
    ensures b == Choice(total, eggs, level, share)
  {
    ChoiceSpec(total, eggs, level, share);
  }

  /** The scan of textureImage.cxx:125-146, over total in set order. */
  method ChooseBest(total: set<GroupId>, needed: seq<EggRef>, level: GroupId -> int, share: GroupId -> int)
    returns (best: GroupId)
    requires total != {}
    ensures best == Choice(total, needed, level, share)
    ensures best in total
    ensures forall g :: g in total ==> !Better(g, best, needed, level, share)
    ensures forall g :: g in total && g < best ==> Better(best, g, needed, level, share)
  {
    var ks := EnumerateNats(total);
    SortedNatsLength(total);
    best := ks[0];
    var bestEggCount := ComputeEggCount(best, needed);
    var i := 1;
    while i < |ks|
      invariant 1 <= i <= |ks|
      invariant best == FoldChoice(ks[..i], needed, level, share)
      invariant bestEggCount == CountSatisfied(best, needed)
    {
      assert ks[..i + 1][..i] == ks[..i];
      var group := ks[i];
      var groupEggCount := ComputeEggCount(group, needed);
      var preferred: bool;
      if groupEggCount != bestEggCount {
        preferred := groupEggCount > bestEggCount;
      } else if level(group) != level(best) {
        preferred := level(group) < level(best);
      } else {
        preferred := share(group) < share(best);
      }
      if preferred {
        best := group;
        bestEggCount := groupEggCount;
      }
      i := i + 1;
    }
    assert ks[..i] == ks;
    ChoiceSpec(total, needed, level, share);
  }

  // ---------------------------------------------------------------------
  // The greedy cover of the eggs no explicit group satisfies

  /** One round removes at least the eggs the chosen group satisfies. */
  lemma ChoiceShrinks(needed: seq<EggRef>, level: GroupId -> int, share: GroupId -> int)
    requires needed != [] && AllNonEmpty(needed)
    ensures UnionOf(needed) != {}
    ensures |Unsatisfied(needed, Choice(UnionOf(needed), needed, level, share))| < |needed|
    ensures AllNonEmpty(Unsatisfied(needed, Choice(UnionOf(needed), needed, level, share)))
  {
    UnionOfSpec(needed);
    assert needed[0].completeGroups <= UnionOf(needed);
    var best := Choice(UnionOf(needed), needed, level, share);
    UnsatisfiedSpec(needed, best);
    ChoiceSpec(UnionOf(needed), needed, level, share);
    CountPositive(best, needed);
    CountPartition(best, needed);
  }

  /**
   * The loop at textureImage.cxx:117-164: while eggs are unsatisfied, take
   * the preferred group among all groups they name and drop the eggs it
   * satisfies.
   */
  ghost function GreedyCover(needed: seq<EggRef>, level: GroupId -> int, share: GroupId -> int): set<GroupId>
    requires AllNonEmpty(needed)
    decreases |needed|
  {
    if needed == [] then {}
    else
      ChoiceShrinks(needed, level, share);
      var best := Choice(UnionOf(needed), needed, level, share);
      {best} + GreedyCover(Unsatisfied(needed, best), level, share)
  }

  lemma {:induction false} CoverSatisfies(needed: seq<EggRef>, level: GroupId -> int, share: GroupId -> int)
    requires AllNonEmpty(needed)
    ensures forall e :: e in needed ==> e.completeGroups * GreedyCover(needed, level, share) != {}
    decreases |needed|
  {
    if needed != [] {
      ChoiceShrinks(needed, level, share);
      var best := Choice(UnionOf(needed), needed, level, share);
      var rest := Unsatisfied(needed, best);
      UnsatisfiedSpec(needed, best);
      CoverSatisfies(rest, level, share);
      forall e | e in needed ensures e.completeGroups * GreedyCover(needed, level, share) != {} {
        if best in e.completeGroups {
          assert best in e.completeGroups * GreedyCover(needed, level, share);
        } else {
          assert e in rest;
        }
      }
    }
  }

  lemma {:induction false} CoverWithinUnion(needed: seq<EggRef>, level: GroupId -> int, share: GroupId -> int)
    requires AllNonEmpty(needed)
    ensures GreedyCover(needed, level, share) <= UnionOf(needed)
    decreases |needed|
  {
    if needed != [] {
      ChoiceShrinks(needed, level, share);
      var best := Choice(UnionOf(needed), needed, level, share);
      ChoiceSpec(UnionOf(needed), needed, level, share);
      var rest := Unsatisfied(needed, best);
      CoverWithinUnion(rest, level, share);
      UnsatisfiedSpec(needed, best);
      UnionOfMono(rest, needed);
    }
  }

  /** The loop takes at most one group per unsatisfied egg. */
  lemma {:induction false} CoverSize(needed: seq<EggRef>, level: GroupId -> int, share: GroupId -> int)
    requires AllNonEmpty(needed)
    ensures |GreedyCover(needed, level, share)| <= |needed|
    decreases |needed|
  {
    if needed != [] {
      ChoiceShrinks(needed, level, share);
      var best := Choice(UnionOf(needed), needed, level, share);
      CoverSize(Unsatisfied(needed, best), level, share);
    }
  }

  // ---------------------------------------------------------------------
  // The whole of assign_groups

  /**
   * The groups the explicit assignment contributes (textureImage.cxx:97-112):
   * for each egg the first explicit group it also names.
   */
  ghost function ExplicitPicks(eggs: seq<EggRef>, explicit: set<GroupId>): set<GroupId>
    decreases |eggs|
  {
    if eggs == [] then {}
    else
      var common := explicit * eggs[|eggs| - 1].completeGroups;
      ExplicitPicks(eggs[..|eggs| - 1], explicit) + (if common != {} then {MinNat(common)} else {})
  }

  /** The eggs no explicit group satisfies, in order. */
  function Needed(eggs: seq<EggRef>, explicit: set<GroupId>): seq<EggRef>
    decreases |eggs|
  {
    if eggs == [] then []
    else
      var last := eggs[|eggs| - 1];
      Needed(eggs[..|eggs| - 1], explicit) + (if explicit * last.completeGroups != {} then [] else [last])
  }

  /** The filter keeps exactly the eggs that name no explicit group. */
  lemma {:induction false} NeededSpec(eggs: seq<EggRef>, explicit: set<GroupId>)
    ensures forall e :: e in Needed(eggs, explicit) <==> e in eggs && explicit * e.completeGroups == {}
    decreases |eggs|
  {
    if eggs != [] {
      assert eggs == eggs[..|eggs| - 1] + [eggs[|eggs| - 1]];
      NeededSpec(eggs[..|eggs| - 1], explicit);
    }
  }

  lemma {:induction false} ExplicitPicksSpec(eggs: seq<EggRef>, explicit: set<GroupId>)
    ensures ExplicitPicks(eggs, explicit) <= explicit
    ensures ExplicitPicks(eggs, explicit) <= UnionOf(eggs)
    ensures forall e :: e in eggs && explicit * e.completeGroups != {} ==>
              MinNat(explicit * e.completeGroups) in ExplicitPicks(eggs, explicit)
    decreases |eggs|
  {
    if eggs != [] {
      var init := eggs[..|eggs| - 1];
      assert eggs == init + [eggs[|eggs| - 1]];
      ExplicitPicksSpec(init, explicit);
    }
  }

  /** The groups assign_groups hands to assign_to_groups. */
  ghost function AssignedGroups(eggs: seq<EggRef>, explicit: set<GroupId>, level: GroupId -> int, share: GroupId -> int)
    : set<GroupId>
    requires AllNonEmpty(eggs)
  {
    if eggs == [] then {}
    else
      NeededSpec(eggs, explicit);
      ExplicitPicks(eggs, explicit) + GreedyCover(Needed(eggs, explicit), level, share)
  }

  /** Every egg that references the texture finds it in one of its groups. */
  lemma AssignedCoversEveryEgg(eggs: seq<EggRef>, explicit: set<GroupId>, level: GroupId -> int, share: GroupId -> int)
    requires AllNonEmpty(eggs)
    ensures forall e :: e in eggs ==> e.completeGroups * AssignedGroups(eggs, explicit, level, share) != {}
  {
    if eggs != [] {
      ExplicitPicksSpec(eggs, explicit);
      var needed := Needed(eggs, explicit);
      NeededSpec(eggs, explicit);
      CoverSatisfies(needed, level, share);
      forall e | e in eggs ensures e.completeGroups * AssignedGroups(eggs, explicit, level, share) != {} {
        if explicit * e.completeGroups != {} {
          assert MinNat(explicit * e.completeGroups) in e.completeGroups * AssignedGroups(eggs, explicit, level, share);
        } else {
          assert e in needed;
        }
      }
    }
  }

  /** No group is assigned that no referencing egg names. */
  lemma AssignedWithinRequested(eggs: seq<EggRef>, explicit: set<GroupId>, level: GroupId -> int, share: GroupId -> int)
    requires AllNonEmpty(eggs)
    ensures AssignedGroups(eggs, explicit, level, share) <= UnionOf(eggs)
  {
    if eggs != [] {
      ExplicitPicksSpec(eggs, explicit);
      var needed := Needed(eggs, explicit);
      NeededSpec(eggs, explicit);
      CoverWithinUnion(needed, level, share);
      UnionOfMono(needed, eggs);
    }
  }

  /** An egg that names an explicit group gets the first such group. */
  lemma ExplicitHonoured(eggs: seq<EggRef>, explicit: set<GroupId>, level: GroupId -> int, share: GroupId -> int, e: EggRef)
    requires AllNonEmpty(eggs)
    requires e in eggs && explicit * e.completeGroups != {}
    ensures MinNat(explicit * e.completeGroups) in AssignedGroups(eggs, explicit, level, share)
  {
    ExplicitPicksSpec(eggs, explicit);
  }

  /** When the explicit groups satisfy every egg, nothing beyond them is added. */
  lemma ExplicitSuffices(eggs: seq<EggRef>, explicit: set<GroupId>, level: GroupId -> int, share: GroupId -> int)
    requires AllNonEmpty(eggs)
    requires forall e :: e in eggs ==> explicit * e.completeGroups != {}
    ensures AssignedGroups(eggs, explicit, level, share) <= explicit
  {
    if eggs != [] {
      ExplicitPicksSpec(eggs, explicit);
      NeededSpec(eggs, explicit);
    }
  }

  // ---------------------------------------------------------------------
  // The loops of assign_groups

  /** Without explicit groups every egg is needed and none contributes a group. */
  lemma {:induction false} NoExplicitGroups(eggs: seq<EggRef>)
    ensures Needed(eggs, {}) == eggs
    ensures ExplicitPicks(eggs, {}) == {}
    decreases |eggs|
  {
    if eggs != [] {
      NoExplicitGroups(eggs[..|eggs| - 1]);
      assert eggs == eggs[..|eggs| - 1] + [eggs[|eggs| - 1]];
    }
  }

  /**
   * textureImage.cxx:77-112: with no explicit groups all eggs are needed;
   * otherwise an egg naming an explicit group contributes the first of those
   * groups and the others are needed.
   */
  method SplitByExplicit(eggs: seq<EggRef>, explicit: set<GroupId>)
    returns (definitelyIn: set<GroupId>, needed: seq<EggRef>)
    ensures definitelyIn == ExplicitPicks(eggs, explicit)
    ensures needed == Needed(eggs, explicit)
  {
    definitelyIn, needed := {}, [];
    if explicit == {} {
      NoExplicitGroups(eggs);
      needed := eggs;
    } else {
      var i := 0;
      while i < |eggs|
        invariant 0 <= i <= |eggs|
        invariant definitelyIn == ExplicitPicks(eggs[..i], explicit)
        invariant needed == Needed(eggs[..i], explicit)
      {
        assert eggs[..i + 1][..i] == eggs[..i];
        var intersect := explicit * eggs[i].completeGroups;
        if intersect != {} {
          var first := LeastNat(intersect);
          definitelyIn := definitelyIn + {first};
        } else {
          needed := needed + [eggs[i]];
        }
        i := i + 1;
      }
      assert eggs[..i] == eggs;
    }
  }

  /** The union loop at textureImage.cxx:113-116. */
  method CollectGroups(needed: seq<EggRef>) returns (total: set<GroupId>)
    ensures total == UnionOf(needed)
  {
    total := {};
    var i := 0;
    while i < |needed|
      invariant 0 <= i <= |needed|
      invariant total == UnionOf(needed[..i])
    {
      assert needed[..i + 1][..i] == needed[..i];
      total := total + needed[i].completeGroups;
      i := i + 1;
    }
    assert needed[..i] == needed;
  }

  /** The filter at textureImage.cxx:152-160: keep the eggs the chosen group does not satisfy. */
  method DropSatisfied(needed: seq<EggRef>, best: GroupId) returns (next: seq<EggRef>)
    ensures next == Unsatisfied(needed, best)
  {
    next := [];
    var i := 0;
    while i < |needed|
      invariant 0 <= i <= |needed|
      invariant next == Unsatisfied(needed[..i], best)
    {
      assert needed[..i + 1][..i] == needed[..i];
      if best !in needed[i].completeGroups {
        next := next + [needed[i]];
      }
      i := i + 1;
    }
    assert needed[..i] == needed;
  }

  /**
   * The greedy loop at textureImage.cxx:109-161, adding its choices to the
   * groups already definitely in.
   */
  method Cover(definitelyIn: set<GroupId>, needed: seq<EggRef>, level: GroupId -> int, share: GroupId -> int)
    returns (chosen: set<GroupId>)
    requires AllNonEmpty(needed)
    ensures chosen == definitelyIn + GreedyCover(needed, level, share)
  {
    chosen := definitelyIn;
    var working := needed;
    while working != []
      invariant AllNonEmpty(working)
      invariant chosen + GreedyCover(working, level, share) == definitelyIn + GreedyCover(needed, level, share)
      decreases |working|
    {
      var total := CollectGroups(working);
      ChoiceShrinks(working, level, share);
      var best := ChooseBest(total, working, level, share);
      chosen := chosen + {best};
      working := DropSatisfied(working, best);
    }
  }

  /** All of assign_groups' choice (textureImage.cxx:60-164), given referencing eggs. */
  method ChooseGroups(eggs: seq<EggRef>, explicit: set<GroupId>, level: GroupId -> int, share: GroupId -> int)
    returns (groups: set<GroupId>)
    requires AllNonEmpty(eggs)
    ensures groups == AssignedGroups(eggs, explicit, level, share)
  {
    if |eggs| == 0 {
      return {};
    }
    var definitelyIn, needed := SplitByExplicit(eggs, explicit);
    NeededSpec(eggs, explicit);
    groups := Cover(definitelyIn, needed, level, share);
  }

  // ---------------------------------------------------------------------
  // The greedy cover is not always irredundant

  // Eggs naming {1, 2}, {2, 3}, {1} and {3}; group 2 is the most specific.
  const ExA := EggRef(0, {1, 2})
  const ExB := EggRef(1, {2, 3})
  const ExC := EggRef(2, {1})
  const ExD := EggRef(3, {3})

  function ExLevel(g: GroupId): int { if g == 2 then 0 else 1 }

  function ExShare(g: GroupId): int { 0 }

  lemma ExFirstRound()
    ensures UnionOf([ExA, ExB, ExC, ExD]) == {1, 2, 3}
    ensures Choice({1, 2, 3}, [ExA, ExB, ExC, ExD], ExLevel, ExShare) == 2
    ensures Unsatisfied([ExA, ExB, ExC, ExD], 2) == [ExC, ExD]
  {
    var a, b, c, d := ExA, ExB, ExC, ExD;
    assert [a, b, c] + [d] == [a, b, c, d] && [a, b] + [c] == [a, b, c] && [a] + [b] == [a, b] && [] + [a] == [a];
    Snoc([], a, 1); Snoc([a], b, 1); Snoc([a, b], c, 1); Snoc([a, b, c], d, 1);
    Snoc([], a, 2); Snoc([a], b, 2); Snoc([a, b], c, 2); Snoc([a, b, c], d, 2);
    Snoc([], a, 3); Snoc([a], b, 3); Snoc([a, b], c, 3); Snoc([a, b, c], d, 3);
    ChoiceUnique(2, {1, 2, 3}, [a, b, c, d], ExLevel, ExShare);
  }

  lemma ExLaterRounds()
    ensures UnionOf([ExC, ExD]) == {1, 3}
    ensures Choice({1, 3}, [ExC, ExD], ExLevel, ExShare) == 1
    ensures Unsatisfied([ExC, ExD], 1) == [ExD]
    ensures UnionOf([ExD]) == {3}
    ensures Choice({3}, [ExD], ExLevel, ExShare) == 3
    ensures Unsatisfied([ExD], 3) == []
  {
    var c, d := ExC, ExD;
    assert [c] + [d] == [c, d] && [] + [c] == [c] && [] + [d] == [d];
    Snoc([], c, 1); Snoc([c], d, 1); Snoc([], d, 1);
    Snoc([], c, 3); Snoc([c], d, 3); Snoc([], d, 3);
    ChoiceUnique(1, {1, 3}, [c, d], ExLevel, ExShare);
    ChoiceUnique(3, {3}, [d], ExLevel, ExShare);
  }

  /**
   * On those eggs every group satisfies two eggs, so group 2 is taken first,
   * and groups 1 and 3 are still needed afterwards, although {1, 3} alone
   * satisfies every egg.
   */
  lemma GreedyMayBeRedundant()
    ensures GreedyCover([ExA, ExB, ExC, ExD], ExLevel, ExShare) == {1, 2, 3}
    ensures forall e :: e in [ExA, ExB, ExC, ExD] ==> e.completeGroups * {1, 3} != {}
  {
    ExFirstRound();
    ExLaterRounds();
    assert GreedyCover([ExD], ExLevel, ExShare) == {3};
    assert GreedyCover([ExC, ExD], ExLevel, ExShare) == {1, 3};
    assert 1 in ExA.completeGroups * {1, 3};
    assert 3 in ExB.completeGroups * {1, 3};
  }

  /** Appending one egg to a list, as the functions above see it. */
  lemma Snoc(eggs: seq<EggRef>, e: EggRef, g: GroupId)
    ensures CountSatisfied(g, eggs + [e]) == CountSatisfied(g, eggs) + (if g in e.completeGroups then 1 else 0)
    ensures UnionOf(eggs + [e]) == UnionOf(eggs) + e.completeGroups
    ensures Unsatisfied(eggs + [e], g) == Unsatisfied(eggs, g) + (if g in e.completeGroups then [] else [e])
  {
    assert (eggs + [e])[..|eggs|] == eggs;
  }
}
