/**
 * The destination differencing of TextureImage::copy_unplaced
 * (src/egg-palettize/textureImage.cxx:501-553, 860-934): the dests of the
 * previous session and the dests to generate now are both std::maps keyed by
 * canonical filename, and two sorted merges decide which files to unlink, to
 * copy, and to copy only if stale.
 */
module DestDiff {
  import opened Ordering
  import opened Wrappers
  import opened GroupCover
  import opened Placements

  // ---------------------------------------------------------------------
  // What the merges do, file by file, in key order

  /** An Unlink for each file in `ks` that is not also in `keep`. */
  function Unlinks(ks: seq<string>, keep: set<string>): seq<Event>
  {
    if |ks| == 0 then []
    else
      var k := ks[|ks| - 1];
      Unlinks(ks[..|ks| - 1], keep) + (if k in keep then [] else [Unlink(k)])
  }

  /** For each file in `ks`: CopyIfStale when `prev` has it, Copy otherwise. */
  function Copies(ks: seq<string>, prev: set<string>): seq<Event>
  {
    if |ks| == 0 then []
    else
      var k := ks[|ks| - 1];
      Copies(ks[..|ks| - 1], prev) + [if k in prev then CopyIfStale(k) else Copy(k)]
  }

  lemma {:induction false} UnlinksSpec(ks: seq<string>, keep: set<string>)
    ensures forall e :: e in Unlinks(ks, keep) ==> e.Unlink? && e.file in ks && e.file !in keep
    ensures forall k :: k in ks && k !in keep ==> Unlink(k) in Unlinks(ks, keep)
    ensures |Unlinks(ks, keep)| <= |ks|
    decreases |ks|
  {
    if |ks| > 0 {
      var init := ks[..|ks| - 1];
      UnlinksSpec(init, keep);
      assert ks == init + [ks[|ks| - 1]];
    }
  }

  lemma {:induction false} CopiesSpec(ks: seq<string>, prev: set<string>)
    ensures forall e :: e in Copies(ks, prev) ==>
              (e.Copy? || e.CopyIfStale?) && e.file in ks && (e.CopyIfStale? <==> e.file in prev)
    ensures forall k :: k in ks && k in prev ==> CopyIfStale(k) in Copies(ks, prev)
    ensures forall k :: k in ks && k !in prev ==> Copy(k) in Copies(ks, prev)
    ensures |Copies(ks, prev)| == |ks|
    decreases |ks|
  {
    if |ks| > 0 {
      var init := ks[..|ks| - 1];
      CopiesSpec(init, prev);
      assert ks == init + [ks[|ks| - 1]];
    }
  }

  /** Nothing is unlinked when every file is kept. */
  lemma {:induction false} UnlinksNone(ks: seq<string>, keep: set<string>)
    requires forall k :: k in ks ==> k in keep
    ensures Unlinks(ks, keep) == []
    decreases |ks|
  {
    if |ks| > 0 {
      var init := ks[..|ks| - 1];
      assert forall k :: k in init ==> k in ks;
      UnlinksNone(init, keep);
    }
  }

  /** Walking the files in increasing order, no file is unlinked twice. */
  lemma {:induction false} UnlinksDistinct(ks: seq<string>, keep: set<string>)
    requires IncreasingStrs(ks)
    ensures forall i, j :: 0 <= i < j < |Unlinks(ks, keep)| ==> Unlinks(ks, keep)[i] != Unlinks(ks, keep)[j]
    decreases |ks|
  {
    if |ks| > 0 {
      var init := ks[..|ks| - 1];
      var last := ks[|ks| - 1];
      assert IncreasingStrs(init);
      UnlinksDistinct(init, keep);
      UnlinksSpec(init, keep);
      forall e | e in Unlinks(init, keep) ensures e != Unlink(last) {
        var k :| 0 <= k < |init| && init[k] == e.file;
        IncreasingStrsDistinct(ks, k, |ks| - 1);
      }
    }
  }

  /** Walking the files in increasing order, no file is copied twice. */
  lemma {:induction false} CopiesDistinct(ks: seq<string>, prev: set<string>)
    requires IncreasingStrs(ks)
    ensures forall i, j :: 0 <= i < j < |Copies(ks, prev)| ==> Copies(ks, prev)[i] != Copies(ks, prev)[j]
    decreases |ks|
  {
    if |ks| > 0 {
      var init := ks[..|ks| - 1];
      var last := ks[|ks| - 1];
      assert IncreasingStrs(init);
      CopiesDistinct(init, prev);
      CopiesSpec(init, prev);
      var r := Copies(ks, prev);
      forall i | 0 <= i < |r| - 1 ensures r[i] != r[|r| - 1] {
        assert r[i] in Copies(init, prev);
        var k :| 0 <= k < |init| && init[k] == r[i].file;
        IncreasingStrsDistinct(ks, k, |ks| - 1);
      }
    }
  }

  // ---------------------------------------------------------------------
  // The merges

  /** Every name visited in one sequence is below every name not yet visited in the other. */
  ghost predicate Below(xs: seq<string>, ys: seq<string>, i: int, j: int)
  {
    forall k, l :: 0 <= k < |xs| && k < i && 0 <= l < |ys| && j <= l ==> StrLess(xs[k], ys[l])
  }

  ghost predicate StrMergeOrder(xs: seq<string>, ys: seq<string>, i: int, j: int)
  {
    0 <= i <= |xs| && 0 <= j <= |ys| && IncreasingStrs(xs) && IncreasingStrs(ys) &&
    Below(xs, ys, i, j) && Below(ys, xs, j, i)
  }

  lemma StrMergeInit(xs: seq<string>, ys: seq<string>, x: set<string>, y: set<string>)
    requires xs == SortedStrs(x) && ys == SortedStrs(y)
    ensures StrMergeOrder(xs, ys, 0, 0)
    ensures forall s :: s in x <==> s in xs
    ensures forall s :: s in y <==> s in ys
  {
    SortedStrsSpec(x);
    SortedStrsSpec(y);
  }

  /** xs[i] comes before the head of ys: it is in xs only, and the merge moves past it. */
  lemma StrAdvance(xs: seq<string>, ys: seq<string>, i: int, j: int)
    requires StrMergeOrder(xs, ys, i, j) && i < |xs|
    requires j == |ys| || StrLess(xs[i], ys[j])
    ensures StrMergeOrder(xs, ys, i + 1, j)
    ensures xs[i] !in ys
  {
    forall l | j <= l < |ys| ensures StrLess(xs[i], ys[l]) {
      if l > j { StrLessTransitive(xs[i], ys[j], ys[l]); }
    }
    forall l | 0 <= l < |ys| ensures ys[l] != xs[i] {
      if l < j {
        assert StrLess(ys[l], xs[i]);
        StrLessIrreflexive(xs[i]);
      } else {
        StrLessIrreflexive(xs[i]);
      }
    }
  }

  /** Neither head is below the other: they are the same name, and the merge moves past both. */
  lemma StrAdvanceBoth(xs: seq<string>, ys: seq<string>, i: int, j: int)
    requires StrMergeOrder(xs, ys, i, j) && i < |xs| && j < |ys|
    requires !StrLess(xs[i], ys[j]) && !StrLess(ys[j], xs[i])
    ensures xs[i] == ys[j]
    ensures StrMergeOrder(xs, ys, i + 1, j + 1)
  {
    StrLessTotal(xs[i], ys[j]);
    forall k, l | 0 <= k < i + 1 && j + 1 <= l < |ys| ensures StrLess(xs[k], ys[l]) {
      if k == i { assert StrLess(ys[j], ys[l]); }
    }
    forall k, l | 0 <= k < j + 1 && i + 1 <= l < |xs| ensures StrLess(ys[k], xs[l]) {
      if k == j { assert StrLess(xs[i], xs[l]); }
    }
  }

  /** ys[j] is named only in the old dests: it is unlinked. */
  lemma UnlinkStep(xs: seq<string>, ys: seq<string>, i: int, j: int, keep: set<string>, evs: seq<Event>)
    requires StrMergeOrder(xs, ys, i, j) && j < |ys|
    requires i == |xs| || StrLess(ys[j], xs[i])
    requires forall s :: s in keep <==> s in xs
    requires evs == Unlinks(ys[..j], keep)
    ensures StrMergeOrder(xs, ys, i, j + 1)
    ensures evs + [Unlink(ys[j])] == Unlinks(ys[..j + 1], keep)
  {
    StrAdvance(ys, xs, j, i);
    assert ys[..j + 1][..j] == ys[..j];
  }

  /** ys[j] == xs[i] is named in both: it is kept. */
  lemma KeepStep(xs: seq<string>, ys: seq<string>, i: int, j: int, keep: set<string>, evs: seq<Event>)
    requires StrMergeOrder(xs, ys, i, j) && i < |xs| && j < |ys|
    requires !StrLess(xs[i], ys[j]) && !StrLess(ys[j], xs[i])
    requires forall s :: s in keep <==> s in xs
    requires evs == Unlinks(ys[..j], keep)
    ensures StrMergeOrder(xs, ys, i + 1, j + 1)
    ensures evs == Unlinks(ys[..j + 1], keep)
  {
    StrAdvanceBoth(xs, ys, i, j);
    assert ys[..j + 1][..j] == ys[..j];
  }

  /**
   * remove_old_dests(a, b) (textureImage.cxx:860-891): unlinks every file
   * named in b that is not also named in a.  The main loop and the tail loop
   * over b are one loop here; the tail loop over a does nothing.
   */
  method RemoveOldDests(a: map<string, Dest>, b: map<string, Dest>) returns (evs: seq<Event>)
    ensures evs == Unlinks(SortedStrs(b.Keys), a.Keys)
  {
    var xs := EnumerateStrs(a.Keys);
    var ys := EnumerateStrs(b.Keys);
    StrMergeInit(xs, ys, a.Keys, b.Keys);
    evs := [];
    var i, j := 0, 0;
    while j < |ys|
      invariant StrMergeOrder(xs, ys, i, j)
      invariant evs == Unlinks(ys[..j], a.Keys)
      decreases |xs| - i + |ys| - j
    {
      if i < |xs| && StrLess(xs[i], ys[j]) {
        StrAdvance(xs, ys, i, j);
        i := i + 1;
      } else if i == |xs| || StrLess(ys[j], xs[i]) {
        UnlinkStep(xs, ys, i, j, a.Keys, evs);
        evs := evs + [Unlink(ys[j])];
        j := j + 1;
      } else {
        KeepStep(xs, ys, i, j, a.Keys, evs);
        i, j := i + 1, j + 1;
      }
    }
    assert ys[..j] == ys;
  }

  /** xs[i] is named only in the new dests: it is copied. */
  lemma CopyStep(xs: seq<string>, ys: seq<string>, i: int, j: int, prev: set<string>, evs: seq<Event>)
    requires StrMergeOrder(xs, ys, i, j) && i < |xs|
    requires j == |ys| || StrLess(xs[i], ys[j])
    requires forall s :: s in prev <==> s in ys
    requires evs == Copies(xs[..i], prev)
    ensures StrMergeOrder(xs, ys, i + 1, j)
    ensures evs + [Copy(xs[i])] == Copies(xs[..i + 1], prev)
  {
    StrAdvance(xs, ys, i, j);
    assert xs[..i + 1][..i] == xs[..i];
  }

  /** xs[i] == ys[j] is named in both: it is copied if stale. */
  lemma RefreshStep(xs: seq<string>, ys: seq<string>, i: int, j: int, prev: set<string>, evs: seq<Event>)
    requires StrMergeOrder(xs, ys, i, j) && i < |xs| && j < |ys|
    requires !StrLess(xs[i], ys[j]) && !StrLess(ys[j], xs[i])
    requires forall s :: s in prev <==> s in ys
    requires evs == Copies(xs[..i], prev)
    ensures StrMergeOrder(xs, ys, i + 1, j + 1)
    ensures evs + [CopyIfStale(xs[i])] == Copies(xs[..i + 1], prev)
  {
    StrAdvanceBoth(xs, ys, i, j);
    assert xs[..i + 1][..i] == xs[..i];
  }

  /**
   * copy_new_dests(a, b) (textureImage.cxx:903-934): copies every file named
   * in a but not in b, and asks every file named in both to copy itself if
   * stale.  The main loop and the tail loop over a are one loop here.
   */
  method CopyNewDests(a: map<string, Dest>, b: map<string, Dest>) returns (evs: seq<Event>)
    ensures evs == Copies(SortedStrs(a.Keys), b.Keys)
  {
    var xs := EnumerateStrs(a.Keys);
    var ys := EnumerateStrs(b.Keys);
    StrMergeInit(xs, ys, a.Keys, b.Keys);
    evs := [];
    var i, j := 0, 0;
    while i < |xs|
      invariant StrMergeOrder(xs, ys, i, j)
      invariant evs == Copies(xs[..i], b.Keys)
      decreases |xs| - i + |ys| - j
    {
      if j == |ys| || StrLess(xs[i], ys[j]) {
        CopyStep(xs, ys, i, j, b.Keys, evs);
        evs := evs + [Copy(xs[i])];
        i := i + 1;
      } else if StrLess(ys[j], xs[i]) {
        StrAdvance(ys, xs, j, i);
        j := j + 1;
      } else {
        RefreshStep(xs, ys, i, j, b.Keys, evs);
        evs := evs + [CopyIfStale(xs[i])];
        i, j := i + 1, j + 1;
      }
    }
    assert xs[..i] == xs;
  }

  // ---------------------------------------------------------------------
  // copy_unplaced's two modes

  /**
   * The file operations copy_unplaced asks for (textureImage.cxx:532-544):
   * with redo_all, unlink everything prev and copy everything new; otherwise
   * difference the prev dests against the generated ones.
   */
  ghost function DestEvents(generate: map<string, Dest>, prev: map<string, Dest>, redoAll: bool): seq<Event>
  {
    if redoAll then Unlinks(SortedStrs(prev.Keys), {}) + Copies(SortedStrs(generate.Keys), {})
    else Unlinks(SortedStrs(prev.Keys), generate.Keys) + Copies(SortedStrs(generate.Keys), prev.Keys)
  }

  /** The two calls of textureImage.cxx:532-544, in order. */
  method DiffDests(generate: map<string, Dest>, prev: map<string, Dest>, redoAll: bool) returns (evs: seq<Event>)
    ensures evs == DestEvents(generate, prev, redoAll)
  {
    var removed, copied;
    if redoAll {
      var empty: map<string, Dest> := map[];
      assert empty.Keys == {};
      removed := RemoveOldDests(empty, prev);
      copied := CopyNewDests(generate, empty);
    } else {
      removed := RemoveOldDests(generate, prev);
      copied := CopyNewDests(generate, prev);
    }
    evs := removed + copied;
  }

  /** Without redo_all: unlink exactly the stale-only files, copy exactly the new-only ones, refresh the rest. */
  lemma DestEventsIncremental(generate: map<string, Dest>, prev: map<string, Dest>, f: string)
    ensures Unlink(f) in DestEvents(generate, prev, false) <==> f in prev && f !in generate
    ensures Copy(f) in DestEvents(generate, prev, false) <==> f in generate && f !in prev
    ensures CopyIfStale(f) in DestEvents(generate, prev, false) <==> f in generate && f in prev
  {
    SortedStrsSpec(prev.Keys);
    SortedStrsSpec(generate.Keys);
    UnlinksSpec(SortedStrs(prev.Keys), generate.Keys);
    CopiesSpec(SortedStrs(generate.Keys), prev.Keys);
  }

  /** With redo_all: unlink every prev file, copy every new one, and never copy only-if-stale. */
  lemma DestEventsRedo(generate: map<string, Dest>, prev: map<string, Dest>, f: string)
    ensures Unlink(f) in DestEvents(generate, prev, true) <==> f in prev
    ensures Copy(f) in DestEvents(generate, prev, true) <==> f in generate
    ensures CopyIfStale(f) !in DestEvents(generate, prev, true)
  {
    SortedStrsSpec(prev.Keys);
    SortedStrsSpec(generate.Keys);
    UnlinksSpec(SortedStrs(prev.Keys), {});
    CopiesSpec(SortedStrs(generate.Keys), {});
  }

  /** Generating the same files as last session touches each of them once, only if stale. */
  lemma DestEventsUnchanged(dests: map<string, Dest>)
    ensures forall e :: e in DestEvents(dests, dests, false) ==> e.CopyIfStale?
    ensures |DestEvents(dests, dests, false)| == |dests|
  {
    var ks := SortedStrs(dests.Keys);
    SortedStrsSpec(dests.Keys);
    UnlinksNone(ks, dests.Keys);
    CopiesSpec(ks, dests.Keys);
  }

  // ---------------------------------------------------------------------
  // The dests to generate

  ghost predicate Unplaced(pl: map<GroupId, Placement>, g: GroupId)
  {
    g in pl && pl[g].omitReason != ORNone
  }

  /**
   * The dests copy_unplaced generates (textureImage.cxx:510-529), visiting the
   * placements of groups `gs` in order: one per canonical filename, made for
   * the first placement not on a palette that maps to it.  `destName` is the
   * canonical filename DestTextureImage gives a placement's copy.
   */
  ghost function Generated(gs: seq<GroupId>, pl: map<GroupId, Placement>, destName: GroupId -> string): map<string, Dest>
    decreases |gs|
  {
    if gs == [] then map[]
    else
      var g := gs[|gs| - 1];
      var m := Generated(gs[..|gs| - 1], pl, destName);
      if Unplaced(pl, g) && destName(g) !in m then m[destName(g) := Dest(destName(g), g)] else m
  }

  /** There is a dest for the filename of every placement not on a palette. */
  lemma {:induction false} GeneratedCovers(gs: seq<GroupId>, pl: map<GroupId, Placement>, destName: GroupId -> string)
    requires forall g :: g in gs ==> g in pl
    ensures forall g :: g in gs && Unplaced(pl, g) ==> destName(g) in Generated(gs, pl, destName)
    decreases |gs|
  {
    if gs != [] {
      var init := gs[..|gs| - 1];
      assert gs == init + [gs[|gs| - 1]];
      assert forall h :: h in init ==> h in gs;
      GeneratedCovers(init, pl, destName);
    }
  }

  /** Each dest carries its own filename and was made for an unplaced placement mapping to it. */
  lemma {:induction false} GeneratedSound(gs: seq<GroupId>, pl: map<GroupId, Placement>, destName: GroupId -> string)
    requires forall g :: g in gs ==> g in pl
    ensures forall f :: f in Generated(gs, pl, destName) ==>
              var d := Generated(gs, pl, destName)[f];
              d.filename == f && d.group in gs && Unplaced(pl, d.group) && destName(d.group) == f
    decreases |gs|
  {
    if gs != [] {
      var init := gs[..|gs| - 1];
      assert gs == init + [gs[|gs| - 1]];
      assert forall h :: h in init ==> h in gs;
      GeneratedSound(init, pl, destName);
    }
  }

  /**
   * Visiting the placements in increasing group order, the dest for a
   * filename is made for the least group mapping to it: duplicates collapse
   * to the first.
   */
  lemma {:induction false} GeneratedFirst(gs: seq<GroupId>, pl: map<GroupId, Placement>, destName: GroupId -> string)
    requires forall g :: g in gs ==> g in pl
    requires IncreasingNats(gs)
    ensures forall g :: g in gs && Unplaced(pl, g) ==>
              destName(g) in Generated(gs, pl, destName) && Generated(gs, pl, destName)[destName(g)].group <= g
    decreases |gs|
  {
    GeneratedCovers(gs, pl, destName);
    if gs != [] {
      var init := gs[..|gs| - 1];
      var g := gs[|gs| - 1];
      assert gs == init + [g];
      assert forall h :: h in init ==> h in gs;
      assert IncreasingNats(init);
      GeneratedFirst(init, pl, destName);
      GeneratedSound(init, pl, destName);
      var m := Generated(init, pl, destName);
      var m' := Generated(gs, pl, destName);
      forall h | h in gs && Unplaced(pl, h) ensures destName(h) in m' && m'[destName(h)].group <= h {
        if h in init {
          assert destName(h) in m;
        } else if destName(g) in m {
          var i :| 0 <= i < |init| && init[i] == m[destName(g)].group;
          assert gs[i] == init[i];
        }
      }
    }
  }

  /** Later placements never replace a dest already generated. */
  lemma GeneratedGrows(gs: seq<GroupId>, pl: map<GroupId, Placement>, destName: GroupId -> string, i: int)
    requires forall g :: g in gs ==> g in pl
    requires 0 <= i < |gs|
    ensures var before := Generated(gs[..i], pl, destName);
            var after := Generated(gs[..i + 1], pl, destName);
            (forall f :: f in before ==> f in after && after[f] == before[f]) &&
            (Unplaced(pl, gs[i]) ==> destName(gs[i]) in after) &&
            (forall f :: f in after ==> f in before || (Unplaced(pl, gs[i]) && f == destName(gs[i])))
  {
    assert gs[..i + 1][..i] == gs[..i];
  }

  /** The placements once each placement of groups `gs`, visited in order, points at the dest for its filename. */
  ghost function MarkedAmong(pl: map<GroupId, Placement>, gs: seq<GroupId>, generate: map<string, Dest>,
                             destName: GroupId -> string): map<GroupId, Placement>
    decreases |gs|
  {
    if gs == [] then pl
    else
      var g := gs[|gs| - 1];
      var m := MarkedAmong(pl, gs[..|gs| - 1], generate, destName);
      if Unplaced(pl, g) && destName(g) in generate then m[g := pl[g].(dest := Some(generate[destName(g)]))] else m
  }

  /** Placement by placement: a visited placement not on a palette is marked, every other one is unchanged. */
  lemma {:induction false} MarkedAmongAt(pl: map<GroupId, Placement>, gs: seq<GroupId>, generate: map<string, Dest>,
                                         destName: GroupId -> string)
    ensures MarkedAmong(pl, gs, generate, destName).Keys == pl.Keys
    ensures forall g :: g in pl ==>
              MarkedAmong(pl, gs, generate, destName)[g] ==
                if g in gs && Unplaced(pl, g) && destName(g) in generate
                then pl[g].(dest := Some(generate[destName(g)])) else pl[g]
    decreases |gs|
  {
    if gs != [] {
      var init := gs[..|gs| - 1];
      assert gs == init + [gs[|gs| - 1]];
      MarkedAmongAt(pl, init, generate, destName);
    }
  }

  /** Marking with a larger map of dests changes nothing for placements whose dest both maps agree on. */
  lemma {:induction false} MarkedAmongAgree(pl: map<GroupId, Placement>, gs: seq<GroupId>,
                                            generate: map<string, Dest>, generate': map<string, Dest>,
                                            destName: GroupId -> string)
    requires forall h :: h in gs && Unplaced(pl, h) ==>
               destName(h) in generate && destName(h) in generate' && generate'[destName(h)] == generate[destName(h)]
    ensures MarkedAmong(pl, gs, generate', destName) == MarkedAmong(pl, gs, generate, destName)
    decreases |gs|
  {
    if gs != [] {
      var init := gs[..|gs| - 1];
      assert forall h :: h in init ==> h in gs;
      MarkedAmongAgree(pl, init, generate, generate', destName);
    }
  }

  /** The same, for every placement. */
  ghost function Marked(pl: map<GroupId, Placement>, generate: map<string, Dest>, destName: GroupId -> string)
    : map<GroupId, Placement>
  {
    map g | g in pl :: if Unplaced(pl, g) && destName(g) in generate then pl[g].(dest := Some(generate[destName(g)])) else pl[g]
  }

  /** What the loop of MarkDests has built after visiting the first `i` groups of `gs`. */
  ghost predicate MarkedUpTo(pl: map<GroupId, Placement>, gs: seq<GroupId>, destName: GroupId -> string, i: int,
                             generate: map<string, Dest>, marked: map<GroupId, Placement>)
  {
    0 <= i <= |gs| && generate == Generated(gs[..i], pl, destName) && marked == MarkedAmong(pl, gs[..i], generate, destName)
  }

  /** One step of the loop: the next group's placement is marked and the earlier ones keep their dests. */
  lemma MarkStep(pl: map<GroupId, Placement>, gs: seq<GroupId>, destName: GroupId -> string, i: int,
                 generate: map<string, Dest>, marked: map<GroupId, Placement>,
                 generate': map<string, Dest>, marked': map<GroupId, Placement>)
    requires forall g :: g in gs ==> g in pl
    requires 0 <= i < |gs|
    requires MarkedUpTo(pl, gs, destName, i, generate, marked)
    requires var g := gs[i];
             generate' == if Unplaced(pl, g) && destName(g) !in generate
                          then generate[destName(g) := Dest(destName(g), g)] else generate
    requires var g := gs[i];
             marked' == if Unplaced(pl, g) then marked[g := pl[g].(dest := Some(generate'[destName(g)]))] else marked
    ensures MarkedUpTo(pl, gs, destName, i + 1, generate', marked')
  {
    assert gs[..i + 1][..i] == gs[..i];
    GeneratedGrows(gs, pl, destName, i);
    assert forall h :: h in gs[..i] ==> h in pl;
    GeneratedCovers(gs[..i], pl, destName);
    MarkedAmongAgree(pl, gs[..i], generate, generate', destName);
  }

  /** Once every group has been visited, every placement is marked. */
  lemma MarkedAll(pl: map<GroupId, Placement>, gs: seq<GroupId>, generate: map<string, Dest>, destName: GroupId -> string)
    requires forall g :: g in pl ==> g in gs
    ensures MarkedAmong(pl, gs, generate, destName) == Marked(pl, generate, destName)
  {
    MarkedAmongAt(pl, gs, generate, destName);
  }

  /**
   * The first loop of copy_unplaced (textureImage.cxx:510-529), over the
   * placements in group order: the dests to generate, and the placements with
   * their dests set.
   */
  method MarkDests(pl: map<GroupId, Placement>, destName: GroupId -> string)
    returns (generate: map<string, Dest>, marked: map<GroupId, Placement>)
    ensures generate == Generated(SortedNats(pl.Keys), pl, destName)
    ensures marked == Marked(pl, generate, destName)
  {
    var gs := EnumerateNats(pl.Keys);
    SortedNatsMembers(pl.Keys);
    generate, marked := map[], pl;
    var i := 0;
    while i < |gs|
      invariant 0 <= i <= |gs|
      invariant MarkedUpTo(pl, gs, destName, i, generate, marked)
    {
      ghost var generate0, marked0 := generate, marked;
      var g := gs[i];
      if pl[g].omitReason != ORNone {
        var filename := destName(g);
        if filename !in generate {
          generate := generate[filename := Dest(filename, g)];
        }
        marked := marked[g := pl[g].(dest := Some(generate[filename]))];
      }
      MarkStep(pl, gs, destName, i, generate0, marked0, generate, marked);
      i := i + 1;
    }
    assert gs[..|gs|] == gs;
    MarkedAll(pl, gs, generate, destName);
  }

  /**
   * Setting the dests keeps every placement's group and identity, points each
   * placement not on a palette at a dest for its own filename, and leaves the
   * others alone.
   */
  lemma MarkedSpec(pl: map<GroupId, Placement>, destName: GroupId -> string)
    ensures var gen := Generated(SortedNats(pl.Keys), pl, destName);
            var m := Marked(pl, gen, destName);
            m.Keys == pl.Keys &&
            (forall g :: g in m ==> m[g].id == pl[g].id && m[g].group == pl[g].group && m[g].omitReason == pl[g].omitReason) &&
            (forall g :: g in m && Unplaced(pl, g) ==>
               destName(g) in gen && m[g].dest == Some(gen[destName(g)]) && gen[destName(g)].filename == destName(g)) &&
            (forall g :: g in m && !Unplaced(pl, g) ==> m[g] == pl[g])
  {
    SortedNatsSpec(pl.Keys);
    GeneratedCovers(SortedNats(pl.Keys), pl, destName);
    GeneratedSound(SortedNats(pl.Keys), pl, destName);
  }

  /** Setting dests keeps the placements valid: groups and identities do not change. */
  lemma MarkedValid(pl: map<GroupId, Placement>, generate: map<string, Dest>, destName: GroupId -> string, next: nat)
    requires PlacementsValid(pl, next)
    ensures Marked(pl, generate, destName).Keys == pl.Keys
    ensures PlacementsValid(Marked(pl, generate, destName), next)
  {
  }
}
