/**
 * The Palettizer (src/egg-palettize/palettizer.cxx): the name-keyed tables of
 * egg files, palette groups and textures with their get-or-create accessors,
 * the session defaults, and the passes that drive a run.  The passes call
 * into EggFile, PaletteGroup, TxaFile and TextureImage; each such call is
 * recorded as a Call in `log`, so the order of a run and the arguments of its
 * calls are what the passes are proved to produce.
 */
module Engine {
  import opened Wrappers
  import opened Ordering
  import opened TextureSources
  import Textures

  /** Palettizer::RemapUV. */
  datatype RemapUv = RemapNever | RemapGroup | RemapPoly

  /** A PNMFileType, known by the extension it was looked up with. */
  datatype FileType = FileType(extension: string)

  /** The fields of an EggFile the palettizer's passes consult. */
  datatype EggFileRec = EggFileRec(name: string, hasData: bool, stale: bool)

  /** The fields of a PaletteGroup the palettizer itself sets. */
  datatype GroupRec = GroupRec(name: string, dirname: string)

  /** A new EggFile: no egg data read yet, and stale until brought up to date. */
  function NewEggFile(name: string): EggFileRec
  {
    EggFileRec(name, false, true)
  }

  /** A new PaletteGroup: no directory name yet. */
  function NewGroup(name: string): GroupRec
  {
    GroupRec(name, "")
  }

  /** The settings a new TextureImage starts with: nothing known, nothing requested. */
  const NoProperties := Properties(false, 0, Unspecified, Unspecified, Unspecified)
  const NoRequest := Request(false, 0, 0, false, 0, Unspecified, Unspecified, Unspecified)

  // ---------------------------------------------------------------------
  // Get-or-create tables

  /** The table after a get-or-create of `name`, creating `v` if the name is new. */
  function Intern<V>(m: map<string, V>, name: string, v: V): (r: map<string, V>)
    ensures name in r && r.Keys == m.Keys + {name}
    ensures name in m ==> r == m
    ensures name !in m ==> r[name] == v
    ensures forall k :: k in m ==> r[k] == m[k]
  {
    if name in m then m else m[name := v]
  }

  /** A repeat get-or-create finds what the first one left, and changes nothing. */
  lemma InternIdempotent<V>(m: map<string, V>, name: string, v: V, w: V)
    ensures Intern(Intern(m, name, v), name, w) == Intern(m, name, v)
    ensures Intern(Intern(m, name, v), name, w)[name] == Intern(m, name, v)[name]
  {
  }

  /** A get-or-create adds at most one entry. */
  lemma InternGrowsByOne<V>(m: map<string, V>, name: string, v: V)
    ensures |Intern(m, name, v)| == |m| + (if name in m then 0 else 1)
  {
    if name !in m {
      assert Intern(m, name, v).Keys == m.Keys + {name};
    }
  }

  /** get_default_group's table: the default group, given the default directory if it has none. */
  function WithDefaultGroup(gs: map<string, GroupRec>, name: string, dir: string): (r: map<string, GroupRec>)
    ensures name in r && r.Keys == gs.Keys + {name}
    ensures forall k :: k in gs && k != name ==> r[k] == gs[k]
  {
    var t := Intern(gs, name, NewGroup(name));
    if dir != "" && t[name].dirname == "" then t[name := t[name].(dirname := dir)] else t
  }

  /**
   * The default group gets the default directory exactly when that is
   * non-empty and the group has no directory yet; it is otherwise the group
   * get_palette_group returns, and asking again changes nothing.
   */
  lemma DefaultGroupDirname(gs: map<string, GroupRec>, name: string, dir: string)
    ensures var g := Intern(gs, name, NewGroup(name))[name];
            WithDefaultGroup(gs, name, dir)[name] ==
              if dir != "" && g.dirname == "" then g.(dirname := dir) else g
    ensures name in gs && gs[name].dirname != "" ==> WithDefaultGroup(gs, name, dir) == gs
    ensures WithDefaultGroup(WithDefaultGroup(gs, name, dir), name, dir) == WithDefaultGroup(gs, name, dir)
  {
  }

  // ---------------------------------------------------------------------
  // The calls a run makes

  datatype Call =
    | ScanTextures(egg: string) | GetTextures(egg: string)
    | EggPreTxa(egg: string) | MatchEgg(egg: string) | EggPostTxa(egg: string)
    | BuildCrossLinks(egg: string)
    | ReadSourceImage(texture: string) | TexturePreTxa(texture: string)
    | MatchTexture(texture: string) | TexturePostTxa(texture: string)
    | AssignGroups(texture: string) | ChoosePlacements(egg: string)
    | DeterminePlacementSize(texture: string) | PlaceAll(group: string)
    | ClearDepends(group: string) | ReadTxa | SetDependencyLevel(group: string, level: int)
    | UpdateImages(group: string, redoAll: bool) | CopyUnplaced(texture: string, redoAll: bool)
    | ReadEgg(egg: string) | UpdateEgg(egg: string) | WriteEgg(egg: string)

  /** The egg, texture or group a call is made on. */
  function Subject(c: Call): string
  {
    match c
    case ReadTxa => ""
    case ScanTextures(e) => e
    case GetTextures(e) => e
    case EggPreTxa(e) => e
    case MatchEgg(e) => e
    case EggPostTxa(e) => e
    case BuildCrossLinks(e) => e
    case ReadSourceImage(t) => t
    case TexturePreTxa(t) => t
    case MatchTexture(t) => t
    case TexturePostTxa(t) => t
    case AssignGroups(t) => t
    case ChoosePlacements(e) => e
    case DeterminePlacementSize(t) => t
    case PlaceAll(g) => g
    case ClearDepends(g) => g
    case SetDependencyLevel(g, _) => g
    case UpdateImages(g, _) => g
    case CopyUnplaced(t, _) => t
    case ReadEgg(e) => e
    case UpdateEgg(e) => e
    case WriteEgg(e) => e
  }

  /**
   * The phase a call belongs to.  Within one pass the phases follow each
   * other in increasing order: egg matching (1), cross links (2), texture
   * matching (3), group assignment (4), placement choice (5), placement
   * size (6), packing (7); in read_txa_file clearing (10), reading (11) and
   * levelling (12); in generate_images group images (20) before unplaced
   * copies (21).
   */
  function Rank(c: Call): nat
  {
    match c
    case ScanTextures(_) => 1
    case GetTextures(_) => 1
    case EggPreTxa(_) => 1
    case MatchEgg(_) => 1
    case EggPostTxa(_) => 1
    case BuildCrossLinks(_) => 2
    case ReadSourceImage(_) => 3
    case TexturePreTxa(_) => 3
    case MatchTexture(_) => 3
    case TexturePostTxa(_) => 3
    case AssignGroups(_) => 4
    case ChoosePlacements(_) => 5
    case DeterminePlacementSize(_) => 6
    case PlaceAll(_) => 7
    case ClearDepends(_) => 10
    case ReadTxa => 11
    case SetDependencyLevel(_, _) => 12
    case UpdateImages(_, _) => 20
    case CopyUnplaced(_, _) => 21
    case ReadEgg(_) => 0
    case UpdateEgg(_) => 0
    case WriteEgg(_) => 0
  }

  /** What one iteration of one of the passes' loops does with the egg, texture or group it visits. */
  datatype Step =
    | ScanStep(matchToo: bool) | MatchStep | CrossLinkStep | TextureStep(forceRead: bool)
    | AssignStep | ChooseStep | SizeStep | PlaceStep
    | ClearStep | LevelStep | UpdateStep(redoAll: bool) | CopyStep(redoAll: bool)
    | StaleStep(eggs: map<string, EggFileRec>, redoAll: bool, readOk: string -> bool)
    | WriteStep(eggs: map<string, EggFileRec>)

  /** The egg files read_stale_eggs reads (palettizer.cxx:436-437). */
  predicate Touched(e: EggFileRec, redoAll: bool)
  {
    !e.hasData && (e.stale || redoAll)
  }

  /** The calls one loop iteration makes on `n`. */
  function StepCalls(st: Step, n: string): seq<Call>
  {
    match st
    case ScanStep(matchToo) =>
      [ScanTextures(n), GetTextures(n)] + (if matchToo then [EggPreTxa(n), MatchEgg(n), EggPostTxa(n)] else [])
    case MatchStep => [EggPreTxa(n), MatchEgg(n), EggPostTxa(n)]
    case CrossLinkStep => [BuildCrossLinks(n)]
    case TextureStep(force) =>
      (if force then [ReadSourceImage(n)] else []) + [TexturePreTxa(n), MatchTexture(n), TexturePostTxa(n)]
    case AssignStep => [AssignGroups(n)]
    case ChooseStep => [ChoosePlacements(n)]
    case SizeStep => [DeterminePlacementSize(n)]
    case PlaceStep => [PlaceAll(n)]
    case ClearStep => [ClearDepends(n)]
    case LevelStep => [SetDependencyLevel(n, 1)]
    case UpdateStep(redo) => [UpdateImages(n, redo)]
    case CopyStep(redo) => [CopyUnplaced(n, redo)]
    case StaleStep(eggs, redo, readOk) =>
      if n in eggs && Touched(eggs[n], redo) then
        [ReadEgg(n)] + (if readOk(n) then [ScanTextures(n), ChoosePlacements(n)] else [])
      else []
    case WriteStep(eggs) =>
      if n in eggs && eggs[n].hasData then [UpdateEgg(n), WriteEgg(n)] else []
  }

  /** The calls of a loop over `names`, in order. */
  ghost function Each(names: seq<string>, st: Step): seq<Call>
  {
    if names == [] then [] else Each(names[..|names|-1], st) + StepCalls(st, names[|names|-1])
  }

  /** The rank every call of a phase loop has. */
  function StepRank(st: Step): nat
  {
    match st
    case ScanStep(_) => 1
    case MatchStep => 1
    case CrossLinkStep => 2
    case TextureStep(_) => 3
    case AssignStep => 4
    case ChooseStep => 5
    case SizeStep => 6
    case PlaceStep => 7
    case ClearStep => 10
    case LevelStep => 12
    case UpdateStep(_) => 20
    case CopyStep(_) => 21
    case StaleStep(_, _, _) => 0
    case WriteStep(_) => 0
  }

  /** The calls of a pass follow the phases in order. */
  ghost predicate Ordered(s: seq<Call>)
  {
    forall i, j :: 0 <= i < j < |s| ==> Rank(s[i]) <= Rank(s[j])
  }

  ghost predicate AtMost(s: seq<Call>, r: nat)
  {
    forall c :: c in s ==> Rank(c) <= r
  }

  lemma StepCallsSubject(st: Step, n: string, c: Call)
    requires c in StepCalls(st, n)
    ensures Subject(c) == n
  {
  }

  lemma StepCallsRank(st: Step, n: string, c: Call)
    requires !st.StaleStep? && !st.WriteStep?
    requires c in StepCalls(st, n)
    ensures Rank(c) == StepRank(st)
  {
  }

  /** A loop makes a call exactly when one of its iterations, the one on the call's subject, makes it. */
  lemma {:induction false} EachHas(names: seq<string>, st: Step, c: Call)
    ensures c in Each(names, st) <==> Subject(c) in names && c in StepCalls(st, Subject(c))
  {
    if names != [] {
      var init, last := names[..|names|-1], names[|names|-1];
      EachHas(init, st, c);
      assert names == init + [last];
      if c in StepCalls(st, last) {
        StepCallsSubject(st, last, c);
      }
    }
  }

  /** Every call of a phase loop has the phase's rank. */
  lemma EachRank(names: seq<string>, st: Step)
    requires !st.StaleStep? && !st.WriteStep?
    ensures forall c :: c in Each(names, st) ==> Rank(c) == StepRank(st)
  {
    forall c | c in Each(names, st)
      ensures Rank(c) == StepRank(st)
    {
      EachHas(names, st, c);
      StepCallsRank(st, Subject(c), c);
    }
  }

  /** Appending a loop of a later phase keeps a pass in order. */
  lemma AppendPhase(a: seq<Call>, names: seq<string>, st: Step, r: nat)
    requires !st.StaleStep? && !st.WriteStep?
    requires Ordered(a) && AtMost(a, r) && r <= StepRank(st)
    ensures Ordered(a + Each(names, st)) && AtMost(a + Each(names, st), StepRank(st))
  {
    var b := Each(names, st);
    EachRank(names, st);
    forall i, j | 0 <= i < j < |a + b|
      ensures Rank((a + b)[i]) <= Rank((a + b)[j])
    {
      if j < |a| {
      } else if i < |a| {
        assert (a + b)[i] in a;
        assert (a + b)[j] in b;
      } else {
        assert (a + b)[i] in b;
        assert (a + b)[j] in b;
      }
    }
  }

  // ---------------------------------------------------------------------
  // The passes of a run, as the calls they make

  /** process_all (palettizer.cxx:289-362): scan the command-line eggs, match every egg, then link and place. */
  ghost function ProcessAllCalls(cmd: seq<string>, eggs: seq<string>, texs: seq<string>, gs: seq<string>,
                                 force: bool): seq<Call>
  {
    Each(cmd, ScanStep(false)) + Each(eggs, MatchStep) + Each(eggs, CrossLinkStep)
      + Each(texs, TextureStep(force)) + Each(texs, AssignStep) + Each(eggs, ChooseStep)
      + Each(texs, SizeStep) + Each(gs, PlaceStep)
  }

  /** process_command_line_eggs (palettizer.cxx:201-278): scan and match each command-line egg, then link and place. */
  ghost function CommandLineCalls(cmd: seq<string>, eggs: seq<string>, texs: seq<string>, gs: seq<string>,
                                  force: bool): seq<Call>
  {
    Each(cmd, ScanStep(true)) + Each(eggs, CrossLinkStep)
      + Each(texs, TextureStep(force)) + Each(texs, AssignStep) + Each(eggs, ChooseStep)
      + Each(texs, SizeStep) + Each(gs, PlaceStep)
  }

  /** A phase loop on its own is in order, every call at the phase's rank. */
  lemma PhaseOrdered(names: seq<string>, st: Step)
    requires !st.StaleStep? && !st.WriteStep?
    ensures Ordered(Each(names, st)) && AtMost(Each(names, st), StepRank(st))
  {
    EachRank(names, st);
  }

  /** The phases from build_cross_links on keep a pass in order. */
  lemma LinkAndPlaceOrdered(a: seq<Call>, eggs: seq<string>, texs: seq<string>, gs: seq<string>, force: bool)
    requires Ordered(a) && AtMost(a, 1)
    ensures Ordered(a + Each(eggs, CrossLinkStep) + Each(texs, TextureStep(force)) + Each(texs, AssignStep)
                    + Each(eggs, ChooseStep) + Each(texs, SizeStep) + Each(gs, PlaceStep))
  {
    var b := a;
    AppendPhase(b, eggs, CrossLinkStep, 1);
    b := b + Each(eggs, CrossLinkStep);
    AppendPhase(b, texs, TextureStep(force), 2);
    b := b + Each(texs, TextureStep(force));
    AppendPhase(b, texs, AssignStep, 3);
    b := b + Each(texs, AssignStep);
    AppendPhase(b, eggs, ChooseStep, 4);
    b := b + Each(eggs, ChooseStep);
    AppendPhase(b, texs, SizeStep, 5);
    b := b + Each(texs, SizeStep);
    AppendPhase(b, gs, PlaceStep, 6);
  }

  /** Both passes make their calls phase by phase. */
  lemma PassesOrdered(cmd: seq<string>, eggs: seq<string>, texs: seq<string>, gs: seq<string>, force: bool)
    ensures Ordered(ProcessAllCalls(cmd, eggs, texs, gs, force))
    ensures Ordered(CommandLineCalls(cmd, eggs, texs, gs, force))
  {
    PhaseOrdered(cmd, ScanStep(false));
    AppendPhase(Each(cmd, ScanStep(false)), eggs, MatchStep, 1);
    LinkAndPlaceOrdered(Each(cmd, ScanStep(false)) + Each(eggs, MatchStep), eggs, texs, gs, force);
    PhaseOrdered(cmd, ScanStep(true));
    LinkAndPlaceOrdered(Each(cmd, ScanStep(true)), eggs, texs, gs, force);
  }

  /**
   * The order of a process_all or process_command_line_eggs run: every egg
   * is matched before any cross link is built, every cross link before any
   * texture is matched, every texture assigned before any egg chooses its
   * placements, which all precede every placement-size call, which all
   * precede every place_all.
   */
  lemma PhaseOrder(p: seq<Call>)
    requires Ordered(p)
    ensures forall i, j :: 0 <= i < |p| && 0 <= j < |p| && p[i].MatchEgg? && p[j].BuildCrossLinks? ==> i < j
    ensures forall i, j :: 0 <= i < |p| && 0 <= j < |p| && p[i].BuildCrossLinks? && Rank(p[j]) == 3 ==> i < j
    ensures forall i, j :: 0 <= i < |p| && 0 <= j < |p| && p[i].AssignGroups? && p[j].ChoosePlacements? ==> i < j
    ensures forall i, j :: 0 <= i < |p| && 0 <= j < |p| && p[i].ChoosePlacements? && p[j].DeterminePlacementSize? ==> i < j
    ensures forall i, j :: 0 <= i < |p| && 0 <= j < |p| && p[i].DeterminePlacementSize? && p[j].PlaceAll? ==> i < j
  {
  }

  /** A loop makes the calls of each of its iterations. */
  lemma EachVisits(names: seq<string>, st: Step, n: string, c: Call)
    requires n in names && c in StepCalls(st, n)
    ensures c in Each(names, st)
  {
    StepCallsSubject(st, n, c);
    EachHas(names, st, c);
  }

  lemma ProcessAllVisitsEggs(cmd: seq<string>, eggs: seq<string>, texs: seq<string>, gs: seq<string>, force: bool,
                             n: string, P: seq<Call>)
    requires P == ProcessAllCalls(cmd, eggs, texs, gs, force)
    ensures (n in cmd ==> ScanTextures(n) in P) &&
            (n in eggs ==> MatchEgg(n) in P && BuildCrossLinks(n) in P && ChoosePlacements(n) in P)
  {
    if n in cmd { EachVisits(cmd, ScanStep(false), n, ScanTextures(n)); }
    if n in eggs {
      EachVisits(eggs, MatchStep, n, MatchEgg(n));
      EachVisits(eggs, CrossLinkStep, n, BuildCrossLinks(n));
      EachVisits(eggs, ChooseStep, n, ChoosePlacements(n));
    }
  }

  /** The texture loop of process_all makes its calls on every texture. */
  lemma ProcessAllTextureCall(cmd: seq<string>, eggs: seq<string>, texs: seq<string>, gs: seq<string>, force: bool, n: string, c: Call)
    requires n in texs && c in StepCalls(TextureStep(force), n)
    ensures c in ProcessAllCalls(cmd, eggs, texs, gs, force)
  {
    EachVisits(texs, TextureStep(force), n, c);
  }

  lemma ProcessAllAssignCall(cmd: seq<string>, eggs: seq<string>, texs: seq<string>, gs: seq<string>, force: bool, n: string)
    requires n in texs
    ensures AssignGroups(n) in ProcessAllCalls(cmd, eggs, texs, gs, force)
  {
    EachVisits(texs, AssignStep, n, AssignGroups(n));
  }

  lemma ProcessAllSizeCall(cmd: seq<string>, eggs: seq<string>, texs: seq<string>, gs: seq<string>, force: bool, n: string)
    requires n in texs
    ensures DeterminePlacementSize(n) in ProcessAllCalls(cmd, eggs, texs, gs, force)
  {
    EachVisits(texs, SizeStep, n, DeterminePlacementSize(n));
  }

  lemma ProcessAllPlaceCall(cmd: seq<string>, eggs: seq<string>, texs: seq<string>, gs: seq<string>, force: bool, n: string)
    requires n in gs
    ensures PlaceAll(n) in ProcessAllCalls(cmd, eggs, texs, gs, force)
  {
    EachVisits(gs, PlaceStep, n, PlaceAll(n));
  }

  lemma ProcessAllVisitsTextures(cmd: seq<string>, eggs: seq<string>, texs: seq<string>, gs: seq<string>, force: bool,
                                 n: string, P: seq<Call>)
    requires P == ProcessAllCalls(cmd, eggs, texs, gs, force)
    ensures (n in texs ==> MatchTexture(n) in P && AssignGroups(n) in P && DeterminePlacementSize(n) in P) &&
            (n in texs && force ==> ReadSourceImage(n) in P) &&
            (n in gs ==> PlaceAll(n) in P)
  {
    if n in texs {
      ProcessAllTextureCall(cmd, eggs, texs, gs, force, n, MatchTexture(n));
      ProcessAllAssignCall(cmd, eggs, texs, gs, force, n);
      ProcessAllSizeCall(cmd, eggs, texs, gs, force, n);
      if force { ProcessAllTextureCall(cmd, eggs, texs, gs, force, n, ReadSourceImage(n)); }
    }
    if n in gs { ProcessAllPlaceCall(cmd, eggs, texs, gs, force, n); }
  }

  /**
   * Who gets which call in a process_all run: the command-line eggs are
   * scanned, every known egg is matched, linked and chooses its placements,
   * every texture is matched (read first when forced), assigned and sized,
   * and every group is packed.
   */
  lemma ProcessAllCovers(cmd: seq<string>, eggs: seq<string>, texs: seq<string>, gs: seq<string>, force: bool)
    ensures var p := ProcessAllCalls(cmd, eggs, texs, gs, force);
            (forall e :: e in cmd ==> ScanTextures(e) in p) &&
            (forall e :: e in eggs ==> MatchEgg(e) in p && BuildCrossLinks(e) in p && ChoosePlacements(e) in p) &&
            (forall t :: t in texs ==> MatchTexture(t) in p && AssignGroups(t) in p && DeterminePlacementSize(t) in p) &&
            (forall t :: t in texs && force ==> ReadSourceImage(t) in p) &&
            (forall g :: g in gs ==> PlaceAll(g) in p)
  {
    var p := ProcessAllCalls(cmd, eggs, texs, gs, force);
    forall n: string
      ensures (n in cmd ==> ScanTextures(n) in p) &&
              (n in eggs ==> MatchEgg(n) in p && BuildCrossLinks(n) in p && ChoosePlacements(n) in p)
    {
      ProcessAllVisitsEggs(cmd, eggs, texs, gs, force, n, p);
    }
    forall n: string
      ensures (n in texs ==> MatchTexture(n) in p && AssignGroups(n) in p && DeterminePlacementSize(n) in p) &&
              (n in texs && force ==> ReadSourceImage(n) in p) &&
              (n in gs ==> PlaceAll(n) in p)
    {
      ProcessAllVisitsTextures(cmd, eggs, texs, gs, force, n, p);
    }
  }

  /**
   * process_all over the tables: a texture first named by a command-line egg
   * is in the table its texture loops walk, so it is matched, assigned and
   * sized like every texture known before.
   */
  lemma ProcessAllCoversNamed(cmd: seq<string>, eggs: seq<string>, known: set<string>, named: set<string>,
                              gs: seq<string>, force: bool)
    ensures var p := ProcessAllCalls(cmd, eggs, SortedStrs(known + named), gs, force);
            forall t :: t in known + named ==>
              MatchTexture(t) in p && AssignGroups(t) in p && DeterminePlacementSize(t) in p &&
              (force ==> ReadSourceImage(t) in p)
  {
    SortedStrsSpec(known + named);
    ProcessAllCovers(cmd, eggs, SortedStrs(known + named), gs, force);
  }

  /** A texture's source image is read in the texture loop exactly when the read is forced. */
  lemma TextureLoopReads(texs: seq<string>, force: bool, t: string)
    ensures ReadSourceImage(t) in Each(texs, TextureStep(force)) <==> force && t in texs
    ensures MatchTexture(t) in Each(texs, TextureStep(force)) <==> t in texs
  {
    EachHas(texs, TextureStep(force), ReadSourceImage(t));
    EachHas(texs, TextureStep(force), MatchTexture(t));
  }

  lemma CommandLineVisitsEggs(cmd: seq<string>, eggs: seq<string>, texs: seq<string>, gs: seq<string>, force: bool,
                              n: string, P: seq<Call>)
    requires P == CommandLineCalls(cmd, eggs, texs, gs, force)
    ensures (n in cmd ==> ScanTextures(n) in P && MatchEgg(n) in P) &&
            (n in eggs ==> BuildCrossLinks(n) in P && ChoosePlacements(n) in P)
  {
    if n in cmd {
      EachVisits(cmd, ScanStep(true), n, ScanTextures(n));
      EachVisits(cmd, ScanStep(true), n, MatchEgg(n));
    }
    if n in eggs {
      EachVisits(eggs, CrossLinkStep, n, BuildCrossLinks(n));
      EachVisits(eggs, ChooseStep, n, ChoosePlacements(n));
    }
  }

  lemma CommandLineTextureCall(cmd: seq<string>, eggs: seq<string>, texs: seq<string>, gs: seq<string>, force: bool, n: string)
    requires n in texs
    ensures MatchTexture(n) in CommandLineCalls(cmd, eggs, texs, gs, force)
  {
    EachVisits(texs, TextureStep(force), n, MatchTexture(n));
  }

  lemma CommandLineAssignCall(cmd: seq<string>, eggs: seq<string>, texs: seq<string>, gs: seq<string>, force: bool, n: string)
    requires n in texs
    ensures AssignGroups(n) in CommandLineCalls(cmd, eggs, texs, gs, force)
  {
    EachVisits(texs, AssignStep, n, AssignGroups(n));
  }

  lemma CommandLineSizeCall(cmd: seq<string>, eggs: seq<string>, texs: seq<string>, gs: seq<string>, force: bool, n: string)
    requires n in texs
    ensures DeterminePlacementSize(n) in CommandLineCalls(cmd, eggs, texs, gs, force)
  {
    EachVisits(texs, SizeStep, n, DeterminePlacementSize(n));
  }

  lemma CommandLinePlaceCall(cmd: seq<string>, eggs: seq<string>, texs: seq<string>, gs: seq<string>, force: bool, n: string)
    requires n in gs
    ensures PlaceAll(n) in CommandLineCalls(cmd, eggs, texs, gs, force)
  {
    EachVisits(gs, PlaceStep, n, PlaceAll(n));
  }

  lemma CommandLineVisitsTextures(cmd: seq<string>, eggs: seq<string>, texs: seq<string>, gs: seq<string>, force: bool,
                                  n: string, P: seq<Call>)
    requires P == CommandLineCalls(cmd, eggs, texs, gs, force)
    ensures (n in texs ==> MatchTexture(n) in P && AssignGroups(n) in P && DeterminePlacementSize(n) in P) &&
            (n in gs ==> PlaceAll(n) in P)
  {
    if n in texs {
      CommandLineTextureCall(cmd, eggs, texs, gs, force, n);
      CommandLineAssignCall(cmd, eggs, texs, gs, force, n);
      CommandLineSizeCall(cmd, eggs, texs, gs, force, n);
    }
    if n in gs { CommandLinePlaceCall(cmd, eggs, texs, gs, force, n); }
  }

  /**
   * Who gets which call in a process_command_line_eggs run: each
   * command-line egg is scanned and matched; the rest is as in process_all,
   * over the textures those eggs name.
   */
  lemma CommandLineCovers(cmd: seq<string>, eggs: seq<string>, texs: seq<string>, gs: seq<string>, force: bool)
    ensures var p := CommandLineCalls(cmd, eggs, texs, gs, force);
            (forall e :: e in cmd ==> ScanTextures(e) in p && MatchEgg(e) in p) &&
            (forall e :: e in eggs ==> BuildCrossLinks(e) in p && ChoosePlacements(e) in p) &&
            (forall t :: t in texs ==> MatchTexture(t) in p && AssignGroups(t) in p && DeterminePlacementSize(t) in p) &&
            (forall g :: g in gs ==> PlaceAll(g) in p)
  {
    var p := CommandLineCalls(cmd, eggs, texs, gs, force);
    forall n: string
      ensures (n in cmd ==> ScanTextures(n) in p && MatchEgg(n) in p) &&
              (n in eggs ==> BuildCrossLinks(n) in p && ChoosePlacements(n) in p)
    {
      CommandLineVisitsEggs(cmd, eggs, texs, gs, force, n, p);
    }
    forall n: string
      ensures (n in texs ==> MatchTexture(n) in p && AssignGroups(n) in p && DeterminePlacementSize(n) in p) &&
              (n in gs ==> PlaceAll(n) in p)
    {
      CommandLineVisitsTextures(cmd, eggs, texs, gs, force, n, p);
    }
  }

  // ---------------------------------------------------------------------
  // read_txa_file, generate_images, read_stale_eggs and write_eggs, as calls

  /**
   * The calls of read_txa_file (palettizer.cxx:162-188): clear the groups
   * known `before` the read, read, and, if all went well, level the groups
   * known `after` it, which include those the .txa file declared.
   */
  ghost function TxaCalls(before: seq<string>, after: seq<string>, levelled: bool): seq<Call>
  {
    Each(before, ClearStep) + [ReadTxa] + (if levelled then Each(after, LevelStep) else [])
  }

  /** Appending one call of a later phase keeps a pass in order. */
  lemma AppendCall(a: seq<Call>, c: Call, r: nat)
    requires Ordered(a) && AtMost(a, r) && r <= Rank(c)
    ensures Ordered(a + [c]) && AtMost(a + [c], Rank(c))
  {
    forall i, j | 0 <= i < j < |a + [c]|
      ensures Rank((a + [c])[i]) <= Rank((a + [c])[j])
    {
      if j == |a| {
        assert (a + [c])[i] in a;
      }
    }
  }

  /**
   * Every group's dependencies are cleared before the .txa file is read, and
   * the levels are set after it.
   */
  lemma TxaOrdered(before: seq<string>, after: seq<string>, levelled: bool)
    ensures Ordered(TxaCalls(before, after, levelled))
  {
    PhaseOrdered(before, ClearStep);
    AppendCall(Each(before, ClearStep), ReadTxa, 10);
    var a := Each(before, ClearStep) + [ReadTxa];
    if levelled {
      AppendPhase(a, after, LevelStep, 11);
    } else {
      assert a + [] == a;
    }
  }

  /**
   * A group is cleared exactly when it was known before the read, and a group
   * known after the read is levelled exactly when the run goes on.
   */
  lemma TxaCovers(before: seq<string>, after: seq<string>, levelled: bool)
    ensures forall g :: ClearDepends(g) in TxaCalls(before, after, levelled) <==> g in before
    ensures forall g :: g in after ==> (SetDependencyLevel(g, 1) in TxaCalls(before, after, levelled) <==> levelled)
  {
    forall g: string
      ensures ClearDepends(g) in TxaCalls(before, after, levelled) <==> g in before
      ensures g in after ==> (SetDependencyLevel(g, 1) in TxaCalls(before, after, levelled) <==> levelled)
    {
      TxaHas(before, after, levelled, g);
    }
  }

  lemma TxaHas(before: seq<string>, after: seq<string>, levelled: bool, g: string)
    ensures ClearDepends(g) in TxaCalls(before, after, levelled) <==> g in before
    ensures g in after ==> (SetDependencyLevel(g, 1) in TxaCalls(before, after, levelled) <==> levelled)
  {
    EachHas(before, ClearStep, ClearDepends(g));
    EachHas(before, ClearStep, SetDependencyLevel(g, 1));
    EachHas(after, LevelStep, ClearDepends(g));
    EachHas(after, LevelStep, SetDependencyLevel(g, 1));
  }

  /** The group table after the .txa read: every group it declared exists, new ones fresh from the constructor. */
  function InternGroups(gs: map<string, GroupRec>, declared: set<string>): (r: map<string, GroupRec>)
    ensures r.Keys == gs.Keys + declared
    ensures forall k :: k in gs ==> r[k] == gs[k]
    ensures forall k :: k in declared && k !in gs ==> r[k] == NewGroup(k)
  {
    map k | k in gs.Keys + declared :: if k in gs then gs[k] else NewGroup(k)
  }

  /** Declaring one group is get_palette_group of it; declaring known groups changes nothing. */
  lemma InternGroupsOne(gs: map<string, GroupRec>, name: string)
    ensures InternGroups(gs, {name}) == Intern(gs, name, NewGroup(name))
    ensures InternGroups(InternGroups(gs, {name}), {name}) == InternGroups(gs, {name})
  {
  }

  /**
   * read_txa_file over the tables: the groups known before the read are the
   * ones cleared, and every group there is afterwards, declared by the .txa
   * file or not, is levelled from 1 exactly when the run goes on.
   */
  lemma TxaLevelsEveryGroup(known: set<string>, declared: set<string>, levelled: bool)
    ensures var calls := TxaCalls(SortedStrs(known), SortedStrs(known + declared), levelled);
            (forall g :: ClearDepends(g) in calls <==> g in known) &&
            (forall g :: g in known + declared ==> (SetDependencyLevel(g, 1) in calls <==> levelled))
  {
    SortedStrsSpec(known);
    SortedStrsSpec(known + declared);
    TxaCovers(SortedStrs(known), SortedStrs(known + declared), levelled);
  }

  /** The calls of generate_images (palettizer.cxx:403-416). */
  ghost function GenerateCalls(gs: seq<string>, ts: seq<string>, redoAll: bool): seq<Call>
  {
    Each(gs, UpdateStep(redoAll)) + Each(ts, CopyStep(redoAll))
  }

  lemma GenerateHas(gs: seq<string>, ts: seq<string>, redoAll: bool, c: Call)
    ensures c in GenerateCalls(gs, ts, redoAll) <==>
              (c == UpdateImages(Subject(c), redoAll) && Subject(c) in gs) ||
              (c == CopyUnplaced(Subject(c), redoAll) && Subject(c) in ts)
  {
    EachHas(gs, UpdateStep(redoAll), c);
    EachHas(ts, CopyStep(redoAll), c);
  }

  /** The group images come before the unplaced copies. */
  lemma GenerateOrdered(gs: seq<string>, ts: seq<string>, redoAll: bool)
    ensures Ordered(GenerateCalls(gs, ts, redoAll))
  {
    PhaseOrdered(gs, UpdateStep(redoAll));
    AppendPhase(Each(gs, UpdateStep(redoAll)), ts, CopyStep(redoAll), 20);
  }

  /**
   * generate_images brings every group's images up to date before it copies
   * any unplaced texture, and every call it makes passes its own redo_all.
   */
  lemma GenerateImagesOrder(gs: seq<string>, ts: seq<string>, redoAll: bool)
    ensures Ordered(GenerateCalls(gs, ts, redoAll))
    ensures forall c :: c in GenerateCalls(gs, ts, redoAll) <==>
              (c == UpdateImages(Subject(c), redoAll) && Subject(c) in gs) ||
              (c == CopyUnplaced(Subject(c), redoAll) && Subject(c) in ts)
  {
    GenerateOrdered(gs, ts, redoAll);
    forall c: Call
      ensures c in GenerateCalls(gs, ts, redoAll) <==>
                (c == UpdateImages(Subject(c), redoAll) && Subject(c) in gs) ||
                (c == CopyUnplaced(Subject(c), redoAll) && Subject(c) in ts)
    {
      GenerateHas(gs, ts, redoAll, c);
    }
  }

  /** An egg file after read_stale_eggs: a touched egg whose read succeeds has its data. */
  function StaleAfter(e: EggFileRec, redoAll: bool, readOk: bool): (r: EggFileRec)
    ensures r.name == e.name && r.stale == e.stale
    ensures r.hasData <==> e.hasData || (Touched(e, redoAll) && readOk)
  {
    if Touched(e, redoAll) && readOk then e.(hasData := true) else e
  }

  /** A second read_stale_eggs with the same outcomes reads exactly the eggs whose read failed. */
  lemma StaleRetriesFailures(e: EggFileRec, redoAll: bool, readOk: bool)
    ensures Touched(StaleAfter(e, redoAll, readOk), redoAll) <==> Touched(e, redoAll) && !readOk
    ensures StaleAfter(StaleAfter(e, redoAll, readOk), redoAll, readOk) == StaleAfter(e, redoAll, readOk)
  {
  }

  /**
   * The calls of read_stale_eggs (palettizer.cxx:430-450): only the touched
   * eggs are read, and an egg is scanned and chooses its placements exactly
   * when its read succeeds.
   */
  lemma StaleCallsSpec(names: seq<string>, eggs: map<string, EggFileRec>, redoAll: bool, readOk: string -> bool,
                       n: string)
    ensures var l := Each(names, StaleStep(eggs, redoAll, readOk));
            var touched := n in names && n in eggs && Touched(eggs[n], redoAll);
            (ReadEgg(n) in l <==> touched) &&
            (ScanTextures(n) in l <==> touched && readOk(n)) &&
            (ChoosePlacements(n) in l <==> touched && readOk(n))
  {
    var st := StaleStep(eggs, redoAll, readOk);
    EachHas(names, st, ReadEgg(n));
    EachHas(names, st, ScanTextures(n));
    EachHas(names, st, ChoosePlacements(n));
  }

  /** A successful read is followed at once by scan_textures and then choose_placements on the same egg. */
  lemma {:induction false} StaleReadThenScan(names: seq<string>, eggs: map<string, EggFileRec>, redoAll: bool,
                                             readOk: string -> bool, i: int)
    requires var l := Each(names, StaleStep(eggs, redoAll, readOk));
             0 <= i < |l| && l[i].ReadEgg? && readOk(l[i].egg)
    ensures var l := Each(names, StaleStep(eggs, redoAll, readOk));
            i + 2 < |l| && l[i + 1] == ScanTextures(l[i].egg) && l[i + 2] == ChoosePlacements(l[i].egg)
  {
    var st := StaleStep(eggs, redoAll, readOk);
    var init, last := names[..|names|-1], names[|names|-1];
    var a, b := Each(init, st), StepCalls(st, last);
    assert Each(names, st) == a + b;
    if i < |a| {
      StaleReadThenScan(init, eggs, redoAll, readOk, i);
    } else {
      assert b[i - |a|].ReadEgg?;
    }
  }

  /** The calls of write_eggs (palettizer.cxx:459-475): every egg with data is updated, then written. */
  lemma WriteCallsSpec(names: seq<string>, eggs: map<string, EggFileRec>, n: string)
    ensures var l := Each(names, WriteStep(eggs));
            var written := n in names && n in eggs && eggs[n].hasData;
            (UpdateEgg(n) in l <==> written) && (WriteEgg(n) in l <==> written) && ReadEgg(n) !in l
  {
    EachHas(names, WriteStep(eggs), UpdateEgg(n));
    EachHas(names, WriteStep(eggs), WriteEgg(n));
    EachHas(names, WriteStep(eggs), ReadEgg(n));
  }

  /** The egg files read_stale_eggs leaves after visiting the first `i` names, in order. */
  ghost predicate StaleFilesUpTo(names: seq<string>, eggs0: map<string, EggFileRec>, redoAll: bool,
                                 readOk: string -> bool, i: int, files: map<string, EggFileRec>)
  {
    0 <= i <= |names| && IncreasingStrs(names) && (forall n :: n in eggs0 <==> n in names) &&
    files.Keys == eggs0.Keys &&
    (forall n :: n in eggs0 ==>
       files[n] == if n in names[..i] then StaleAfter(eggs0[n], redoAll, readOk(n)) else eggs0[n])
  }

  /** The ok flag after the first `i` names: no touched egg among them failed to read. */
  ghost predicate StaleOkUpTo(names: seq<string>, eggs0: map<string, EggFileRec>, redoAll: bool,
                              readOk: string -> bool, i: int, ok: bool)
  {
    0 <= i <= |names| &&
    (ok <==> forall m :: m in names[..i] && m in eggs0 && Touched(eggs0[m], redoAll) ==> readOk(m))
  }

  /** The egg visited next is still as it was. */
  lemma StaleNext(names: seq<string>, eggs0: map<string, EggFileRec>, redoAll: bool, readOk: string -> bool,
                  i: int, files: map<string, EggFileRec>)
    requires StaleFilesUpTo(names, eggs0, redoAll, readOk, i, files) && i < |names|
    ensures names[i] in files && files[names[i]] == eggs0[names[i]]
  {
    if names[i] in names[..i] {
      var k :| 0 <= k < i && names[..i][k] == names[i];
      IncreasingStrsDistinct(names, k, i);
    }
  }

  lemma StaleFilesStep(names: seq<string>, eggs0: map<string, EggFileRec>, redoAll: bool, readOk: string -> bool,
                       i: int, files: map<string, EggFileRec>, files': map<string, EggFileRec>)
    requires StaleFilesUpTo(names, eggs0, redoAll, readOk, i, files) && i < |names|
    requires names[i] in files
    requires var n := names[i];
             files' == (if Touched(files[n], redoAll) && readOk(n) then files[n := files[n].(hasData := true)] else files)
    ensures StaleFilesUpTo(names, eggs0, redoAll, readOk, i + 1, files')
  {
    StaleNext(names, eggs0, redoAll, readOk, i, files);
    assert names[..i + 1] == names[..i] + [names[i]];
  }

  lemma StaleOkStep(names: seq<string>, eggs0: map<string, EggFileRec>, redoAll: bool, readOk: string -> bool,
                    i: int, ok: bool, ok': bool)
    requires StaleOkUpTo(names, eggs0, redoAll, readOk, i, ok) && i < |names| && names[i] in eggs0
    requires ok' == (ok && (Touched(eggs0[names[i]], redoAll) ==> readOk(names[i])))
    ensures StaleOkUpTo(names, eggs0, redoAll, readOk, i + 1, ok')
  {
    assert names[..i + 1] == names[..i] + [names[i]];
  }

  lemma StaleAllDone(names: seq<string>, eggs0: map<string, EggFileRec>, redoAll: bool, readOk: string -> bool,
                     files: map<string, EggFileRec>, ok: bool)
    requires StaleFilesUpTo(names, eggs0, redoAll, readOk, |names|, files)
    requires StaleOkUpTo(names, eggs0, redoAll, readOk, |names|, ok)
    ensures files.Keys == eggs0.Keys
    ensures forall n :: n in files ==> files[n] == StaleAfter(eggs0[n], redoAll, readOk(n))
    ensures ok <==> forall n :: n in eggs0 && Touched(eggs0[n], redoAll) ==> readOk(n)
  {
    assert names[..|names|] == names;
  }

  /** The calls a loop over `names` has made after visiting the first `i` of them. */
  ghost predicate CallsUpTo(names: seq<string>, st: Step, i: int, calls: seq<Call>)
  {
    0 <= i <= |names| && calls == Each(names[..i], st)
  }

  lemma CallsStep(names: seq<string>, st: Step, i: int, calls: seq<Call>, step: seq<Call>)
    requires CallsUpTo(names, st, i, calls) && i < |names| && step == StepCalls(st, names[i])
    ensures CallsUpTo(names, st, i + 1, calls + step)
  {
    EachSnoc(names, i, st);
  }

  /** After the last iteration a loop has made all its calls. */
  lemma CallsDone(names: seq<string>, st: Step, calls: seq<Call>)
    requires CallsUpTo(names, st, |names|, calls)
    ensures calls == Each(names, st)
  {
    assert names[..|names|] == names;
  }

  lemma StaleStepCalls(eggs: map<string, EggFileRec>, redoAll: bool, readOk: string -> bool, n: string,
                       step: seq<Call>)
    requires n in eggs
    requires step == if !Touched(eggs[n], redoAll) then [] else if !readOk(n) then [ReadEgg(n)]
                     else [ReadEgg(n), ScanTextures(n), ChoosePlacements(n)]
    ensures step == StepCalls(StaleStep(eggs, redoAll, readOk), n)
  {
  }

  /** Before the loop of read_stale_eggs nothing has been read, and the run is ok. */
  lemma StaleInit(names: seq<string>, eggs: map<string, EggFileRec>, redoAll: bool, readOk: string -> bool)
    requires names == SortedStrs(eggs.Keys)
    ensures StaleFilesUpTo(names, eggs, redoAll, readOk, 0, eggs)
    ensures StaleOkUpTo(names, eggs, redoAll, readOk, 0, true)
    ensures CallsUpTo(names, StaleStep(eggs, redoAll, readOk), 0, [])
  {
    SortedStrsSpec(eggs.Keys);
    assert names[..0] == [];
  }

  /** One iteration of read_stale_eggs' loop: the egg at `i` is read if it is touched, and the run goes on. */
  method StaleVisit(names: seq<string>, eggs: map<string, EggFileRec>, redoAll: bool, readOk: string -> bool, i: nat,
                    files: map<string, EggFileRec>, ok: bool, calls: seq<Call>)
    returns (files': map<string, EggFileRec>, ok': bool, calls': seq<Call>)
    requires i < |names|
    requires StaleFilesUpTo(names, eggs, redoAll, readOk, i, files)
    requires StaleOkUpTo(names, eggs, redoAll, readOk, i, ok)
    requires CallsUpTo(names, StaleStep(eggs, redoAll, readOk), i, calls)
    ensures StaleFilesUpTo(names, eggs, redoAll, readOk, i + 1, files')
    ensures StaleOkUpTo(names, eggs, redoAll, readOk, i + 1, ok')
    ensures CallsUpTo(names, StaleStep(eggs, redoAll, readOk), i + 1, calls')
  {
    var n := names[i];
    StaleNext(names, eggs, redoAll, readOk, i, files);
    var egg := files[n];
    files', ok' := files, ok;
    var step: seq<Call> := [];
    if Touched(egg, redoAll) {
      if !readOk(n) {
        ok' := false;
        step := [ReadEgg(n)];
      } else {
        files' := files[n := egg.(hasData := true)];
        step := [ReadEgg(n), ScanTextures(n), ChoosePlacements(n)];
      }
    }
    StaleStepCalls(eggs, redoAll, readOk, n, step);
    CallsStep(names, StaleStep(eggs, redoAll, readOk), i, calls, step);
    calls' := calls + step;
    StaleFilesStep(names, eggs, redoAll, readOk, i, files, files');
    StaleOkStep(names, eggs, redoAll, readOk, i, ok, ok');
  }

  /** The loop of read_stale_eggs over the egg names in map order, on the table as a value. */
  method ReadStale(names: seq<string>, eggs: map<string, EggFileRec>, redoAll: bool, readOk: string -> bool)
    returns (files: map<string, EggFileRec>, ok: bool, calls: seq<Call>)
    requires names == SortedStrs(eggs.Keys)
    ensures files.Keys == eggs.Keys
    ensures forall n :: n in files ==> files[n] == StaleAfter(eggs[n], redoAll, readOk(n))
    ensures ok <==> forall n :: n in eggs && Touched(eggs[n], redoAll) ==> readOk(n)
    ensures calls == Each(names, StaleStep(eggs, redoAll, readOk))
  {
    StaleInit(names, eggs, redoAll, readOk);
    files, ok, calls := eggs, true, [];
    var i := 0;
    while i < |names|
      invariant 0 <= i <= |names|
      invariant StaleFilesUpTo(names, eggs, redoAll, readOk, i, files)
      invariant StaleOkUpTo(names, eggs, redoAll, readOk, i, ok)
      invariant CallsUpTo(names, StaleStep(eggs, redoAll, readOk), i, calls)
    {
      files, ok, calls := StaleVisit(names, eggs, redoAll, readOk, i, files, ok, calls);
      i := i + 1;
    }
    StaleAllDone(names, eggs, redoAll, readOk, files, ok);
    CallsDone(names, StaleStep(eggs, redoAll, readOk), calls);
  }

  /**
   * `order` lists every name of `s` exactly once: the order a set kept by
   * address hands its members out in.
   */
  ghost predicate EnumeratesNames(order: seq<string>, s: set<string>)
  {
    (forall i, j :: 0 <= i < j < |order| ==> order[i] != order[j]) &&
    (forall n :: n in s <==> n in order)
  }

  /** The textures the command-line eggs name, as get_textures collects them. */
  ghost function NamedTextures(eggs: seq<string>, texturesOf: string -> set<string>): set<string>
  {
    if eggs == [] then {} else NamedTextures(eggs[..|eggs|-1], texturesOf) + texturesOf(eggs[|eggs|-1])
  }

  lemma {:induction false} NamedTexturesSpec(eggs: seq<string>, texturesOf: string -> set<string>, t: string)
    ensures t in NamedTextures(eggs, texturesOf) <==> exists e :: e in eggs && t in texturesOf(e)
  {
    if eggs != [] {
      var init, last := eggs[..|eggs|-1], eggs[|eggs|-1];
      NamedTexturesSpec(init, texturesOf, t);
      assert eggs == init + [last];
      if t in texturesOf(last) {
        assert last in eggs;
      }
      if exists e :: e in eggs && t in texturesOf(e) {
        var e :| e in eggs && t in texturesOf(e);
        if e != last {
          assert e in init;
        }
      }
    }
  }

  lemma AppendAssoc(a: seq<Call>, b: seq<Call>, c: seq<Call>)
    ensures a + b + c == a + (b + c)
  {
  }

  lemma EachSnoc(names: seq<string>, i: int, st: Step)
    requires 0 <= i < |names|
    ensures Each(names[..i + 1], st) == Each(names[..i], st) + StepCalls(st, names[i])
  {
    assert names[..i + 1][..i] == names[..i];
  }

  /** The log process_all leaves, loop by loop, is the log it started with followed by its calls. */
  lemma ProcessAllSplit(p: seq<Call>, cmd: seq<string>, eggs: seq<string>, texs: seq<string>, gs: seq<string>,
                        force: bool)
    ensures p + Each(cmd, ScanStep(false)) + Each(eggs, MatchStep) + Each(eggs, CrossLinkStep)
              + Each(texs, TextureStep(force)) + Each(texs, AssignStep) + Each(eggs, ChooseStep)
              + Each(texs, SizeStep) + Each(gs, PlaceStep)
            == p + ProcessAllCalls(cmd, eggs, texs, gs, force)
  {
    var e0, e1, e2, e3 := Each(cmd, ScanStep(false)), Each(eggs, MatchStep), Each(eggs, CrossLinkStep), Each(texs, TextureStep(force));
    var e4, e5, e6, e7 := Each(texs, AssignStep), Each(eggs, ChooseStep), Each(texs, SizeStep), Each(gs, PlaceStep);
    AppendAssoc(p, e0, e1);
    AppendAssoc(p, e0 + e1, e2);
    AppendAssoc(p, e0 + e1 + e2, e3);
    AppendAssoc(p, e0 + e1 + e2 + e3, e4);
    AppendAssoc(p, e0 + e1 + e2 + e3 + e4, e5);
    AppendAssoc(p, e0 + e1 + e2 + e3 + e4 + e5, e6);
    AppendAssoc(p, e0 + e1 + e2 + e3 + e4 + e5 + e6, e7);
  }

  /** The same for process_command_line_eggs. */
  lemma CommandLineSplit(p: seq<Call>, cmd: seq<string>, eggs: seq<string>, texs: seq<string>, gs: seq<string>,
                         force: bool)
    ensures p + Each(cmd, ScanStep(true)) + Each(eggs, CrossLinkStep)
              + Each(texs, TextureStep(force)) + Each(texs, AssignStep) + Each(eggs, ChooseStep)
              + Each(texs, SizeStep) + Each(gs, PlaceStep)
            == p + CommandLineCalls(cmd, eggs, texs, gs, force)
  {
    var e0, e2, e3 := Each(cmd, ScanStep(true)), Each(eggs, CrossLinkStep), Each(texs, TextureStep(force));
    var e4, e5, e6, e7 := Each(texs, AssignStep), Each(eggs, ChooseStep), Each(texs, SizeStep), Each(gs, PlaceStep);
    AppendAssoc(p, e0, e2);
    AppendAssoc(p, e0 + e2, e3);
    AppendAssoc(p, e0 + e2 + e3, e4);
    AppendAssoc(p, e0 + e2 + e3 + e4, e5);
    AppendAssoc(p, e0 + e2 + e3 + e4 + e5, e6);
    AppendAssoc(p, e0 + e2 + e3 + e4 + e5 + e6, e7);
  }

  /** Every egg among `names` that has data was written successfully. */
  ghost predicate WritesOk(names: seq<string>, eggs: map<string, EggFileRec>, writeOk: string -> bool)
  {
    forall m :: m in names && m in eggs && eggs[m].hasData ==> writeOk(m)
  }

  lemma WritesOkSnoc(names: seq<string>, i: int, eggs: map<string, EggFileRec>, writeOk: string -> bool)
    requires 0 <= i < |names|
    ensures WritesOk(names[..i + 1], eggs, writeOk) <==>
              WritesOk(names[..i], eggs, writeOk) && (names[i] in eggs && eggs[names[i]].hasData ==> writeOk(names[i]))
  {
    assert names[..i + 1] == names[..i] + [names[i]];
  }

  /** Why read_txa_file stops the program (palettizer.cxx:171-179). */
  datatype Abort = TxaReadFailed | NoColorType

  /**
   * What reading the .txa file did: whether it succeeded, the colour type an
   * :imagetype line set, and the groups its lines named, each of which the
   * read fetches with get_palette_group.
   */
  datatype TxaOutcome = TxaOutcome(ok: bool, imageType: Option<FileType>, declared: set<string>)

  // ---------------------------------------------------------------------
  // The Palettizer

  class Palettizer {
    var piVersion: int
    var mapDirname: string
    var margin: int
    var repeatThreshold: real
    var aggressivelyCleanMapdir: bool
    var forcePower2: bool
    var colorType: Option<FileType>
    var alphaType: Option<FileType>
    var palXSize: int
    var palYSize: int
    var roundUvs: bool
    var roundUnit: real
    var roundFuzz: real
    var remapUv: RemapUv
    var defaultGroupname: string
    var defaultGroupdir: string

    var eggFiles: map<string, EggFileRec>
    var commandLineEggs: seq<string>
    var commandLineTextures: set<string>
    var groups: map<string, GroupRec>
    var textures: map<string, Textures.TextureImage>
    /** The calls made so far on eggs, groups, textures and the .txa file. */
    var log: seq<Call>

    /** Every egg file and group is filed under its own name. */
    ghost predicate Valid()
      reads this`eggFiles, this`groups
    {
      (forall n :: n in eggFiles ==> eggFiles[n].name == n) &&
      (forall n :: n in groups ==> groups[n].name == n)
    }

    /**
     * The constructor (palettizer.cxx:31-52): the defaults of a fresh run.
     * `registry` is the image-type registry, asked for the "rgb" type.
     */
    constructor(registry: string -> Option<FileType>)
      ensures Valid()
      ensures piVersion == 0 && mapDirname == "%g" && margin == 2 && repeatThreshold == 250.0
      ensures aggressivelyCleanMapdir && forcePower2
      ensures colorType == registry("rgb") && alphaType == None
      ensures palXSize == 512 && palYSize == 512
      ensures roundUvs && roundUnit == 0.1 && roundFuzz == 0.01 && remapUv == RemapPoly
      ensures eggFiles == map[] && groups == map[] && textures == map[] && log == []
      ensures commandLineEggs == [] && commandLineTextures == {}
    {
      piVersion := 0;
      mapDirname := "%g";
      margin := 2;
      repeatThreshold := 250.0;
      aggressivelyCleanMapdir := true;
      forcePower2 := true;
      colorType := registry("rgb");
      alphaType := None;
      palXSize := 512;
      palYSize := 512;
      roundUvs := true;
      roundUnit := 0.1;
      roundFuzz := 0.01;
      remapUv := RemapPoly;
      defaultGroupname := "";
      defaultGroupdir := "";
      eggFiles := map[];
      commandLineEggs := [];
      commandLineTextures := {};
      groups := map[];
      textures := map[];
      log := [];
    }

    /** get_egg_file (palettizer.cxx:485-496). */
    method GetEggFile(name: string) returns (egg: EggFileRec)
      requires Valid()
      modifies this`eggFiles
      ensures Valid()
      ensures eggFiles == Intern(old(eggFiles), name, NewEggFile(name))
      ensures egg == eggFiles[name] && egg.name == name
    {
      if name in eggFiles {
        return eggFiles[name];
      }
      egg := NewEggFile(name);
      eggFiles := eggFiles[name := egg];
    }

    /** get_palette_group (palettizer.cxx:505-516). */
    method GetPaletteGroup(name: string) returns (group: GroupRec)
      requires Valid()
      modifies this`groups
      ensures Valid()
      ensures groups == Intern(old(groups), name, NewGroup(name))
      ensures group == groups[name] && group.name == name
    {
      if name in groups {
        return groups[name];
      }
      group := NewGroup(name);
      groups := groups[name := group];
    }

    /** test_palette_group (palettizer.cxx:525-533): the group if there is one; nothing is created. */
    function TestPaletteGroup(name: string): (r: Option<GroupRec>)
      reads this`groups
      ensures r.Some? <==> name in groups
      ensures r.Some? ==> r.value == groups[name]
    {
      if name in groups then Some(groups[name]) else None
    }

    /** get_default_group (palettizer.cxx:541-548). */
    method GetDefaultGroup() returns (group: GroupRec)
      requires Valid()
      modifies this`groups
      ensures Valid()
      ensures groups == WithDefaultGroup(old(groups), defaultGroupname, defaultGroupdir)
      ensures group == groups[defaultGroupname] && group.name == defaultGroupname
    {
      group := GetPaletteGroup(defaultGroupname);
      if defaultGroupdir != "" && group.dirname == "" {
        group := group.(dirname := defaultGroupdir);
        groups := groups[defaultGroupname := group];
      }
    }

    /** get_texture (palettizer.cxx:559-571): a repeat call returns the very same TextureImage. */
    method GetTexture(name: string) returns (texture: Textures.TextureImage)
      modifies this`textures
      ensures textures == Intern(old(textures), name, texture)
      ensures texture == textures[name]
      ensures name in old(textures) ==> texture == old(textures)[name]
      ensures name !in old(textures) ==> fresh(texture) && texture.name == name && texture.Valid()
    {
      if name in textures {
        return textures[name];
      }
      texture := new Textures.TextureImage(name, NoProperties, NoRequest);
      textures := textures[name := texture];
    }

    /** One of the passes' loops: visit `names` in order, making each iteration's calls. */
    method Visit(names: seq<string>, st: Step)
      modifies this`log
      ensures log == old(log) + Each(names, st)
    {
      ghost var log0 := log;
      var i := 0;
      while i < |names|
        invariant 0 <= i <= |names|
        invariant log == log0 + Each(names[..i], st)
      {
        EachSnoc(names, i, st);
        AppendAssoc(log0, Each(names[..i], st), StepCalls(st, names[i]));
        log := log + StepCalls(st, names[i]);
        i := i + 1;
      }
      assert names[..|names|] == names;
    }

    /**
     * read_txa_file (palettizer.cxx:162-188), with the outcome of reading the
     * file given.  The run stops when the read fails or no colour image type
     * is set; otherwise every group's dependency level, the groups the read
     * declared included, is computed from 1.
     */
    method ReadTxaFile(txa: TxaOutcome) returns (r: Result<(), Abort>)
      requires Valid()
      modifies this`log, this`colorType, this`groups
      ensures Valid()
      ensures groups == InternGroups(old(groups), txa.declared)
      ensures colorType == if txa.ok && txa.imageType.Some? then txa.imageType else old(colorType)
      ensures r == if !txa.ok then Err(TxaReadFailed) else if colorType.None? then Err(NoColorType) else Ok(())
      ensures log == old(log) + TxaCalls(SortedStrs(old(groups).Keys), SortedStrs(groups.Keys), r.Ok?)
    {
      ghost var log0 := log;
      var before := EnumerateStrs(groups.Keys);
      Visit(before, ClearStep);
      log := log + [ReadTxa];
      groups := InternGroups(groups, txa.declared);
      AppendAssoc(log0, Each(before, ClearStep), [ReadTxa]);
      assert Each(before, ClearStep) + [ReadTxa] + [] == Each(before, ClearStep) + [ReadTxa];
      if !txa.ok {
        return Err(TxaReadFailed);
      }
      if txa.imageType.Some? {
        colorType := txa.imageType;
      }
      if colorType.None? {
        return Err(NoColorType);
      }
      var after := EnumerateStrs(groups.Keys);
      Visit(after, LevelStep);
      AppendAssoc(log0, Each(before, ClearStep) + [ReadTxa], Each(after, LevelStep));
      r := Ok(());
    }

    /**
     * get_texture of every name in `names`, as scan_textures does for the
     * textures an egg references: known textures are kept, the others are
     * created.
     */
    method InternTextures(names: set<string>)
      modifies this`textures
      ensures textures.Keys == old(textures).Keys + names
      ensures forall n :: n in old(textures) ==> textures[n] == old(textures)[n]
      ensures forall n :: n in textures && n !in old(textures) ==> fresh(textures[n]) && textures[n].name == n
    {
      var rest := names;
      while rest != {}
        invariant rest <= names
        invariant textures.Keys == old(textures).Keys + (names - rest)
        invariant forall n :: n in old(textures) ==> textures[n] == old(textures)[n]
        invariant forall n :: n in textures && n !in old(textures) ==> fresh(textures[n]) && textures[n].name == n
        decreases rest
      {
        var n :| n in rest;
        var texture := GetTexture(n);
        rest := rest - {n};
      }
    }

    /**
     * The first loop of both passes: each command-line egg is scanned, which
     * fetches or creates its textures, and its textures are collected; it is
     * matched too when `matchToo`.
     */
    method ScanCommandLineEggs(matchToo: bool, texturesOf: string -> set<string>)
      modifies this`log, this`commandLineTextures, this`textures
      ensures commandLineTextures == old(commandLineTextures) + NamedTextures(commandLineEggs, texturesOf)
      ensures textures.Keys == old(textures).Keys + NamedTextures(commandLineEggs, texturesOf)
      ensures forall n :: n in old(textures) ==> textures[n] == old(textures)[n]
      ensures forall n :: n in textures && n !in old(textures) ==> fresh(textures[n]) && textures[n].name == n
      ensures log == old(log) + Each(commandLineEggs, ScanStep(matchToo))
    {
      ghost var log0 := log;
      var i := 0;
      while i < |commandLineEggs|
        invariant 0 <= i <= |commandLineEggs|
        invariant commandLineTextures == old(commandLineTextures) + NamedTextures(commandLineEggs[..i], texturesOf)
        invariant textures.Keys == old(textures).Keys + NamedTextures(commandLineEggs[..i], texturesOf)
        invariant forall n :: n in old(textures) ==> textures[n] == old(textures)[n]
        invariant forall n :: n in textures && n !in old(textures) ==> fresh(textures[n]) && textures[n].name == n
        invariant log == log0 + Each(commandLineEggs[..i], ScanStep(matchToo))
      {
        var egg := commandLineEggs[i];
        assert commandLineEggs[..i + 1][..i] == commandLineEggs[..i];
        EachSnoc(commandLineEggs, i, ScanStep(matchToo));
        AppendAssoc(log0, Each(commandLineEggs[..i], ScanStep(matchToo)), StepCalls(ScanStep(matchToo), egg));
        log := log + StepCalls(ScanStep(matchToo), egg);
        InternTextures(texturesOf(egg));
        commandLineTextures := commandLineTextures + texturesOf(egg);
        i := i + 1;
      }
      assert commandLineEggs[..|commandLineEggs|] == commandLineEggs;
    }

    /**
     * process_command_line_eggs (palettizer.cxx:201-278); `texturesOf` gives
     * the textures each egg names once scanned, and `texOrder` the order the
     * set of those textures, kept by address, is walked in.
     */
    method ProcessCommandLineEggs(forceRead: bool, texturesOf: string -> set<string>, texOrder: seq<string>)
      requires EnumeratesNames(texOrder, NamedTextures(commandLineEggs, texturesOf))
      modifies this`log, this`commandLineTextures, this`textures
      ensures commandLineTextures == NamedTextures(commandLineEggs, texturesOf)
      ensures textures.Keys == old(textures).Keys + commandLineTextures
      ensures forall n :: n in old(textures) ==> textures[n] == old(textures)[n]
      ensures log == old(log) + CommandLineCalls(commandLineEggs, SortedStrs(eggFiles.Keys),
                                                 texOrder, SortedStrs(groups.Keys), forceRead)
    {
      ghost var log0 := log;
      commandLineTextures := {};
      ScanCommandLineEggs(true, texturesOf);
      var eggs := EnumerateStrs(eggFiles.Keys);
      var gs := EnumerateStrs(groups.Keys);
      Visit(eggs, CrossLinkStep);
      Visit(texOrder, TextureStep(forceRead));
      Visit(texOrder, AssignStep);
      Visit(eggs, ChooseStep);
      Visit(texOrder, SizeStep);
      Visit(gs, PlaceStep);
      CommandLineSplit(log0, commandLineEggs, eggs, texOrder, gs, forceRead);
    }

    /**
     * process_all (palettizer.cxx:289-362): the texture loops walk the whole
     * texture table, which by then holds every texture the command-line eggs
     * name.
     */
    method ProcessAll(forceRead: bool, texturesOf: string -> set<string>)
      modifies this`log, this`commandLineTextures, this`textures
      ensures commandLineTextures == old(commandLineTextures) + NamedTextures(commandLineEggs, texturesOf)
      ensures textures.Keys == old(textures).Keys + NamedTextures(commandLineEggs, texturesOf)
      ensures forall n :: n in old(textures) ==> textures[n] == old(textures)[n]
      ensures log == old(log) + ProcessAllCalls(commandLineEggs, SortedStrs(eggFiles.Keys),
                                                SortedStrs(textures.Keys), SortedStrs(groups.Keys), forceRead)
    {
      ghost var log0 := log;
      ScanCommandLineEggs(false, texturesOf);
      var eggs := EnumerateStrs(eggFiles.Keys);
      var texs := EnumerateStrs(textures.Keys);
      var gs := EnumerateStrs(groups.Keys);
      Visit(eggs, MatchStep);
      Visit(eggs, CrossLinkStep);
      Visit(texs, TextureStep(forceRead));
      Visit(texs, AssignStep);
      Visit(eggs, ChooseStep);
      Visit(texs, SizeStep);
      Visit(gs, PlaceStep);
      ProcessAllSplit(log0, commandLineEggs, eggs, texs, gs, forceRead);
    }

    /** generate_images (palettizer.cxx:403-416). */
    method GenerateImages(redoAll: bool)
      modifies this`log
      ensures log == old(log) + GenerateCalls(SortedStrs(groups.Keys), SortedStrs(textures.Keys), redoAll)
    {
      ghost var log0 := log;
      var gs := EnumerateStrs(groups.Keys);
      var ts := EnumerateStrs(textures.Keys);
      Visit(gs, UpdateStep(redoAll));
      Visit(ts, CopyStep(redoAll));
      AppendAssoc(log0, Each(gs, UpdateStep(redoAll)), Each(ts, CopyStep(redoAll)));
    }

    /**
     * read_stale_eggs (palettizer.cxx:430-450); `readOk` gives the outcome of
     * read_egg on each egg file.  The result is false exactly when some read
     * failed, and every other egg is still visited.
     */
    method ReadStaleEggs(redoAll: bool, readOk: string -> bool) returns (ok: bool)
      requires Valid()
      modifies this`eggFiles, this`log
      ensures Valid()
      ensures eggFiles.Keys == old(eggFiles).Keys
      ensures forall n :: n in eggFiles ==> eggFiles[n] == StaleAfter(old(eggFiles)[n], redoAll, readOk(n))
      ensures ok <==> forall n :: n in old(eggFiles) && Touched(old(eggFiles)[n], redoAll) ==> readOk(n)
      ensures log == old(log) + Each(SortedStrs(old(eggFiles).Keys), StaleStep(old(eggFiles), redoAll, readOk))
    {
      var names := EnumerateStrs(eggFiles.Keys);
      var files, calls;
      files, ok, calls := ReadStale(names, eggFiles, redoAll, readOk);
      eggFiles := files;
      log := log + calls;
    }

    /**
     * write_eggs (palettizer.cxx:459-475); `writeOk` gives the outcome of
     * write_egg on each egg file.  The result is false exactly when some
     * write failed.
     */
    method WriteEggs(writeOk: string -> bool) returns (ok: bool)
      modifies this`log
      ensures ok <==> forall n :: n in eggFiles && eggFiles[n].hasData ==> writeOk(n)
      ensures log == old(log) + Each(SortedStrs(eggFiles.Keys), WriteStep(eggFiles))
    {
      ghost var log0 := log;
      var names := EnumerateStrs(eggFiles.Keys);
      SortedStrsMembers(eggFiles.Keys);
      ok := true;
      var i := 0;
      while i < |names|
        invariant 0 <= i <= |names|
        invariant ok <==> WritesOk(names[..i], eggFiles, writeOk)
        invariant log == log0 + Each(names[..i], WriteStep(eggFiles))
      {
        var n := names[i];
        var calls: seq<Call> := [];
        WritesOkSnoc(names, i, eggFiles, writeOk);
        if eggFiles[n].hasData {
          calls := [UpdateEgg(n), WriteEgg(n)];
          if !writeOk(n) {
            ok := false;
          }
        }
        EachSnoc(names, i, WriteStep(eggFiles));
        AppendAssoc(log0, Each(names[..i], WriteStep(eggFiles)), calls);
        log := log + calls;
        i := i + 1;
      }
      assert names[..|names|] == names;
    }
  }
}
