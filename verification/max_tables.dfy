/**
 * The bookkeeping of the 3D Studio Max egg importer
 * (src/maxeggimport/maxEggImport.cxx) that does not depend on any object:
 * interning tables that hand out dense indices, the capacity-growth rule of
 * the Max mesh arrays, the ".verts" suffix strip of GetMesh, first-seen
 * de-duplication of joints, the polygon fan and the control-joint
 * classification.
 */
module MaxTables {
  import opened Wrappers

  /** An EggGroup (a joint) by identity; a reference that may be null is an Option<JointRef>. */
  type JointRef = nat

  /** A point, normal, texture coordinate or colour; the importer compares them by equality only. */
  datatype Vec3 = Vec3(x: real, y: real, z: real)
  datatype Uv = Uv(u: real, v: real)
  datatype Color = Color(r: real, g: real, b: real, a: real)

  /** MaxEggWeight: a membership strength and the joint it is for. */
  datatype Weight = Weight(membership: real, joint: JointRef)

  /** The part of a MaxEggVertex that MEV_Compare compares: everything but the index. */
  datatype VertKey = VertKey(pos: Vec3, normal: Vec3, weights: seq<Weight>)

  /**
   * An egg vertex as GetVert and TraverseEggNode read it: position, normal,
   * texture coordinate (already transformed by the texture matrix), colour,
   * and the (membership, joint) pair of every joint that references it.
   */
  datatype EggVertex = EggVertex(pos: Vec3, normal: Vec3, uv: Uv, color: Color, memberships: seq<Weight>)

  /** A triangle of the Max mesh: vertex, texture-vertex and colour-vertex indices and the material id. */
  datatype Tri = Tri(a: int, b: int, c: int)
  datatype Face = Face(verts: Tri, tverts: Tri, cverts: Tri, matId: int)

  /** What GetControlJoint answers: null, one joint, or CTRLJOINT_DEFORM. */
  datatype Control = NoControl | Shared(joint: JointRef) | Deform

  // ---------------------------------------------------------------------
  // Interning tables

  /**
   * A table that interns keys with dense indices: `count` keys, each with an
   * index below `count`, no two with the same index.
   */
  ghost predicate Interned<K(!new)>(tab: map<K, nat>, count: int)
  {
    |tab| == count &&
    (forall k :: k in tab ==> tab[k] < count) &&
    (forall a, b {:trigger Collide(tab, a, b)} :: Collide(tab, a, b) ==> a == b)
  }

  /** Two keys of the table share an index. */
  ghost predicate Collide<K(!new)>(tab: map<K, nat>, a: K, b: K)
  {
    a in tab && b in tab && tab[a] == tab[b]
  }

  /** A new key interned with the next index keeps the table interned. */
  lemma InternedInsert<K(!new)>(tab: map<K, nat>, count: int, k: K)
    requires Interned(tab, count) && k !in tab
    ensures Interned(tab[k := count], count + 1)
  {
    assert tab[k := count].Keys == tab.Keys + {k};
    var grown := tab[k := count];
    forall a, b | Collide(grown, a, b)
      ensures a == b
    {
      if a != k && b != k {
        assert Collide(tab, a, b);
      }
    }
  }

  /** The indices of an interned table are exactly 0 .. count-1. */
  lemma {:induction false} InternedDense<K(!new)>(tab: map<K, nat>, count: int)
    requires Interned(tab, count)
    ensures forall i :: 0 <= i < count ==> i in tab.Values
  {
    forall i | 0 <= i < count
      ensures i in tab.Values
    {
      if i !in tab.Values {
        var bound := Below(count) - {i};
        RangeSize(count);
        forall k | k in tab
          ensures tab[k] in bound
        {
          assert tab[k] in tab.Values;
        }
        forall a, b | a in tab && b in tab && tab[a] == tab[b]
          ensures a == b
        {
          assert Collide(tab, a, b);
        }
        Pigeonhole(tab, bound);
        assert false;
      }
    }
  }

  /** The naturals below n. */
  ghost function Below(n: int): set<nat>
    decreases if n < 0 then 0 else n
  {
    if n <= 0 then {} else Below(n - 1) + {n - 1}
  }

  lemma {:induction false} RangeSize(n: int)
    ensures n >= 0 ==> |Below(n)| == n
    ensures forall i :: i in Below(n) <==> 0 <= i < n
    decreases if n < 0 then 0 else n
  {
    if n > 0 {
      RangeSize(n - 1);
    }
  }

  /** A map that is one-to-one into `bound` has no more keys than `bound` has elements. */
  lemma {:induction false} Pigeonhole<K>(tab: map<K, nat>, bound: set<nat>)
    requires forall k :: k in tab ==> tab[k] in bound
    requires forall a, b :: a in tab && b in tab && tab[a] == tab[b] ==> a == b
    ensures |tab| <= |bound|
    decreases |tab|
  {
    if tab != map[] {
      var k :| k in tab;
      var rest := tab - {k};
      assert rest.Keys == tab.Keys - {k};
      Pigeonhole(rest, bound - {tab[k]});
    }
  }

  /**
   * The capacity a Max mesh array has once a new element is about to be
   * stored at index `count`: a full array grows to count*2+100, otherwise
   * it keeps its size.
   */
  function Grown(count: int, capacity: int): (r: int)
    ensures count != capacity ==> r == capacity
    ensures 0 <= count ==> r >= capacity
    ensures 0 <= count <= capacity ==> count < r
  {
    if count == capacity then count * 2 + 100 else capacity
  }

  // ---------------------------------------------------------------------
  // GetMesh's name strip

  predicate MatchesAt(s: string, pat: string, i: int)
  {
    0 <= i && i + |pat| <= |s| && s[i..i + |pat|] == pat
  }

  /** std::string::rfind: the last position where `pat` occurs in `s`, or -1 (npos). */
  function RFind(s: string, pat: string): (r: int)
    ensures -1 <= r && (r >= 0 ==> MatchesAt(s, pat, r))
    ensures forall j :: r < j ==> !MatchesAt(s, pat, j)
  {
    LastMatchBelow(s, pat, |s| - |pat| + 1)
  }

  /** The last position below `k` where `pat` occurs, or -1. */
  function LastMatchBelow(s: string, pat: string, k: int): (r: int)
    ensures -1 <= r && (r >= 0 ==> r < k && MatchesAt(s, pat, r))
    ensures forall j :: r < j < k ==> !MatchesAt(s, pat, j)
    decreases if k < 0 then 0 else k
  {
    if k <= 0 then -1
    else if MatchesAt(s, pat, k - 1) then k - 1
    else LastMatchBelow(s, pat, k - 1)
  }

  predicate EndsWithVerts(name: string)
  {
    |name| >= 6 && name[|name| - 6..] == ".verts"
  }

  /**
   * The mesh name GetMesh derives from a vertex pool's name: one trailing
   * ".verts" is dropped, but only from a name longer than the suffix itself.
   */
  function StripVerts(name: string): (r: string)
    ensures |name| > 6 && EndsWithVerts(name) ==> r + ".verts" == name
    ensures !(|name| > 6 && EndsWithVerts(name)) ==> r == name
  {
    var n := |name|;
    if n > 6 && RFind(name, ".verts") == n - 6 then name[..n - 6] else name
  }

  /**
   * Stripping undoes appending the suffix to a non-empty name; applied to
   * base + ".verts" + ".verts" it takes one suffix off, not two.
   */
  lemma StripVertsInverse(base: string)
    requires |base| > 0
    ensures StripVerts(base + ".verts") == base
  {
    var a := base + ".verts";
    assert a[|base|..] == ".verts";
    var r := StripVerts(a);
    assert |r| == |base|;
    assert r == (r + ".verts")[..|base|] == a[..|base|] == base;
  }

  /** A pool named just ".verts", or anything not ending in it, keeps its name. */
  lemma StripVertsKeeps(name: string)
    requires name == ".verts" || !EndsWithVerts(name)
    ensures StripVerts(name) == name
  {
  }

  // ---------------------------------------------------------------------
  // First-seen de-duplication (CreateSkinModifier's joint list)

  /**
   * The joints CreateSkinModifier collects from the joint references `js`,
   * in the order it meets them: each joint the first time it is met, unless
   * its `_inskin` flag was already set (`skip`).
   */
  ghost function Firsts(js: seq<JointRef>, skip: set<JointRef>): seq<JointRef>
    decreases |js|
  {
    if js == [] then []
    else
      var q := Firsts(js[..|js| - 1], skip);
      var x := js[|js| - 1];
      if x in skip || x in q then q else q + [x]
  }

  /**
   * The collected list holds every joint met and not skipped, each exactly
   * once, and a joint comes before another exactly when it was met first.
   */
  lemma {:induction false} FirstsSpec(js: seq<JointRef>, skip: set<JointRef>)
    ensures forall x :: x in Firsts(js, skip) <==> x in js && x !in skip
    ensures forall a, b :: 0 <= a < b < |Firsts(js, skip)| ==> Firsts(js, skip)[a] != Firsts(js, skip)[b]
    ensures forall a, b, p :: 0 <= a < b < |Firsts(js, skip)| && 0 <= p < |js| && js[p] == Firsts(js, skip)[b] ==>
              Firsts(js, skip)[a] in js[..p]
    decreases |js|
  {
    if js != [] {
      var pre := js[..|js| - 1];
      var x := js[|js| - 1];
      FirstsSpec(pre, skip);
      var q := Firsts(pre, skip);
      var r := Firsts(js, skip);
      assert js == pre + [x];
      forall a, b, p | 0 <= a < b < |r| && 0 <= p < |js| && js[p] == r[b]
        ensures r[a] in js[..p]
      {
        if p < |pre| {
          assert js[..p] == pre[..p];
          if b == |q| {
            assert false;
          }
          assert pre[p] == q[b];
        } else {
          assert r[a] == q[a] && q[a] in pre;
          assert js[..p] == pre;
        }
      }
    }
  }

  // ---------------------------------------------------------------------
  // The polygon fan of TraverseEggNode

  /** How many faces the fan of an n-gon adds: one per interior vertex. */
  function FanCount(n: int): (r: nat)
    ensures n >= 2 ==> r + 2 == n
    ensures n < 2 ==> r == 0
  {
    if n >= 2 then n - 2 else 0
  }

  /** Fan face i (1 <= i <= n-2): corner 0 of the polygon and corners i and i+1. */
  function FanFace(vs: seq<int>, ts: seq<int>, cs: seq<int>, tex: int, i: int): Face
    requires |vs| == |ts| == |cs| && 1 <= i && i + 1 < |vs|
  {
    Face(Tri(vs[0], vs[i], vs[i + 1]), Tri(ts[0], ts[i], ts[i + 1]), Tri(cs[0], cs[i], cs[i + 1]), tex)
  }

  /** The fan faces 1 .. i-1, in the order the loop adds them. */
  function FanPrefix(vs: seq<int>, ts: seq<int>, cs: seq<int>, tex: int, i: int): seq<Face>
    requires |vs| == |ts| == |cs| && 1 <= i && (i == 1 || i < |vs|)
    decreases i
  {
    if i == 1 then [] else FanPrefix(vs, ts, cs, tex, i - 1) + [FanFace(vs, ts, cs, tex, i - 1)]
  }

  /** The faces of the fan over corners vs (with texture and colour corners ts, cs). */
  function FanFaces(vs: seq<int>, ts: seq<int>, cs: seq<int>, tex: int): seq<Face>
    requires |vs| == |ts| == |cs|
  {
    FanPrefix(vs, ts, cs, tex, if |vs| >= 2 then |vs| - 1 else 1)
  }

  /**
   * The fan of an n-gon has n-2 faces (none for fewer than three corners),
   * and face i-1 of it is FanFace i: corner 0 and corners i, i+1.
   */
  lemma {:induction false} FanFacesSpec(vs: seq<int>, ts: seq<int>, cs: seq<int>, tex: int)
    requires |vs| == |ts| == |cs|
    ensures |FanFaces(vs, ts, cs, tex)| == FanCount(|vs|)
    ensures forall i :: 1 <= i && i + 1 < |vs| ==> FanFaces(vs, ts, cs, tex)[i - 1] == FanFace(vs, ts, cs, tex, i)
  {
    if |vs| >= 2 {
      FanPrefixSpec(vs, ts, cs, tex, |vs| - 1);
    }
  }

  lemma {:induction false} FanPrefixSpec(vs: seq<int>, ts: seq<int>, cs: seq<int>, tex: int, n: int)
    requires |vs| == |ts| == |cs| && 1 <= n && (n == 1 || n < |vs|)
    ensures |FanPrefix(vs, ts, cs, tex, n)| == n - 1
    ensures forall i :: 1 <= i < n ==> FanPrefix(vs, ts, cs, tex, n)[i - 1] == FanFace(vs, ts, cs, tex, i)
    decreases n
  {
    if n > 1 {
      FanPrefixSpec(vs, ts, cs, tex, n - 1);
    }
  }

  /** Neighbouring fan faces share the edge from corner 0 to the corner between them. */
  lemma FanFacesAdjacent(vs: seq<int>, ts: seq<int>, cs: seq<int>, tex: int, i: int)
    requires |vs| == |ts| == |cs| && 1 <= i && i + 2 < |vs|
    ensures FanFace(vs, ts, cs, tex, i).verts.a == FanFace(vs, ts, cs, tex, i + 1).verts.a == vs[0]
    ensures FanFace(vs, ts, cs, tex, i).verts.c == FanFace(vs, ts, cs, tex, i + 1).verts.b == vs[i + 1]
  {
  }

  /** The largest value of the source's unsigned size_t (a 32-bit Win32 plug-in build). */
  const SizeMax: nat := 0xFFFF_FFFF

  /**
   * The fan loop's bound `vertIndices.size()-1` as written: an unsigned
   * subtraction, which wraps around for an empty polygon.
   */
  function AsWrittenFanBound(n: nat): (r: nat)
    requires n <= SizeMax
    ensures n >= 1 ==> r == n - 1
    ensures n == 0 ==> r == SizeMax
  {
    (n + SizeMax) % (SizeMax + 1)
  }

  /**
   * The loop `for (i=1; i<size()-1; i++)` enters for an empty polygon: its
   * first iteration reads vertIndices[0], [1] and [2] of an empty vector.
   * For every polygon with a corner it runs exactly FanCount times.
   */
  lemma EmptyPolygonOverruns()
    ensures 1 < AsWrittenFanBound(0)
    ensures forall n: nat :: 1 <= n <= SizeMax ==> FanCount(n) == if AsWrittenFanBound(n) > 1 then AsWrittenFanBound(n) - 1 else 0
  {
  }

  // ---------------------------------------------------------------------
  // Vertex tables as the iteration sees them

  /** `order` lists every key of the table exactly once: the hash table's iteration order. */
  ghost predicate Enumerates(order: seq<VertKey>, tab: map<VertKey, nat>)
  {
    (forall i, j :: 0 <= i < j < |order| ==> order[i] != order[j]) &&
    (forall k :: k in tab <==> k in order)
  }

  /** The joints of a list of weights, in order. */
  function JointsOf(ws: seq<Weight>): (r: seq<JointRef>)
    ensures |r| == |ws| && forall i :: 0 <= i < |ws| ==> r[i] == ws[i].joint
  {
    if ws == [] then [] else JointsOf(ws[..|ws| - 1]) + [ws[|ws| - 1].joint]
  }

  /** The joint references of the vertices, vertex by vertex and weight by weight. */
  ghost function WeightJoints(order: seq<VertKey>): seq<JointRef>
  {
    if order == [] then [] else WeightJoints(order[..|order| - 1]) + JointsOf(order[|order| - 1].weights)
  }

  /** Every joint reference of the vertices comes from one of their weights, and every weight gives one. */
  lemma {:induction false} WeightJointsMembers(order: seq<VertKey>)
    ensures forall g :: g in WeightJoints(order) <==> exists k, w :: k in order && w in k.weights && w.joint == g
  {
    if order != [] {
      var pre := order[..|order| - 1];
      var last := order[|order| - 1];
      WeightJointsMembers(pre);
      assert order == pre + [last];
      forall g ensures g in WeightJoints(order) <==> exists k, w :: k in order && w in k.weights && w.joint == g
      {
        if g in JointsOf(last.weights) {
          var i :| 0 <= i < |last.weights| && JointsOf(last.weights)[i] == g;
          assert last in order && last.weights[i] in last.weights;
        }
        if exists k, w :: k in order && w in k.weights && w.joint == g {
          var k, w :| k in order && w in k.weights && w.joint == g;
          if k == last {
            var i :| 0 <= i < |last.weights| && last.weights[i] == w;
            assert JointsOf(last.weights)[i] == g;
          } else {
            assert k in pre;
          }
        }
      }
    }
  }
}
