/**
 * The objects of the 3D Studio Max egg importer
 * (src/maxeggimport/maxEggImport.cxx): MaxEggImporter with its texture,
 * joint and mesh tables, MaxEggMesh with its vertex, texture-vertex and
 * colour-vertex tables, its counters and the capacities of the Max mesh's
 * arrays, and MaxEggJoint reduced to its identity, parent and `_inskin`
 * flag.  Calls into the Max SDK that only draw or store geometry are not
 * modelled; the faces the importer stores are kept in `faces`, and the bones
 * handed to the skin modifier in `skinBones`.
 */
module MaxImport {
  import opened Wrappers
  import opened MaxTables

  /** MaxEggTex as far as the importer's bookkeeping goes: its path and material id. */
  datatype TexRec = TexRec(path: string, id: nat)

  /** An EggVertexPool: its identity and its name. */
  datatype Pool = Pool(id: nat, name: string)

  /** The weights GetVert gives a vertex: its joint memberships, or full membership in the context joint. */
  function WeightsOf(v: EggVertex, context: Option<JointRef>): seq<Weight>
  {
    if |v.memberships| == 0 then (if context.Some? then [Weight(1.0, context.value)] else [])
    else v.memberships
  }

  /** The key under which GetVert looks a vertex up. */
  function KeyOf(v: EggVertex, context: Option<JointRef>): VertKey
  {
    VertKey(v.pos, v.normal, WeightsOf(v, context))
  }

  /** The ids of a texture table, by path. */
  ghost function TexIds(tab: map<string, TexRec>): map<string, nat>
  {
    map p | p in tab :: tab[p].id
  }

  class MaxEggJoint {
    const eggJoint: JointRef
    const parent: Option<MaxEggJoint>
    var inSkin: bool

    /** MakeJoint's bookkeeping (maxEggImport.cxx:309-336); the joint's frame is not modelled. */
    constructor(eggJoint: JointRef, parent: Option<MaxEggJoint>)
      ensures this.eggJoint == eggJoint && this.parent == parent && !inSkin
    {
      this.eggJoint := eggJoint;
      this.parent := parent;
      inSkin := false;
    }
  }

  /** The loop that clears the `_inskin` flag of every collected joint again. */
  method ClearFlags(tab: map<JointRef, MaxEggJoint>, joints: seq<JointRef>)
    requires forall g :: g in tab ==> tab[g].eggJoint == g
    requires forall g :: g in joints ==> g in tab
    modifies tab.Values
    ensures forall g :: g in tab ==> tab[g].inSkin == (old(tab[g].inSkin) && g !in joints)
  {
    var i := 0;
    while i < |joints|
      invariant 0 <= i <= |joints|
      invariant forall g :: g in tab ==> tab[g].inSkin == (old(tab[g].inSkin) && g !in joints[..i])
    {
      var x := joints[i];
      assert forall g :: g in tab && g != x ==> tab[g] != tab[x];
      assert joints[..i + 1] == joints[..i] + [x];
      tab[x].inSkin := false;
      i := i + 1;
    }
    assert joints[..|joints|] == joints;
  }

  /** The flag of each joint record is set exactly for the joints in `skip` or in `joints`. */
  ghost predicate FlagsMatch(tab: map<JointRef, MaxEggJoint>, skip: set<JointRef>, joints: seq<JointRef>)
    reads tab.Values
  {
    forall g :: g in tab ==> tab[g].inSkin == (g in skip || g in joints)
  }

  /**
   * The inner loop of CreateSkinModifier's collection, over one vertex's
   * weights: a joint whose flag is clear is flagged and appended.
   */
  method CollectJoints(tab: map<JointRef, MaxEggJoint>, ghost prefix: seq<JointRef>, ws: seq<Weight>,
                       ghost skip: set<JointRef>, joints: seq<JointRef>) returns (joints': seq<JointRef>)
    requires forall g :: g in tab ==> tab[g].eggJoint == g
    requires forall w :: w in ws ==> w.joint in tab
    requires joints == Firsts(prefix, skip) && FlagsMatch(tab, skip, joints)
    modifies tab.Values
    ensures joints' == Firsts(prefix + JointsOf(ws), skip) && FlagsMatch(tab, skip, joints')
  {
    joints' := joints;
    var i := 0;
    assert prefix + JointsOf(ws[..0]) == prefix;
    while i < |ws|
      invariant 0 <= i <= |ws|
      invariant joints' == Firsts(prefix + JointsOf(ws[..i]), skip) && FlagsMatch(tab, skip, joints')
    {
      var x := ws[i].joint;
      assert ws[i] in ws;
      assert (prefix + JointsOf(ws[..i])) + [x] == prefix + JointsOf(ws[..i + 1]) by {
        assert ws[..i + 1][..i] == ws[..i];
      }
      var joint := tab[x];
      if !joint.inSkin {
        assert forall g :: g in tab && g != x ==> tab[g] != joint;
        joint.inSkin := true;
        joints' := joints' + [x];
      }
      i := i + 1;
    }
    assert ws[..|ws|] == ws;
  }

  /** vi, ti and ci hold each corner's index in the vertex, texture-vertex and colour-vertex tables. */
  ghost predicate IndexedBy(vertices: seq<EggVertex>, context: Option<JointRef>, vi: seq<int>, ti: seq<int>, ci: seq<int>,
                            vt: map<VertKey, nat>, tt: map<Uv, nat>, ct: map<Color, nat>)
  {
    |vi| == |ti| == |ci| == |vertices| &&
    forall j :: 0 <= j < |vertices| ==>
      KeyOf(vertices[j], context) in vt && vi[j] == vt[KeyOf(vertices[j], context)] &&
      vertices[j].uv in tt && ti[j] == tt[vertices[j].uv] &&
      vertices[j].color in ct && ci[j] == ct[vertices[j].color]
  }

  /** Every entry of m0 is an entry of m1. */
  ghost predicate Extends<K(!new), V>(m0: map<K, V>, m1: map<K, V>)
  {
    forall k :: k in m0 ==> k in m1 && m1[k] == m0[k]
  }

  lemma ExtendsInsert<K(!new), V>(m: map<K, V>, k: K, v: V)
    requires k !in m
    ensures Extends(m, m[k := v])
  {
  }

  /** One more corner indexed, in tables that only gained entries. */
  lemma IndexedByStep(vertices: seq<EggVertex>, context: Option<JointRef>, k: int, vi: seq<int>, ti: seq<int>, ci: seq<int>,
                      v: int, t: int, c: int, vt0: map<VertKey, nat>, vt1: map<VertKey, nat>,
                      tt0: map<Uv, nat>, tt1: map<Uv, nat>, ct0: map<Color, nat>, ct1: map<Color, nat>)
    requires 0 <= k < |vertices| && IndexedBy(vertices[..k], context, vi, ti, ci, vt0, tt0, ct0)
    requires Extends(vt0, vt1) && Extends(tt0, tt1) && Extends(ct0, ct1)
    requires KeyOf(vertices[k], context) in vt1 && v == vt1[KeyOf(vertices[k], context)]
    requires vertices[k].uv in tt1 && t == tt1[vertices[k].uv]
    requires vertices[k].color in ct1 && c == ct1[vertices[k].color]
    ensures IndexedBy(vertices[..k + 1], context, vi + [v], ti + [t], ci + [c], vt1, tt1, ct1)
  {
    assert vertices[..k + 1][..k] == vertices[..k];
  }

  class MaxEggMesh {
    const importer: MaxEggImporter
    const name: string
    var vertCount: int
    var tvertCount: int
    var cvertCount: int
    var faceCount: int
    /** The sizes of the Max mesh's vertex, texture-vertex, colour-vertex and face arrays. */
    var numVerts: int
    var numTVerts: int
    var numCVerts: int
    var numFaces: int
    var vertTab: map<VertKey, nat>
    var tvertTab: map<Uv, nat>
    var cvertTab: map<Color, nat>
    /** The faces stored in the Max mesh, by index. */
    var faces: seq<Face>
    /** The bones the skin modifier was given, in the order AddBoneEx received them. */
    var skinBones: seq<JointRef>

    /** Every table interns its keys densely and no counter has outrun its array. */
    ghost predicate Valid()
      reads this
    {
      VertsOk() && TVertsOk() && CVertsOk() && FacesOk()
    }

    ghost predicate VertsOk()
      reads this`vertTab, this`vertCount, this`numVerts
    {
      Interned(vertTab, vertCount) && vertCount <= numVerts
    }

    ghost predicate TVertsOk()
      reads this`tvertTab, this`tvertCount, this`numTVerts
    {
      Interned(tvertTab, tvertCount) && tvertCount <= numTVerts
    }

    ghost predicate CVertsOk()
      reads this`cvertTab, this`cvertCount, this`numCVerts
    {
      Interned(cvertTab, cvertCount) && cvertCount <= numCVerts
    }

    ghost predicate FacesOk()
      reads this`faces, this`faceCount, this`numFaces
    {
      faceCount == |faces| && faceCount <= numFaces
    }

    /** A new mesh as GetMesh sets it up (maxEggImport.cxx:575-593): every count is 0. */
    constructor(importer: MaxEggImporter, name: string)
      ensures this.importer == importer && this.name == name
      ensures vertCount == 0 && tvertCount == 0 && cvertCount == 0 && faceCount == 0
      ensures vertTab == map[] && tvertTab == map[] && cvertTab == map[] && faces == [] && skinBones == []
      ensures Valid()
    {
      this.importer := importer;
      this.name := name;
      vertCount, tvertCount, cvertCount, faceCount := 0, 0, 0, 0;
      numVerts, numTVerts, numCVerts, numFaces := 0, 0, 0, 0;
      vertTab, tvertTab, cvertTab := map[], map[], map[];
      faces, skinBones := [], [];
    }

    /**
     * GetVert: the index of the vertex with this position, normal and weights,
     * interned with the next index (growing the array if it is full) when new.
     */
    method GetVert(v: EggVertex, context: Option<JointRef>) returns (idx: int)
      requires VertsOk()
      modifies this`vertTab, this`vertCount, this`numVerts
      ensures VertsOk() && Extends(old(vertTab), vertTab)
      ensures KeyOf(v, context) in vertTab && idx == vertTab[KeyOf(v, context)] && idx < numVerts
      ensures KeyOf(v, context) in old(vertTab) ==>
                vertTab == old(vertTab) && vertCount == old(vertCount) && numVerts == old(numVerts)
      ensures KeyOf(v, context) !in old(vertTab) ==>
                idx == old(vertCount) && vertTab == old(vertTab)[KeyOf(v, context) := idx] &&
                vertCount == old(vertCount) + 1 && numVerts == Grown(old(vertCount), old(numVerts))
    {
      var key := KeyOf(v, context);
      if key in vertTab {
        return vertTab[key];
      }
      if vertCount == numVerts {
        numVerts := vertCount * 2 + 100;
      }
      idx := vertCount;
      vertCount := vertCount + 1;
      InternedInsert(vertTab, idx, key);
      ExtendsInsert(vertTab, key, idx);
      vertTab := vertTab[key := idx];
    }

    /** GetTVert: the interned index of a texture coordinate. */
    method GetTVert(uv: Uv) returns (idx: int)
      requires TVertsOk()
      modifies this`tvertTab, this`tvertCount, this`numTVerts
      ensures TVertsOk() && Extends(old(tvertTab), tvertTab)
      ensures uv in tvertTab && idx == tvertTab[uv] && idx < numTVerts
      ensures uv in old(tvertTab) ==>
                tvertTab == old(tvertTab) && tvertCount == old(tvertCount) && numTVerts == old(numTVerts)
      ensures uv !in old(tvertTab) ==>
                idx == old(tvertCount) && tvertTab == old(tvertTab)[uv := idx] &&
                tvertCount == old(tvertCount) + 1 && numTVerts == Grown(old(tvertCount), old(numTVerts))
    {
      if uv in tvertTab {
        return tvertTab[uv];
      }
      if tvertCount == numTVerts {
        numTVerts := tvertCount * 2 + 100;
      }
      idx := tvertCount;
      tvertCount := tvertCount + 1;
      InternedInsert(tvertTab, idx, uv);
      ExtendsInsert(tvertTab, uv, idx);
      tvertTab := tvertTab[uv := idx];
    }

    /** GetCVert: the interned index of a colour. */
    method GetCVert(col: Color) returns (idx: int)
      requires CVertsOk()
      modifies this`cvertTab, this`cvertCount, this`numCVerts
      ensures CVertsOk() && Extends(old(cvertTab), cvertTab)
      ensures col in cvertTab && idx == cvertTab[col] && idx < numCVerts
      ensures col in old(cvertTab) ==>
                cvertTab == old(cvertTab) && cvertCount == old(cvertCount) && numCVerts == old(numCVerts)
      ensures col !in old(cvertTab) ==>
                idx == old(cvertCount) && cvertTab == old(cvertTab)[col := idx] &&
                cvertCount == old(cvertCount) + 1 && numCVerts == Grown(old(cvertCount), old(numCVerts))
    {
      if col in cvertTab {
        return cvertTab[col];
      }
      if cvertCount == numCVerts {
        numCVerts := cvertCount * 2 + 100;
      }
      idx := cvertCount;
      cvertCount := cvertCount + 1;
      InternedInsert(cvertTab, idx, col);
      ExtendsInsert(cvertTab, col, idx);
      cvertTab := cvertTab[col := idx];
    }

    /** AddFace: the face is stored at the next index, growing the face arrays if they are full. */
    method AddFace(verts: Tri, tverts: Tri, cverts: Tri, tex: int) returns (idx: int)
      requires FacesOk()
      modifies this`faces, this`faceCount, this`numFaces
      ensures FacesOk()
      ensures idx == old(faceCount) && idx < numFaces
      ensures faces == old(faces) + [Face(verts, tverts, cverts, tex)] && faceCount == old(faceCount) + 1
      ensures numFaces == Grown(old(faceCount), old(numFaces))
    {
      if faceCount == numFaces {
        numFaces := faceCount * 2 + 100;
      }
      idx := faceCount;
      faceCount := faceCount + 1;
      faces := faces + [Face(verts, tverts, cverts, tex)];
    }

    /**
     * The fan of TraverseEggNode (maxEggImport.cxx:733-737) with the loop
     * bound taken as a signed difference: face i joins corner 0 to corners i
     * and i+1, for i from 1 to n-2, and an empty polygon adds nothing.
     */
    method AddFan(vs: seq<int>, ts: seq<int>, cs: seq<int>, tex: int)
      requires FacesOk() && |vs| == |ts| == |cs|
      modifies this`faces, this`faceCount, this`numFaces
      ensures FacesOk()
      ensures faces == old(faces) + FanFaces(vs, ts, cs, tex)
    {
      ghost var f0 := faces;
      var i := 1;
      while i < |vs| - 1
        invariant FacesOk()
        invariant 1 <= i && (i == 1 || i < |vs|)
        invariant faces == f0 + FanPrefix(vs, ts, cs, tex, i)
      {
        ghost var f1 := faces;
        var _ := AddFace(Tri(vs[0], vs[i], vs[i + 1]), Tri(ts[0], ts[i], ts[i + 1]), Tri(cs[0], cs[i], cs[i + 1]), tex);
        assert faces == f0 + (FanPrefix(vs, ts, cs, tex, i) + [FanFace(vs, ts, cs, tex, i)]);
        i := i + 1;
      }
    }

    /** vi, ti and ci hold the vertex, texture-vertex and colour-vertex index of each corner. */
    ghost predicate Indexes(vertices: seq<EggVertex>, context: Option<JointRef>, vi: seq<int>, ti: seq<int>, ci: seq<int>)
      reads this`vertTab, this`tvertTab, this`cvertTab
    {
      IndexedBy(vertices, context, vi, ti, ci, vertTab, tvertTab, cvertTab)
    }

    /** The three lookups of one corner. */
    method GetCorner(vertex: EggVertex, context: Option<JointRef>) returns (v: int, t: int, c: int)
      requires VertsOk() && TVertsOk() && CVertsOk()
      modifies this`vertTab, this`vertCount, this`numVerts, this`tvertTab, this`tvertCount, this`numTVerts
      modifies this`cvertTab, this`cvertCount, this`numCVerts
      ensures VertsOk() && TVertsOk() && CVertsOk()
      ensures Extends(old(vertTab), vertTab) && Extends(old(tvertTab), tvertTab) && Extends(old(cvertTab), cvertTab)
      ensures KeyOf(vertex, context) in vertTab && v == vertTab[KeyOf(vertex, context)]
      ensures vertex.uv in tvertTab && t == tvertTab[vertex.uv]
      ensures vertex.color in cvertTab && c == cvertTab[vertex.color]
    {
      v := GetVert(vertex, context);
      t := GetTVert(vertex.uv);
      c := GetCVert(vertex.color);
    }

    /** The corner loop of TraverseEggNode (maxEggImport.cxx:725-732): GetVert, GetTVert and GetCVert per corner. */
    method GetCorners(vertices: seq<EggVertex>, context: Option<JointRef>) returns (vi: seq<int>, ti: seq<int>, ci: seq<int>)
      requires VertsOk() && TVertsOk() && CVertsOk()
      modifies this`vertTab, this`vertCount, this`numVerts, this`tvertTab, this`tvertCount, this`numTVerts
      modifies this`cvertTab, this`cvertCount, this`numCVerts
      ensures VertsOk() && TVertsOk() && CVertsOk() && Indexes(vertices, context, vi, ti, ci)
    {
      vi, ti, ci := [], [], [];
      var k := 0;
      while k < |vertices|
        invariant 0 <= k <= |vertices| && VertsOk() && TVertsOk() && CVertsOk()
        invariant Indexes(vertices[..k], context, vi, ti, ci)
      {
        ghost var vt0, tt0, ct0 := vertTab, tvertTab, cvertTab;
        var v, t, c := GetCorner(vertices[k], context);
        IndexedByStep(vertices, context, k, vi, ti, ci, v, t, c, vt0, vertTab, tt0, tvertTab, ct0, cvertTab);
        vi, ti, ci := vi + [v], ti + [t], ci + [c];
        k := k + 1;
      }
      assert vertices[..|vertices|] == vertices;
    }

    /** One polygon of this mesh: the indices of its corners and the fan of faces over them. */
    method AddPolygon(vertices: seq<EggVertex>, context: Option<JointRef>, tex: int) returns (vi: seq<int>, ti: seq<int>, ci: seq<int>)
      requires Valid()
      modifies this`vertTab, this`vertCount, this`numVerts, this`tvertTab, this`tvertCount, this`numTVerts
      modifies this`cvertTab, this`cvertCount, this`numCVerts, this`faces, this`faceCount, this`numFaces
      ensures Valid() && Indexes(vertices, context, vi, ti, ci)
      ensures faces == old(faces) + FanFaces(vi, ti, ci, tex)
    {
      vi, ti, ci := GetCorners(vertices, context);
      AddFan(vi, ti, ci, tex);
    }

    /**
     * GetControlJoint, with the vertex table visited in `order`: no joint
     * when no vertex is weighted, the one joint when every vertex has exactly
     * one weight and all name the same joint, and DEFORM otherwise.
     */
    method GetControlJoint(order: seq<VertKey>) returns (r: Control)
      requires Enumerates(order, vertTab)
      ensures r == NoControl <==> forall k :: k in vertTab ==> |k.weights| == 0
      ensures forall j :: r == Shared(j) <==>
                vertTab != map[] && forall k :: k in vertTab ==> |k.weights| == 1 && k.weights[0].joint == j
    {
      if |order| == 0 {
        return NoControl;
      }
      var first := order[0];
      assert first in vertTab;
      if |first.weights| == 0 {
        var i := 1;
        while i < |order|
          invariant 1 <= i <= |order|
          invariant forall m :: 0 <= m < i ==> |order[m].weights| == 0
        {
          if |order[i].weights| != 0 {
            assert order[i] in vertTab;
            return Deform;
          }
          i := i + 1;
        }
        return NoControl;
      } else if |first.weights| == 1 {
        var joint := first.weights[0].joint;
        var i := 1;
        while i < |order|
          invariant 1 <= i <= |order|
          invariant forall m :: 0 <= m < i ==> |order[m].weights| == 1 && order[m].weights[0].joint == joint
        {
          if |order[i].weights| != 1 || order[i].weights[0].joint != joint {
            assert order[i] in vertTab;
            return Deform;
          }
          i := i + 1;
        }
        assert vertTab != map[];
        return Shared(joint);
      } else {
        return Deform;
      }
    }

    /** The joints of the importer, which CreateSkinModifier's flags live on. */
    ghost function Joints(): set<MaxEggJoint>
      reads this, importer
    {
      importer.jointTab.Values
    }

    /** The egg joints whose record has its `_inskin` flag set. */
    ghost function Flagged(): set<JointRef>
      reads this, importer, Joints()
    {
      set g | g in importer.jointTab && importer.jointTab[g].inSkin
    }

    /**
     * The joint collection of CreateSkinModifier (maxEggImport.cxx:656-670),
     * with the vertex table visited in `order`: the bones are the weighted
     * joints in first-seen order, each once, and every `_inskin` flag is as
     * it was before.
     */
    method CreateSkinModifier(order: seq<VertKey>)
      requires Enumerates(order, vertTab) && importer.JointsValid()
      requires forall g :: g in WeightJoints(order) ==> g in importer.jointTab
      modifies this`skinBones, Joints()
      ensures skinBones == Firsts(WeightJoints(order), old(Flagged()))
      ensures forall g :: g in importer.jointTab ==> importer.jointTab[g].inSkin == old(importer.jointTab[g].inSkin)
    {
      var tab := importer.jointTab;
      ghost var skip := Flagged();
      var joints: seq<JointRef> := [];
      var k := 0;
      while k < |order|
        invariant 0 <= k <= |order|
        invariant joints == Firsts(WeightJoints(order[..k]), skip)
        invariant FlagsMatch(tab, skip, joints)
      {
        forall w | w in order[k].weights
          ensures w.joint in tab
        {
          var i :| 0 <= i < |order[k].weights| && order[k].weights[i] == w;
          JointOfWeight(order, k, i);
        }
        joints := CollectJoints(tab, WeightJoints(order[..k]), order[k].weights, skip, joints);
        assert order[..k + 1][..k] == order[..k];
        assert WeightJoints(order[..k + 1]) == WeightJoints(order[..k]) + JointsOf(order[k].weights);
        k := k + 1;
      }
      assert order[..|order|] == order;
      FirstsSpec(WeightJoints(order), skip);
      ClearFlags(tab, joints);
      skinBones := joints;
    }

    lemma JointOfWeight(order: seq<VertKey>, k: int, i: int)
      requires 0 <= k < |order| && 0 <= i < |order[k].weights|
      ensures order[k].weights[i].joint in WeightJoints(order)
    {
      WeightJointsMembers(order);
      assert order[k] in order && order[k].weights[i] in order[k].weights;
    }
  }

  class MaxEggImporter {
    var meshTab: map<nat, MaxEggMesh>
    var jointTab: map<JointRef, MaxEggJoint>
    var texTab: map<string, TexRec>
    var nextTex: int

    /** Every texture record sits under its own path, and the ids are dense. */
    ghost predicate TexValid()
      reads this`texTab, this`nextTex
    {
      (forall p :: p in texTab ==> texTab[p].path == p) && Interned(TexIds(texTab), nextTex)
    }

    /** Every joint record sits under its own egg joint, so no two keys share a record. */
    ghost predicate JointsValid()
      reads this`jointTab
    {
      forall g :: g in jointTab ==> jointTab[g].eggJoint == g
    }

    /** Every mesh belongs to this importer. */
    ghost predicate MeshesValid()
      reads this`meshTab
    {
      forall p :: p in meshTab ==> meshTab[p].importer == this
    }

    ghost predicate Valid()
      reads this
    {
      TexValid() && JointsValid() && MeshesValid()
    }

    /** An importer before its first traversal; TraverseEggData starts `_next_tex` at 0 (maxEggImport.cxx:764). */
    constructor()
      ensures meshTab == map[] && jointTab == map[] && texTab == map[] && nextTex == 0
      ensures Valid()
    {
      meshTab, jointTab, texTab, nextTex := map[], map[], map[], 0;
    }

    /** GetTex: the record of a known path, or a new record with the next id. */
    method GetTex(fn: string) returns (r: TexRec)
      requires TexValid()
      modifies this`texTab, this`nextTex
      ensures TexValid()
      ensures fn in texTab && r == texTab[fn] && r.path == fn && r.id < nextTex
      ensures fn in old(texTab) ==> texTab == old(texTab) && nextTex == old(nextTex)
      ensures fn !in old(texTab) ==>
                r.id == old(nextTex) && nextTex == old(nextTex) + 1 && texTab == old(texTab)[fn := r]
    {
      if fn in texTab {
        assert TexIds(texTab)[fn] == texTab[fn].id;
        return texTab[fn];
      }
      r := TexRec(fn, nextTex);
      InternedInsert(TexIds(texTab), nextTex, fn);
      assert TexIds(texTab[fn := r]) == TexIds(texTab)[fn := nextTex];
      nextTex := nextTex + 1;
      texTab := texTab[fn := r];
    }

    /**
     * MakeJoint's bookkeeping: a new joint record with its flag clear, whose
     * parent is the context joint's record (none when there is no context or
     * FindJoint finds none), entered under the egg joint.
     */
    method MakeJoint(joint: JointRef, context: Option<JointRef>) returns (r: MaxEggJoint)
      requires JointsValid()
      modifies this`jointTab
      ensures JointsValid()
      ensures fresh(r) && r.eggJoint == joint && !r.inSkin
      ensures r.parent == if context.Some? && context.value in old(jointTab) then Some(old(jointTab)[context.value]) else None
      ensures jointTab == old(jointTab)[joint := r]
    {
      var parent := if context.Some? && context.value in jointTab then Some(jointTab[context.value]) else None;
      r := new MaxEggJoint(joint, parent);
      jointTab := jointTab[joint := r];
    }

    /**
     * GetMesh: the pool's mesh, made on first use with the pool's name less a
     * trailing ".verts" and every count at 0.
     */
    method GetMesh(pool: Pool) returns (mesh: MaxEggMesh)
      requires MeshesValid()
      modifies this`meshTab
      ensures MeshesValid()
      ensures pool.id in meshTab && mesh == meshTab[pool.id] && mesh.importer == this
      ensures pool.id in old(meshTab) ==> meshTab == old(meshTab)
      ensures pool.id !in old(meshTab) ==>
                fresh(mesh) && meshTab == old(meshTab)[pool.id := mesh] && mesh.name == StripVerts(pool.name) &&
                mesh.vertCount == 0 && mesh.tvertCount == 0 && mesh.cvertCount == 0 && mesh.faceCount == 0 &&
                mesh.vertTab == map[] && mesh.tvertTab == map[] && mesh.cvertTab == map[] &&
                mesh.faces == [] && mesh.skinBones == [] && mesh.Valid()
    {
      if pool.id in meshTab {
        return meshTab[pool.id];
      }
      mesh := new MaxEggMesh(this, StripVerts(pool.name));
      meshTab := meshTab[pool.id := mesh];
    }

    /**
     * The polygon branch of TraverseEggNode (maxEggImport.cxx:705-737): the
     * texture's record (the empty path for an untextured polygon), the pool's
     * mesh, the three indices of every corner in order, and the fan of faces
     * over them.  The fan loop's bound is taken as a signed difference, so an
     * empty polygon adds no face.
     */
    method ImportPolygon(pool: Pool, vertices: seq<EggVertex>, texture: Option<string>, context: Option<JointRef>)
      returns (mesh: MaxEggMesh, vi: seq<int>, ti: seq<int>, ci: seq<int>)
      requires TexValid() && MeshesValid()
      requires pool.id in meshTab ==> meshTab[pool.id].Valid()
      modifies this`texTab, this`nextTex, this`meshTab
      modifies if pool.id in meshTab then {meshTab[pool.id]} else {}
      ensures TexValid() && MeshesValid() && mesh.Valid()
      ensures pool.id in meshTab && mesh == meshTab[pool.id]
      ensures mesh.Indexes(vertices, context, vi, ti, ci)
      ensures var path := if texture.Some? then texture.value else "";
              path in texTab &&
              mesh.faces == old(if pool.id in meshTab then meshTab[pool.id].faces else []) +
                            FanFaces(vi, ti, ci, texTab[path].id)
    {
      var tex := GetTex(if texture.Some? then texture.value else "");
      mesh := GetMesh(pool);
      vi, ti, ci := mesh.AddPolygon(vertices, context, tex.id);
    }
  }
}
