/**
 * The data the OBJ/MTL importer builds (`ObjModel.h`), with positions, normals and
 * texture coordinates kept as the source lines they are parsed from and vertices kept
 * as the (position, texcoord, normal) index triple that created them.
 */
module ObjScene {
  import opened Common

  /** `ObjMaterial::TextureType`: seven slots, Ambient = 0. */
  datatype TextureType = Ambient | Diffuse | SpecularColor | SpecularPower | Transparency | Bump | Displacement

  /** Numeric value of a texture slot. */
  function TextureTypeValue(t: TextureType): (v: nat)
    ensures v < 7
  {
    match t
    case Ambient => 0
    case Diffuse => 1
    case SpecularColor => 2
    case SpecularPower => 3
    case Transparency => 4
    case Bump => 5
    case Displacement => 6
  }

  /** The seven texture slots have distinct values 0..6. */
  lemma TextureTypeValuesDistinct(a: TextureType, b: TextureType)
    ensures TextureTypeValue(a) == TextureTypeValue(b) <==> a == b
  {
  }

  /**
   * A material: its name and at most one texture path per slot. The colours and
   * scalar terms are floating point and are not modelled.
   */
  datatype ObjMaterial = ObjMaterial(Name: string, TextureMaps: map<TextureType, string>)

  /** A part names its material (resolved later) and a range of the shared index list. */
  datatype ObjModelPart = ObjModelPart(Material: string, StartIndex: nat, NumIndices: nat)

  datatype ObjModelObject = ObjModelObject(Name: string, Parts: seq<ObjModelPart>)

  /** A face corner: 1-based position, texcoord and normal indices, 0 meaning absent. */
  datatype Corner = Corner(Position: nat, TexCoord: nat, Normal: nat)

  /** Where `currentPart` points: part `Part` of object `Object`. */
  datatype PartRef = PartRef(Object: nat, Part: nat)

  /**
   * The fields of `ObjModel`. `Vertices` holds one corner triple per vertex slot;
   * `IndexMap` is the two-level weld map from `(Position << 32) | TexCoord` to
   * Normal to vertex slot.
   */
  datatype Scene = Scene(
    Vertices: seq<Corner>,
    Indices: seq<nat>,
    Materials: seq<ObjMaterial>,
    Objects: seq<ObjModelObject>,
    Positions: seq<string>,
    Normals: seq<string>,
    TexCoords: seq<string>,
    IndexMap: map<nat, map<nat, nat>>)

  const EmptyScene := Scene([], [], [], [], [], [], [], map[])

  /** The 64-bit key `((uint64_t)Position << 32) | TexCoord`. */
  function PositionTexKey(c: Corner): nat
  {
    c.Position * U32_LIMIT + c.TexCoord
  }

  /** For 32-bit texcoords the key determines both the position and the texcoord. */
  lemma PositionTexKeyInjective(a: Corner, b: Corner)
    requires IsU32(a.TexCoord) && IsU32(b.TexCoord)
    ensures PositionTexKey(a) == PositionTexKey(b) <==> a.Position == b.Position && a.TexCoord == b.TexCoord
  {
  }

  /** The two `find` calls on `IndexMap`. */
  function Lookup(m: map<nat, map<nat, nat>>, c: Corner): (r: Option<nat>)
    ensures r.Some? <==> PositionTexKey(c) in m && c.Normal in m[PositionTexKey(c)]
    ensures r.Some? ==> r.value == m[PositionTexKey(c)][c.Normal]
  {
    var k := PositionTexKey(c);
    if k in m && c.Normal in m[k] then Some(m[k][c.Normal]) else None
  }

  /** Recording slot `slot` for corner `c`, into the existing inner map or a new one. */
  function Record(m: map<nat, map<nat, nat>>, c: Corner, slot: nat): (r: map<nat, map<nat, nat>>)
    ensures Lookup(r, c) == Some(slot)
    ensures r.Keys == m.Keys + {PositionTexKey(c)}
    ensures forall k :: k in m && k != PositionTexKey(c) ==> r[k] == m[k]
    ensures PositionTexKey(c) in m ==> r[PositionTexKey(c)] == m[PositionTexKey(c)][c.Normal := slot]
    ensures PositionTexKey(c) !in m ==> r[PositionTexKey(c)].Keys == {c.Normal}
  {
    var k := PositionTexKey(c);
    var inner: map<nat, nat> := if k in m then m[k] else map[];
    var updated: map<nat, nat> := inner[c.Normal := slot];
    m[k := updated]
  }

  /**
   * The weld invariant: every index names a vertex slot, every slot is found under its own
   * triple, and every map entry names a slot holding exactly that triple.
   */
  ghost predicate WeldInv(s: Scene)
  {
    && (forall i :: 0 <= i < |s.Indices| ==> s.Indices[i] < |s.Vertices|)
    && (forall i :: 0 <= i < |s.Vertices| ==> IsU32(s.Vertices[i].TexCoord))
    && (forall i :: 0 <= i < |s.Vertices| ==> Lookup(s.IndexMap, s.Vertices[i]) == Some(i))
    && (forall k :: k in s.IndexMap ==> forall n :: n in s.IndexMap[k] ==> MapEntryOk(s, k, n))
  }

  ghost predicate MapEntryOk(s: Scene, k: nat, n: nat)
    requires k in s.IndexMap && n in s.IndexMap[k]
  {
    var slot := s.IndexMap[k][n];
    slot < |s.Vertices| && PositionTexKey(s.Vertices[slot]) == k && s.Vertices[slot].Normal == n
  }

  lemma WeldInvEmpty()
    ensures WeldInv(EmptyScene)
  {
  }

  /** Under the weld invariant a lookup finds exactly the slot holding that triple. */
  lemma {:induction false} LookupFindsSlot(s: Scene, c: Corner)
    requires WeldInv(s) && IsU32(c.TexCoord)
    ensures Lookup(s.IndexMap, c).Some? <==> c in s.Vertices
    ensures Lookup(s.IndexMap, c).Some? ==>
      var slot := Lookup(s.IndexMap, c).value;
      slot < |s.Vertices| && s.Vertices[slot] == c
  {
    var k := PositionTexKey(c);
    if Lookup(s.IndexMap, c).Some? {
      assert MapEntryOk(s, k, c.Normal);
      var slot := s.IndexMap[k][c.Normal];
      PositionTexKeyInjective(s.Vertices[slot], c);
    }
    if c in s.Vertices {
      var i :| 0 <= i < |s.Vertices| && s.Vertices[i] == c;
      assert Lookup(s.IndexMap, s.Vertices[i]) == Some(i);
    }
  }

  /** Under the weld invariant no two vertex slots share a triple. */
  lemma {:induction false} WeldInvNoDuplicates(s: Scene)
    requires WeldInv(s)
    ensures NoDuplicates(s.Vertices)
  {
    forall i, j | 0 <= i < j < |s.Vertices|
      ensures s.Vertices[i] != s.Vertices[j]
    {
      assert Lookup(s.IndexMap, s.Vertices[i]) == Some(i);
      assert Lookup(s.IndexMap, s.Vertices[j]) == Some(j);
    }
  }

  /**
   * One corner of a triangle (`ObjModel.cpp`, the body of `for (auto key : indexKeys)`):
   * a triple already in the map pushes its slot; a new one reads `Normals[Normal - 1]`
   * when Normal > 0 and `TexCoords[TexCoord - 1]` when TexCoord > 0, appends a vertex,
   * pushes the new slot and records it.
   */
  function WeldCorner(s: Scene, c: Corner): Outcome<Scene>
  {
    match Lookup(s.IndexMap, c)
    case Some(slot) => Defined(s.(Indices := s.Indices + [slot]))
    case None =>
      if c.Normal > |s.Normals| || c.TexCoord > |s.TexCoords| then Undefined
      else
        var slot := |s.Vertices|;
        Defined(s.(Vertices := s.Vertices + [c], Indices := s.Indices + [slot],
                   IndexMap := Record(s.IndexMap, c, slot)))
  }

  /**
   * Welding a corner keeps the weld invariant. A triple seen earlier adds no vertex and
   * pushes the slot holding it; a new triple appends one vertex and pushes its slot.
   * Nothing but the vertices, indices and map changes.
   */
  lemma {:induction false} WeldCornerSpec(s: Scene, c: Corner)
    requires WeldInv(s) && IsU32(c.TexCoord)
    ensures WeldCorner(s, c).Defined? ==> WeldInv(WeldCorner(s, c).value)
    ensures c in s.Vertices ==> WeldCorner(s, c).Defined?
    ensures c in s.Vertices ==>
      var r := WeldCorner(s, c).value;
      && r.Vertices == s.Vertices
      && |r.Indices| == |s.Indices| + 1 && r.Indices[..|s.Indices|] == s.Indices
      && s.Vertices[r.Indices[|s.Indices|]] == c
    ensures c !in s.Vertices ==>
      (WeldCorner(s, c).Defined? <==> c.Normal <= |s.Normals| && c.TexCoord <= |s.TexCoords|)
    ensures c !in s.Vertices && WeldCorner(s, c).Defined? ==>
      var r := WeldCorner(s, c).value;
      r.Vertices == s.Vertices + [c] && r.Indices == s.Indices + [|s.Vertices|]
    ensures WeldCorner(s, c).Defined? ==>
      WeldCorner(s, c).value.(Vertices := s.Vertices, Indices := s.Indices, IndexMap := s.IndexMap) == s
  {
    LookupFindsSlot(s, c);
    if c !in s.Vertices && WeldCorner(s, c).Defined? {
      var r := WeldCorner(s, c).value;
      var slot := |s.Vertices|;
      var k := PositionTexKey(c);
      forall i | 0 <= i < |r.Vertices|
        ensures Lookup(r.IndexMap, r.Vertices[i]) == Some(i)
      {
        if i < slot {
          var v := s.Vertices[i];
          assert Lookup(s.IndexMap, v) == Some(i);
          if PositionTexKey(v) == k {
            PositionTexKeyInjective(v, c);
            assert v.Normal != c.Normal;
          }
        }
      }
      forall k2 | k2 in r.IndexMap
        ensures forall n :: n in r.IndexMap[k2] ==> MapEntryOk(r, k2, n)
      {
        forall n | n in r.IndexMap[k2]
          ensures MapEntryOk(r, k2, n)
        {
          if k2 != k || (k in s.IndexMap && n != c.Normal && n in s.IndexMap[k]) {
            assert MapEntryOk(s, k2, n);
          }
        }
      }
    }
  }

  /** The parts of all objects, in object order. */
  function AllParts(objects: seq<ObjModelObject>): (r: seq<ObjModelPart>)
  {
    if objects == [] then []
    else AllParts(objects[..|objects| - 1]) + objects[|objects| - 1].Parts
  }

  /**
   * The parts invariant: the parts, in object order, tile the index list from 0 to
   * `|Indices|` with consecutive, non-overlapping ranges.
   */
  ghost predicate PartsTile(parts: seq<ObjModelPart>, indexCount: nat)
  {
    && (parts == [] ==> indexCount == 0)
    && (parts != [] ==> parts[0].StartIndex == 0)
    && (parts != [] ==> parts[|parts| - 1].StartIndex + parts[|parts| - 1].NumIndices == indexCount)
    && (forall k :: 0 <= k < |parts| - 1 ==> parts[k].StartIndex + parts[k].NumIndices == parts[k + 1].StartIndex)
  }

  /** Ranges that tile the index list are pairwise disjoint and in creation order. */
  lemma {:induction false} PartsTileDisjoint(parts: seq<ObjModelPart>, n: nat, i: nat, j: nat)
    requires PartsTile(parts, n)
    requires i < j < |parts|
    ensures parts[i].StartIndex + parts[i].NumIndices <= parts[j].StartIndex
    decreases j - i
  {
    if i + 1 < j {
      PartsTileDisjoint(parts, n, i + 1, j);
    }
  }

  /**
   * Where the cursors may point: `currentObject` is the last object, and `currentPart`,
   * when set, is the last part in object order, held by the object that received it.
   */
  ghost predicate CursorsOk(s: Scene, obj: Option<nat>, part: Option<PartRef>)
  {
    && (obj.Some? <==> s.Objects != [])
    && (obj.Some? ==> obj.value == |s.Objects| - 1)
    && (part.Some? <==> AllParts(s.Objects) != [])
    && (part.Some? ==> LastPartRef(s.Objects, part.value))
  }

  /** `r` points at the last part: everything after its object holds no part. */
  ghost predicate LastPartRef(objects: seq<ObjModelObject>, r: PartRef)
  {
    && r.Object < |objects|
    && r.Part == |objects[r.Object].Parts| - 1
    && (forall o :: r.Object < o < |objects| ==> objects[o].Parts == [])
  }

  /** The part a cursor points at, if it points into the object list. */
  function PartAt(s: Scene, r: PartRef): Option<ObjModelPart>
  {
    if r.Object < |s.Objects| && r.Part < |s.Objects[r.Object].Parts|
    then Some(s.Objects[r.Object].Parts[r.Part]) else None
  }

  /** Objects that hold no part add nothing to `AllParts`. */
  lemma {:induction false} AllPartsOfEmptyTail(objects: seq<ObjModelObject>, o: nat)
    requires o <= |objects|
    requires forall q :: o <= q < |objects| ==> objects[q].Parts == []
    ensures AllParts(objects) == AllParts(objects[..o])
    decreases |objects|
  {
    if |objects| > o {
      var init := objects[..|objects| - 1];
      assert init[..o] == objects[..o];
      AllPartsOfEmptyTail(init, o);
    } else {
      assert objects[..o] == objects;
    }
  }

  /** `AllParts` of a prefix ending at object `o`, inclusive. */
  lemma {:induction false} AllPartsPrefix(objects: seq<ObjModelObject>, o: nat)
    requires o < |objects|
    ensures AllParts(objects[..o + 1]) == AllParts(objects[..o]) + objects[o].Parts
  {
    var pre := objects[..o + 1];
    assert pre[..|pre| - 1] == objects[..o];
  }

  /** Replacing object `o` only changes its parts' place in `AllParts` when later objects are empty. */
  lemma {:induction false} AllPartsReplaceLast(objects: seq<ObjModelObject>, o: nat, x: ObjModelObject)
    requires o < |objects|
    requires forall q :: o < q < |objects| ==> objects[q].Parts == []
    ensures AllParts(objects[o := x]) == AllParts(objects[..o]) + x.Parts
    ensures AllParts(objects) == AllParts(objects[..o]) + objects[o].Parts
  {
    var objs2 := objects[o := x];
    AllPartsOfEmptyTail(objects, o + 1);
    AllPartsOfEmptyTail(objs2, o + 1);
    AllPartsPrefix(objects, o);
    AllPartsPrefix(objs2, o);
    assert objs2[..o] == objects[..o];
  }
}
