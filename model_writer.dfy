/**
 * The `.model` writer of `Model.cpp`: `FindDiffuseTexture` and `SaveModel`.
 *
 * `Model.cpp` reads each part through `PositionIndices`, `NormalIndices` and
 * `TextureIndices`, a shape of `ObjModelPart` other than the one `ObjModel.h` declares;
 * the writer therefore takes its own input, `WriterModel`, with exactly the fields it
 * uses. Vertices are described by the source elements they copy (`ModelVertex`).
 */
module ModelWriter {
  import opened Common
  import opened Crt
  import opened ObjScene
  import opened AssetTypes
  import opened ModelFormat
  import opened FileSystem

  datatype WriterPart = WriterPart(
    Material: string,
    PositionIndices: seq<nat>,
    NormalIndices: seq<nat>,
    TextureIndices: seq<nat>)

  datatype WriterObject = WriterObject(Name: string, Parts: seq<WriterPart>)

  /** The parsed model as `SaveModel` reads it; the element arrays only by their lengths. */
  datatype WriterModel = WriterModel(
    Materials: seq<ObjMaterial>,
    Objects: seq<WriterObject>,
    NumPositions: nat,
    NumNormals: nat,
    NumTexCoords: nat)

  /**
   * What `BuildAsset` does for a texture: for each asset it can build, the string it leaves
   * in its output argument; an asset missing from the map is one it fails to build.
   */
  type TextureBuilds = map<SourceAsset, seq<char>>

  // ---------------------------------------------------------------- FindDiffuseTexture

  /** The diffuse map of the first material named `name`; empty if it has none or there is none. */
  function DiffuseTextureOf(materials: seq<ObjMaterial>, name: string): string
  {
    if materials == [] then []
    else if materials[0].Name == name then
      if Diffuse in materials[0].TextureMaps then materials[0].TextureMaps[Diffuse] else []
    else DiffuseTextureOf(materials[1..], name)
  }

  /** `FindDiffuseTexture`: a forward search that stops at the first material with the name. */
  method FindDiffuseTexture(materials: seq<ObjMaterial>, name: string) returns (texture: string)
    ensures texture == DiffuseTextureOf(materials, name)
  {
    texture := [];
    var i := 0;
    while i < |materials|
      invariant 0 <= i <= |materials|
      invariant texture == []
      invariant DiffuseTextureOf(materials, name) == DiffuseTextureOf(materials[i..], name)
    {
      if materials[i].Name == name {
        if Diffuse in materials[i].TextureMaps {
          texture := materials[i].TextureMaps[Diffuse];
        }
        break;
      }
      assert materials[i..][1..] == materials[i + 1..];
      i := i + 1;
    }
  }

  /**
   * The lookup decided by the first name match alone: its diffuse map when it has one,
   * empty otherwise, even if a later material of the same name has one; empty when no
   * material has the name.
   */
  lemma {:induction false} DiffuseTextureFirstMatch(materials: seq<ObjMaterial>, name: string, k: nat)
    requires k <= |materials|
    requires forall j :: 0 <= j < k ==> materials[j].Name != name
    ensures k == |materials| ==> DiffuseTextureOf(materials, name) == []
    ensures k < |materials| && materials[k].Name == name ==>
      DiffuseTextureOf(materials, name) ==
        if Diffuse in materials[k].TextureMaps then materials[k].TextureMaps[Diffuse] else []
    decreases k
  {
    if k > 0 {
      DiffuseTextureFirstMatch(materials[1..], name, k - 1);
    }
  }

  // ---------------------------------------------------------------- vertices of a part

  /** Vertex `i` as the first loop makes it: a normal and a tex coord only where the lists reach. */
  function BaseVertex(p: WriterPart, i: nat): ModelVertex
    requires i < |p.PositionIndices|
  {
    ModelVertex(
      p.PositionIndices[i],
      if |p.NormalIndices| > 0 && i < |p.NormalIndices| then SourceNormal(p.NormalIndices[i]) else NoNormal,
      if |p.TextureIndices| > 0 && i < |p.TextureIndices| then Some(p.TextureIndices[i]) else None)
  }

  /** The first vertex of the triple `j` belongs to. */
  function TripleStart(j: nat): nat { j - j % 3 }

  /** Vertex `j` with the flat normal of the positions of its triple. */
  function FlatVertex(vs: seq<ModelVertex>, j: nat): ModelVertex
    requires j < |vs| && TripleStart(j) + 2 < |vs|
  {
    var b := TripleStart(j);
    vs[j].(Normal := FlatNormal(vs[b].Position, vs[b + 1].Position, vs[b + 2].Position))
  }

  /**
   * The vertices after the flat-normal pass: the triples starting at 0, 3, ... below
   * `|vs| - 3` get the normal of their three positions; the rest stay as they are.
   */
  function Flattened(vs: seq<ModelVertex>): (r: seq<ModelVertex>)
    ensures |r| == |vs|
  {
    seq(|vs|, j requires 0 <= j < |vs| => if TripleStart(j) < |vs| - 3 then FlatVertex(vs, j) else vs[j])
  }

  /** Vertex `i` reads only elements that exist (indexing past a vector is undefined). */
  predicate VertexInRange(m: WriterModel, p: WriterPart, i: nat)
    requires i < |p.PositionIndices|
  {
    p.PositionIndices[i] < m.NumPositions
    && (i < |p.NormalIndices| ==> p.NormalIndices[i] < m.NumNormals)
    && (i < |p.TextureIndices| ==> p.TextureIndices[i] < m.NumTexCoords)
  }

  /** The vector after the first `n` rounds of the first loop. */
  function BaseVerticesUpTo(m: WriterModel, p: WriterPart, n: nat): Outcome<seq<ModelVertex>>
    requires n <= |p.PositionIndices|
  {
    if n == 0 then Defined([])
    else match BaseVerticesUpTo(m, p, n - 1)
      case Undefined => Undefined
      case Defined(vs) => if VertexInRange(m, p, n - 1) then Defined(vs + [BaseVertex(p, n - 1)]) else Undefined
  }

  /** The vertices `SaveModel` writes for a part. */
  function PartVertices(m: WriterModel, p: WriterPart): Outcome<seq<ModelVertex>>
  {
    match BaseVerticesUpTo(m, p, |p.PositionIndices|)
    case Undefined => Undefined
    case Defined(base) => Defined(if |p.NormalIndices| == 0 then Flattened(base) else base)
  }

  /** The first loop is defined exactly when every element it reads exists, and yields one vertex per position index. */
  lemma {:induction false} BaseVerticesUpToContents(m: WriterModel, p: WriterPart, n: nat)
    requires n <= |p.PositionIndices|
    ensures BaseVerticesUpTo(m, p, n).Defined? <==> forall k :: 0 <= k < n ==> VertexInRange(m, p, k)
    ensures BaseVerticesUpTo(m, p, n).Defined? ==>
      var vs := BaseVerticesUpTo(m, p, n).value;
      |vs| == n && forall k :: 0 <= k < n ==> vs[k] == BaseVertex(p, k)
  {
    if n > 0 {
      BaseVerticesUpToContents(m, p, n - 1);
    }
  }

  /** The first loop of a part: one vertex per position index, in order. */
  method BaseVertices(m: WriterModel, p: WriterPart) returns (r: Outcome<seq<ModelVertex>>)
    ensures r == BaseVerticesUpTo(m, p, |p.PositionIndices|)
  {
    var vertices: seq<ModelVertex> := [];
    var i := 0;
    while i < |p.PositionIndices|
      invariant 0 <= i <= |p.PositionIndices|
      invariant BaseVerticesUpTo(m, p, i) == Defined(vertices)
    {
      if p.PositionIndices[i] >= m.NumPositions
        || (i < |p.NormalIndices| && p.NormalIndices[i] >= m.NumNormals)
        || (i < |p.TextureIndices| && p.TextureIndices[i] >= m.NumTexCoords)
      {
        BaseVerticesUndefined(m, p, i + 1, |p.PositionIndices|);
        return Undefined;
      }
      vertices := vertices + [BaseVertex(p, i)];
      i := i + 1;
    }
    r := Defined(vertices);
  }

  lemma {:induction false} BaseVerticesUndefined(m: WriterModel, p: WriterPart, i: nat, n: nat)
    requires i <= n <= |p.PositionIndices| && BaseVerticesUpTo(m, p, i).Undefined?
    ensures BaseVerticesUpTo(m, p, n).Undefined?
    decreases n - i
  {
    if i < n {
      BaseVerticesUndefined(m, p, i + 1, n);
    }
  }

  /** The flat-normal pass, patching the normals of each triple in place. */
  method FlattenNormals(vs: seq<ModelVertex>) returns (r: seq<ModelVertex>)
    ensures r == Flattened(vs)
  {
    r := vs;
    var i := 0;
    ghost var t: nat := 0;
    while i < |r| - 3
      invariant i == 3 * t && |r| == |vs|
      invariant i > 0 ==> i - 3 < |vs| - 3
      invariant forall j :: 0 <= j < |vs| ==> r[j] == if j < i then Flattened(vs)[j] else vs[j]
    {
      assert r[i] == vs[i] && r[i + 1] == vs[i + 1] && r[i + 2] == vs[i + 2];
      var n := FlatNormal(r[i].Position, r[i + 1].Position, r[i + 2].Position);
      r := r[i := r[i].(Normal := n)][i + 1 := r[i + 1].(Normal := n)][i + 2 := r[i + 2].(Normal := n)];
      forall j | 0 <= j < |vs|
        ensures r[j] == if j < i + 3 then Flattened(vs)[j] else vs[j]
      {
        if i <= j < i + 3 {
          TripleStarts(t);
          assert TripleStart(j) == i;
          assert Flattened(vs)[j] == FlatVertex(vs, j);
        }
      }
      i, t := i + 3, t + 1;
    }
    forall j | 0 <= j < |vs|
      ensures r[j] == Flattened(vs)[j]
    {
      TripleStartBelow(j, t);
      if i <= j {
        assert !(TripleStart(j) < |vs| - 3);
      }
    }
  }

  lemma TripleStarts(t: nat)
    ensures TripleStart(3 * t) == 3 * t && TripleStart(3 * t + 1) == 3 * t && TripleStart(3 * t + 2) == 3 * t
  {
  }

  lemma TripleStartBelow(j: nat, t: nat)
    ensures j < 3 * t <==> TripleStart(j) < 3 * t
    ensures TripleStart(j) < 3 * t ==> TripleStart(j) + 3 <= 3 * t
  {
  }

  /** Both passes over a part: the vertex vector `SaveModel` writes. */
  method BuildVertices(m: WriterModel, p: WriterPart) returns (r: Outcome<seq<ModelVertex>>)
    ensures r == PartVertices(m, p)
  {
    r := BaseVertices(m, p);
    if r.Defined? && |p.NormalIndices| == 0 {
      var vs := FlattenNormals(r.value);
      r := Defined(vs);
    }
  }

  /**
   * Vertex `i` of `n` as written: its position index; the source normal or tex coord only
   * when that list is non-empty and reaches it; and, when the part has no normals, the flat
   * normal of its triple exactly for the triples starting below `n - 3`.
   */
  predicate WrittenAs(p: WriterPart, n: nat, i: nat, v: ModelVertex)
    requires i < n == |p.PositionIndices|
  {
    var ps := p.PositionIndices;
    var b := TripleStart(i);
    v.Position == ps[i]
    && v.TexCoord == (if i < |p.TextureIndices| then Some(p.TextureIndices[i]) else None)
    && (|p.NormalIndices| > 0 ==>
          v.Normal == if i < |p.NormalIndices| then SourceNormal(p.NormalIndices[i]) else NoNormal)
    && (|p.NormalIndices| == 0 ==>
          v.Normal == if b < n - 3 then FlatNormal(ps[b], ps[b + 1], ps[b + 2]) else NoNormal)
  }

  /** The vertices are defined exactly when every element they read exists, and are one per position index. */
  lemma PartVerticesContents(m: WriterModel, p: WriterPart)
    ensures PartVertices(m, p).Defined? <==> forall k :: 0 <= k < |p.PositionIndices| ==> VertexInRange(m, p, k)
    ensures PartVertices(m, p).Defined? ==>
      var vs := PartVertices(m, p).value;
      |vs| == |p.PositionIndices| && forall i :: 0 <= i < |vs| ==> WrittenAs(p, |vs|, i, vs[i])
  {
    BaseVerticesUpToContents(m, p, |p.PositionIndices|);
    if PartVertices(m, p).Defined? {
      var base := BaseVerticesUpTo(m, p, |p.PositionIndices|).value;
      var vs := PartVertices(m, p).value;
      forall i | 0 <= i < |vs|
        ensures WrittenAs(p, |vs|, i, vs[i])
      {
        var b := TripleStart(i);
        if |p.NormalIndices| == 0 && b < |vs| - 3 {
          assert vs[i] == FlatVertex(base, i);
          assert base[b] == BaseVertex(p, b) && base[b + 1] == BaseVertex(p, b + 1) && base[b + 2] == BaseVertex(p, b + 2);
        }
      }
    }
  }

  /** The last triple of a part without normals, and so any part of three vertices, keeps no normal. */
  lemma LastTripleUnflattened(m: WriterModel, p: WriterPart)
    requires PartVertices(m, p).Defined? && |p.NormalIndices| == 0
    requires |p.PositionIndices| >= 3 && |p.PositionIndices| % 3 == 0
    ensures var vs := PartVertices(m, p).value;
      forall i :: 0 <= i < |vs| && |vs| - 3 <= i ==> vs[i].Normal == NoNormal
  {
    var vs := PartVertices(m, p).value;
    PartVerticesContents(m, p);
    var n := |vs|;
    forall i | 0 <= i < n && n - 3 <= i
      ensures vs[i].Normal == NoNormal
    {
      assert WrittenAs(p, n, i, vs[i]);
      LastTripleStart(n, i);
    }
  }

  /** In a length that is a multiple of 3, the last three vertices form the last triple. */
  lemma LastTripleStart(n: nat, i: nat)
    requires n >= 3 && n % 3 == 0 && n - 3 <= i < n
    ensures TripleStart(i) == n - 3
  {
    var q := n / 3;
    assert n == 3 * q;
    assert i == 3 * (q - 1) + (i - (n - 3));
  }

  // ---------------------------------------------------------------- records

  /** The part of a vertex block `WriteFile` writes: its byte count is a 32-bit `DWORD`. */
  function WrittenVertices(vs: seq<ModelVertex>): seq<ModelVertex>
  {
    vs[..|vs| % (U32_LIMIT / VERTEX_SIZE)]
  }

  /**
   * The block written holds `(32 · n) mod 2^32` bytes of the `n` vertices: all of them
   * when there are fewer than 2^27.
   */
  lemma WrittenVerticesSize(vs: seq<ModelVertex>)
    ensures VERTEX_SIZE * |WrittenVertices(vs)| == (VERTEX_SIZE * |vs|) % U32_LIMIT
    ensures |vs| < U32_LIMIT / VERTEX_SIZE ==> WrittenVertices(vs) == vs
  {
    var q := |vs| / (U32_LIMIT / VERTEX_SIZE);
    assert |vs| == q * (U32_LIMIT / VERTEX_SIZE) + |vs| % (U32_LIMIT / VERTEX_SIZE);
    assert VERTEX_SIZE * |vs| == q * U32_LIMIT + VERTEX_SIZE * (|vs| % (U32_LIMIT / VERTEX_SIZE));
  }

  /**
   * What writing one piece of the file comes to: undefined, or whether it was written in
   * full together with the records it added before it stopped.
   */
  type Written = Outcome<(bool, seq<BodyRecord>)>

  /**
   * One part: `BuildAsset` for its diffuse texture when it has one (a failure writes
   * nothing of the part), then its `ModelPart` and its vertices.
   */
  function PartRecordsOf(m: WriterModel, p: WriterPart, builds: TextureBuilds): Written
  {
    var diffuse := DiffuseTextureOf(m.Materials, p.Material);
    var asset := SourceAssetOf(Texture, diffuse);
    if diffuse != [] && asset !in builds then Defined((false, []))
    else
      var texture := if diffuse != [] then builds[asset] else diffuse;
      match StrCpyS(texture, PATH_CAPACITY)
      case None => Undefined
      case Some(copied) =>
        match PartVertices(m, p)
        case Undefined => Undefined
        case Defined(vs) =>
          Defined((true, [PartRecord(copied, ToU32(|p.PositionIndices|)), VertexBlock(WrittenVertices(vs))]))
  }

  /**
   * The first `n` pieces written one after the other: the first that fails ends the run
   * with what was written so far, and one that is undefined makes the run undefined.
   */
  function Run(outs: seq<Written>, n: nat): Written
    requires n <= |outs|
  {
    if n == 0 then Defined((true, []))
    else match Run(outs, n - 1)
      case Undefined => Undefined
      case Defined((ok, rs)) =>
        if !ok then Defined((false, rs))
        else match outs[n - 1]
          case Undefined => Undefined
          case Defined((last, more)) => Defined((last, rs + more))
  }

  /** One more piece after a run written in full. */
  lemma RunStep(outs: seq<Written>, i: nat, written: seq<BodyRecord>)
    requires i < |outs| && Run(outs, i) == Defined((true, written)) && outs[i].Defined?
    ensures Run(outs, i + 1) == Defined((outs[i].value.0, written + outs[i].value.1))
  {
  }

  /** A run written in full is the run before its last piece, also in full, and that piece, in full. */
  lemma RunLast(outs: seq<Written>, n: nat)
    requires 0 < n <= |outs| && Run(outs, n).Defined? && Run(outs, n).value.0
    ensures Run(outs, n - 1).Defined? && Run(outs, n - 1).value.0
    ensures outs[n - 1].Defined? && outs[n - 1].value.0
    ensures Run(outs, n).value.1 == Run(outs, n - 1).value.1 + outs[n - 1].value.1
  {
  }

  /** Once a run is undefined it stays undefined. */
  lemma {:induction false} RunUndefined(outs: seq<Written>, i: nat, n: nat)
    requires i <= n <= |outs| && Run(outs, i).Undefined?
    ensures Run(outs, n).Undefined?
    decreases n - i
  {
    if i < n {
      RunUndefined(outs, i + 1, n);
    }
  }

  /** Once a run has failed, later pieces add nothing. */
  lemma {:induction false} RunStops(outs: seq<Written>, i: nat, n: nat)
    requires i <= n <= |outs| && Run(outs, i).Defined? && !Run(outs, i).value.0
    ensures Run(outs, n) == Run(outs, i)
    decreases n - i
  {
    if i < n {
      RunStops(outs, i + 1, n);
    }
  }

  function PartOutcomes(m: WriterModel, parts: seq<WriterPart>, builds: TextureBuilds): (outs: seq<Written>)
    ensures |outs| == |parts|
  {
    seq(|parts|, k requires 0 <= k < |parts| => PartRecordsOf(m, parts[k], builds))
  }


  /** `outs` holds what each of the parts comes to. */
  predicate PartsPlanned(m: WriterModel, parts: seq<WriterPart>, builds: TextureBuilds, outs: seq<Written>)
  {
    |outs| == |parts|
    && forall k {:trigger PartRecordsOf(m, parts[k], builds)} ::
      0 <= k < |parts| ==> outs[k] == PartRecordsOf(m, parts[k], builds)
  }

  /** One object: its `ModelObject` (the name must fit its buffer), then its parts in order. */
  function ObjectRecordsOf(m: WriterModel, o: WriterObject, builds: TextureBuilds): Written
  {
    match StrCpyS(o.Name, NAME_CAPACITY)
    case None => Undefined
    case Some(name) =>
      match Run(PartOutcomes(m, o.Parts, builds), |o.Parts|)
      case Undefined => Undefined
      case Defined((ok, prs)) => Defined((ok, [ObjectRecord(name, ToU32(|o.Parts|))] + prs))
  }

  function ObjectOutcomes(m: WriterModel, builds: TextureBuilds): (outs: seq<Written>)
    ensures |outs| == |m.Objects|
  {
    seq(|m.Objects|, k requires 0 <= k < |m.Objects| => ObjectRecordsOf(m, m.Objects[k], builds))
  }


  /** `outs` holds what each of the objects comes to. */
  predicate ObjectsPlanned(m: WriterModel, builds: TextureBuilds, outs: seq<Written>)
  {
    |outs| == |m.Objects|
    && forall k {:trigger ObjectRecordsOf(m, m.Objects[k], builds)} ::
      0 <= k < |m.Objects| ==> outs[k] == ObjectRecordsOf(m, m.Objects[k], builds)
  }

  function Header(m: WriterModel): ModelHeader
  {
    ModelHeader(EXPECTED_SIGNATURE, ToU32(|m.Objects|))
  }

  /**
   * `SaveModel`: whether it returns true and the file system afterwards. An output that
   * cannot be created changes nothing; otherwise the file holds the header and the records
   * written before the first failure, stamped with the time of writing.
   */
  function SaveSpec(nodes: Nodes, now: FileTime, m: WriterModel, out: seq<char>, builds: TextureBuilds): Outcome<(bool, Nodes)>
  {
    if !CanCreate(nodes, out) then Defined((false, nodes))
    else match Run(ObjectOutcomes(m, builds), |m.Objects|)
      case Undefined => Undefined
      case Defined((ok, rs)) => Defined((ok, nodes[out := File(ModelFile(Header(m), rs), now)]))
  }

  /** Writes one part: the build of its diffuse texture, its record, then its vertices. */
  method WritePart(fs: FileSystem, m: WriterModel, p: WriterPart, out: seq<char>, builds: TextureBuilds,
                   ghost h: ModelHeader, ghost body: seq<BodyRecord>)
    returns (r: Outcome<bool>)
    requires out in fs.Nodes && fs.Nodes[out] == File(ModelFile(h, body), fs.Now)
    modifies fs
    ensures r.Defined? <==> PartRecordsOf(m, p, builds).Defined?
    ensures r.Defined? ==> r.value == PartRecordsOf(m, p, builds).value.0
    ensures r.Defined? ==> fs.Nodes == old(fs.Nodes)[out := File(ModelFile(h, body + PartRecordsOf(m, p, builds).value.1), fs.Now)]
  {
    var diffuse := FindDiffuseTexture(m.Materials, p.Material);
    var texture := diffuse;
    if diffuse != [] {
      var asset := NewSourceAsset(Texture, diffuse);
      if asset !in builds {
        assert body + [] == body;
        return Defined(false);
      }
      texture := builds[asset];
    }
    var copied := StrCpyS(texture, PATH_CAPACITY);
    if copied.None? {
      return Undefined;
    }
    var record := PartRecord(copied.value, ToU32(|p.PositionIndices|));
    fs.AppendRecord(out, record);
    var vertices := BuildVertices(m, p);
    if vertices.Undefined? {
      return Undefined;
    }
    fs.AppendRecord(out, VertexBlock(WrittenVertices(vertices.value)));
    assert body + [record] + [VertexBlock(WrittenVertices(vertices.value))] == body + PartRecordsOf(m, p, builds).value.1;
    r := Defined(true);
  }

  /** Writes the parts of an object in order, stopping at the first that fails. */
  method WriteParts(fs: FileSystem, m: WriterModel, parts: seq<WriterPart>, out: seq<char>, builds: TextureBuilds,
                    ghost h: ModelHeader, ghost body: seq<BodyRecord>, ghost outs: seq<Written>)
    returns (r: Outcome<bool>)
    requires PartsPlanned(m, parts, builds, outs)
    requires out in fs.Nodes && fs.Nodes[out] == File(ModelFile(h, body), fs.Now)
    modifies fs
    ensures r.Defined? <==> Run(outs, |parts|).Defined?
    ensures r.Defined? ==> r.value == Run(outs, |parts|).value.0
    ensures r.Defined? ==> fs.Nodes == old(fs.Nodes)[out := File(ModelFile(h, body + Run(outs, |parts|).value.1), fs.Now)]
  {
    var i := 0;
    ghost var written: seq<BodyRecord> := [];
    assert body + written == body;
    while i < |parts|
      invariant 0 <= i <= |parts|
      invariant Run(outs, i) == Defined((true, written))
      invariant fs.Nodes == old(fs.Nodes)[out := File(ModelFile(h, body + written), fs.Now)]
    {
      var ok := WritePart(fs, m, parts[i], out, builds, h, body + written);
      if ok.Undefined? {
        RunUndefined(outs, i + 1, |parts|);
        return Undefined;
      }
      RunStep(outs, i, written);
      assert body + written + outs[i].value.1 == body + (written + outs[i].value.1);
      written := written + outs[i].value.1;
      if !ok.value {
        RunStops(outs, i + 1, |parts|);
        return Defined(false);
      }
      i := i + 1;
    }
    r := Defined(true);
  }

  /** Writes one object: its record, then its parts. */
  method WriteObject(fs: FileSystem, m: WriterModel, o: WriterObject, out: seq<char>, builds: TextureBuilds,
                     ghost h: ModelHeader, ghost body: seq<BodyRecord>)
    returns (r: Outcome<bool>)
    requires out in fs.Nodes && fs.Nodes[out] == File(ModelFile(h, body), fs.Now)
    modifies fs
    ensures r.Defined? <==> ObjectRecordsOf(m, o, builds).Defined?
    ensures r.Defined? ==> r.value == ObjectRecordsOf(m, o, builds).value.0
    ensures r.Defined? ==> fs.Nodes == old(fs.Nodes)[out := File(ModelFile(h, body + ObjectRecordsOf(m, o, builds).value.1), fs.Now)]
  {
    var name := StrCpyS(o.Name, NAME_CAPACITY);
    if name.None? {
      return Undefined;
    }
    var record := ObjectRecord(name.value, ToU32(|o.Parts|));
    fs.AppendRecord(out, record);
    ghost var outs := PartOutcomes(m, o.Parts, builds);
    r := WriteParts(fs, m, o.Parts, out, builds, h, body + [record], outs);
    if r.Defined? {
      assert body + [record] + Run(outs, |o.Parts|).value.1 == body + ObjectRecordsOf(m, o, builds).value.1;
    }
  }

  /** Writes the objects in order after the header, stopping at the first that fails. */
  method WriteObjects(fs: FileSystem, m: WriterModel, out: seq<char>, builds: TextureBuilds,
                      ghost h: ModelHeader, ghost outs: seq<Written>)
    returns (r: Outcome<bool>)
    requires ObjectsPlanned(m, builds, outs)
    requires out in fs.Nodes && fs.Nodes[out] == File(ModelFile(h, []), fs.Now)
    modifies fs
    ensures r.Defined? <==> Run(outs, |m.Objects|).Defined?
    ensures r.Defined? ==> r.value == Run(outs, |m.Objects|).value.0
    ensures r.Defined? ==> fs.Nodes == old(fs.Nodes)[out := File(ModelFile(h, Run(outs, |m.Objects|).value.1), fs.Now)]
  {
    var i := 0;
    ghost var written: seq<BodyRecord> := [];
    while i < |m.Objects|
      invariant 0 <= i <= |m.Objects|
      invariant Run(outs, i) == Defined((true, written))
      invariant fs.Nodes == old(fs.Nodes)[out := File(ModelFile(h, written), fs.Now)]
    {
      var ok := WriteObject(fs, m, m.Objects[i], out, builds, h, written);
      if ok.Undefined? {
        RunUndefined(outs, i + 1, |m.Objects|);
        return Undefined;
      }
      RunStep(outs, i, written);
      written := written + outs[i].value.1;
      if !ok.value {
        RunStops(outs, i + 1, |m.Objects|);
        return Defined(false);
      }
      i := i + 1;
    }
    r := Defined(true);
  }

  /**
   * `SaveModel`: creates the output, writes the header, then each object in order; the
   * first failure ends it with false, leaving what was written in the file.
   */
  method SaveModel(fs: FileSystem, m: WriterModel, out: seq<char>, builds: TextureBuilds) returns (r: Outcome<bool>)
    modifies fs
    ensures r.Defined? <==> SaveSpec(old(fs.Nodes), fs.Now, m, out, builds).Defined?
    ensures r.Defined? ==> (r.value, fs.Nodes) == SaveSpec(old(fs.Nodes), fs.Now, m, out, builds).value
  {
    var created := fs.CreateEmpty(out);
    if !created {
      return Defined(false);
    }
    var header := ModelHeader(EXPECTED_SIGNATURE, ToU32(|m.Objects|));
    fs.WriteHeader(out, header);
    ghost var outs := ObjectOutcomes(m, builds);
    ghost var started := fs.Nodes;
    r := WriteObjects(fs, m, out, builds, header, outs);
    if r.Defined? {
      assert fs.Nodes == started[out := File(ModelFile(header, Run(outs, |m.Objects|).value.1), fs.Now)];
      assert fs.Nodes == old(fs.Nodes)[out := File(ModelFile(header, Run(outs, |m.Objects|).value.1), fs.Now)];
    }
  }

  // ---------------------------------------------------------------- what a saved file holds

  /** The bytes of the first `n` parts: each its record and 32 bytes per position index. */
  function PartsBytes(parts: seq<WriterPart>, n: nat): nat
    requires n <= |parts|
  {
    if n == 0 then 0 else PartsBytes(parts, n - 1) + PART_SIZE + VERTEX_SIZE * |parts[n - 1].PositionIndices|
  }

  /** The bytes of the first `n` objects: each its record and its parts. */
  function ObjectsBytes(objects: seq<WriterObject>, n: nat): nat
    requires n <= |objects|
  {
    if n == 0 then 0 else ObjectsBytes(objects, n - 1) + OBJECT_SIZE + PartsBytes(objects[n - 1].Parts, |objects[n - 1].Parts|)
  }

  /** No part has so many vertices that the 32-bit byte count of its block wraps. */
  predicate SmallParts(m: WriterModel)
  {
    forall o, p :: o in m.Objects && p in o.Parts ==> |p.PositionIndices| < U32_LIMIT / VERTEX_SIZE
  }

  /**
   * A part written in full is its `ModelPart`, whose vertex count is its number of position
   * indices and whose texture is the copied output of the diffuse build, followed by exactly
   * that many vertices.
   */
  lemma PartRecordsContents(m: WriterModel, p: WriterPart, builds: TextureBuilds)
    requires |p.PositionIndices| < U32_LIMIT / VERTEX_SIZE
    requires PartRecordsOf(m, p, builds).Defined? && PartRecordsOf(m, p, builds).value.0
    ensures var rs := PartRecordsOf(m, p, builds).value.1;
      |rs| == 2 && rs[0].PartRecord? && rs[1].VertexBlock?
      && rs[0].NumVertices == |p.PositionIndices| == |rs[1].Vertices|
      && rs[1].Vertices == PartVertices(m, p).value
      && rs[0].DiffuseTexture == (if DiffuseTextureOf(m.Materials, p.Material) == [] then []
                                  else CStr(builds[SourceAssetOf(Texture, DiffuseTextureOf(m.Materials, p.Material))]))
  {
    var diffuse := DiffuseTextureOf(m.Materials, p.Material);
    StrCpySCopies(if diffuse != [] then builds[SourceAssetOf(Texture, diffuse)] else diffuse, PATH_CAPACITY);
    PartVerticesContents(m, p);
    WrittenVerticesSize(PartVertices(m, p).value);
  }

  lemma {:induction false} PartsSize(m: WriterModel, parts: seq<WriterPart>, outs: seq<Written>, n: nat, builds: TextureBuilds)
    requires n <= |parts| && PartsPlanned(m, parts, builds, outs)
    requires forall p :: p in parts ==> |p.PositionIndices| < U32_LIMIT / VERTEX_SIZE
    requires Run(outs, n).Defined? && Run(outs, n).value.0
    ensures BodySize(Run(outs, n).value.1) == PartsBytes(parts, n)
  {
    if n > 0 {
      RunLast(outs, n);
      PartsSize(m, parts, outs, n - 1, builds);
      assert parts[n - 1] in parts;
      PartBytes(m, parts[n - 1], builds);
      BodySizeAppend(Run(outs, n - 1).value.1, outs[n - 1].value.1);
    }
  }

  /** A part written in full takes its record and 32 bytes per vertex. */
  lemma PartBytes(m: WriterModel, p: WriterPart, builds: TextureBuilds)
    requires |p.PositionIndices| < U32_LIMIT / VERTEX_SIZE
    requires PartRecordsOf(m, p, builds).Defined? && PartRecordsOf(m, p, builds).value.0
    ensures BodySize(PartRecordsOf(m, p, builds).value.1) == PART_SIZE + VERTEX_SIZE * |p.PositionIndices|
  {
    var prs := PartRecordsOf(m, p, builds).value.1;
    PartRecordsContents(m, p, builds);
    assert prs[1..][1..] == [];
    assert BodySize(prs[1..]) == RecordSize(prs[1]) + BodySize(prs[1..][1..]);
  }

  lemma {:induction false} ObjectsSize(m: WriterModel, outs: seq<Written>, n: nat, builds: TextureBuilds)
    requires n <= |m.Objects| && ObjectsPlanned(m, builds, outs) && SmallParts(m)
    requires Run(outs, n).Defined? && Run(outs, n).value.0
    ensures BodySize(Run(outs, n).value.1) == ObjectsBytes(m.Objects, n)
  {
    if n > 0 {
      RunLast(outs, n);
      ObjectsSize(m, outs, n - 1, builds);
      SmallPartsAt(m, n - 1);
      ObjectBytes(m, m.Objects[n - 1], builds);
      BodySizeAppend(Run(outs, n - 1).value.1, outs[n - 1].value.1);
    }
  }

  lemma SmallPartsAt(m: WriterModel, k: nat)
    requires k < |m.Objects| && SmallParts(m)
    ensures forall p :: p in m.Objects[k].Parts ==> |p.PositionIndices| < U32_LIMIT / VERTEX_SIZE
  {
    assert m.Objects[k] in m.Objects;
  }

  /** An object written in full takes its record and its parts' bytes. */
  lemma ObjectBytes(m: WriterModel, o: WriterObject, builds: TextureBuilds)
    requires forall p :: p in o.Parts ==> |p.PositionIndices| < U32_LIMIT / VERTEX_SIZE
    requires ObjectRecordsOf(m, o, builds).Defined? && ObjectRecordsOf(m, o, builds).value.0
    ensures BodySize(ObjectRecordsOf(m, o, builds).value.1) == OBJECT_SIZE + PartsBytes(o.Parts, |o.Parts|)
  {
    var ors := ObjectRecordsOf(m, o, builds).value.1;
    var prs := Run(PartOutcomes(m, o.Parts, builds), |o.Parts|).value.1;
    PartsSize(m, o.Parts, PartOutcomes(m, o.Parts, builds), |o.Parts|, builds);
    assert ors == [ors[0]] + prs;
    BodySizeAppend([ors[0]], prs);
  }

  /**
   * A model saved in full is one file at the output path holding the header with the
   * expected signature and the object count, and its length is
   * 8 + Σ(132 + Σ(516 + 32 · vertices)); nothing else in the file system changes.
   */
  lemma SavedModelLayout(nodes: Nodes, now: FileTime, m: WriterModel, out: seq<char>, builds: TextureBuilds)
    requires SmallParts(m)
    requires SaveSpec(nodes, now, m, out, builds).Defined? && SaveSpec(nodes, now, m, out, builds).value.0
    ensures var after := SaveSpec(nodes, now, m, out, builds).value.1;
      out in after && after[out].File? && after[out].Data.ModelFile?
      && after[out].Data.Header == ModelHeader(EXPECTED_SIGNATURE, ToU32(|m.Objects|))
      && Size(after[out].Data) == HEADER_SIZE + ObjectsBytes(m.Objects, |m.Objects|)
      && forall q :: q != out ==> (q in after <==> q in nodes) && (q in nodes ==> after[q] == nodes[q])
  {
    ObjectsSize(m, ObjectOutcomes(m, builds), |m.Objects|, builds);
  }
}
