/**
 * The packed records of the `.model` file (`AssetLoader.h`) as the writer in `Model.cpp`
 * lays them out: a header, then per object its record, then per part its record
 * followed directly by the part's vertices.
 */
module ModelFormat {
  import opened Common

  /** `sizeof(float)`. */
  const FLOAT_SIZE: nat := 4
  /** `sizeof(uint32_t)`. */
  const U32_SIZE: nat := 4
  /** `sizeof(wchar_t)` on Windows. */
  const WCHAR_SIZE: nat := 2

  /** `ModelVertex` under `pack(4)`: a position and a normal of three floats, a tex coord of two. */
  const VERTEX_SIZE: nat := (3 + 3 + 2) * FLOAT_SIZE
  /** `ModelHeader` under `pack(1)`: signature and object count. */
  const HEADER_SIZE: nat := 2 * U32_SIZE
  /** The capacity of `ModelObject::Name`. */
  const NAME_CAPACITY: nat := 128
  /** `ModelObject` under `pack(1)`: the name buffer and the part count. */
  const OBJECT_SIZE: nat := NAME_CAPACITY + U32_SIZE
  /** The capacity of `ModelPart::DiffuseTexture`, in wide characters. */
  const PATH_CAPACITY: nat := 256
  /** `ModelPart` under `pack(1)`: the wide texture path buffer and the vertex count. */
  const PART_SIZE: nat := PATH_CAPACITY * WCHAR_SIZE + U32_SIZE

  /** `ModelHeader::ExpectedSignature`, the MSVC multi-character constant `'MODL'`. */
  const EXPECTED_SIGNATURE: nat := 'M' as nat * 0x100_0000 + 'O' as nat * 0x1_0000 + 'D' as nat * 0x100 + 'L' as nat

  lemma RecordSizes()
    ensures VERTEX_SIZE == 32 && HEADER_SIZE == 8 && OBJECT_SIZE == 132 && PART_SIZE == 516
    ensures EXPECTED_SIGNATURE == 0x4D4F444C && IsU32(EXPECTED_SIGNATURE)
  {
  }

  /**
   * Where a written vertex's normal comes from: nothing (zero), the source normal list,
   * or the flat normal of the triangle of the three given positions.
   */
  datatype VertexNormal = NoNormal | SourceNormal(Index: nat) | FlatNormal(A: nat, B: nat, C: nat)

  /**
   * A `ModelVertex`, by the source elements it copies: its position, its normal and
   * its tex coord (`None`: left zero). The float payloads are not modelled.
   */
  datatype ModelVertex = ModelVertex(Position: nat, Normal: VertexNormal, TexCoord: Option<nat>)

  datatype ModelHeader = ModelHeader(Signature: nat, NumObjects: nat)

  /** The records after the header, in the order they are written. */
  datatype BodyRecord =
    | ObjectRecord(Name: seq<char>, NumParts: nat)
    | PartRecord(DiffuseTexture: seq<char>, NumVertices: nat)
    | VertexBlock(Vertices: seq<ModelVertex>)

  function RecordSize(r: BodyRecord): (n: nat)
    ensures r.ObjectRecord? ==> n == 132
    ensures r.PartRecord? ==> n == 516
    ensures r.VertexBlock? ==> n == 32 * |r.Vertices|
  {
    match r
    case ObjectRecord(_, _) => OBJECT_SIZE
    case PartRecord(_, _) => PART_SIZE
    case VertexBlock(vs) => VERTEX_SIZE * |vs|
  }

  /** The byte length of a run of records. */
  function BodySize(rs: seq<BodyRecord>): nat
  {
    if rs == [] then 0 else RecordSize(rs[0]) + BodySize(rs[1..])
  }

  lemma {:induction false} BodySizeAppend(a: seq<BodyRecord>, b: seq<BodyRecord>)
    ensures BodySize(a + b) == BodySize(a) + BodySize(b)
    decreases |a|
  {
    if a == [] {
      assert a + b == b;
    } else {
      assert (a + b)[1..] == a[1..] + b;
      BodySizeAppend(a[1..], b);
    }
  }
}
