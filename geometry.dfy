/**
 * `GeometryPool` (`Geometry.h`, `Geometry.cpp`): one vertex buffer and one index buffer
 * handed out in ranges by a bump allocator with two counters, and the `GeoMesh` that
 * names such a range. The GPU buffers themselves are not modelled; whether the device
 * creates them is given to `Initialize` as a flag per buffer.
 */
module Geometry {
  import opened Common

  /** `VertexType`: one real layout, `Standard` = 0 (`Count` = 1 is only the table size). */
  datatype VertexType = Standard

  const VERTEX_TYPE_COUNT: nat := 1

  function VertexTypeValue(t: VertexType): (v: nat)
    ensures v < VERTEX_TYPE_COUNT
  {
    0
  }

  /** `sizeof(XMFLOAT3)` and `sizeof(XMFLOAT2)`. */
  const FLOAT3_SIZE: nat := 12
  const FLOAT2_SIZE: nat := 8

  /** `StandardVertex`: position, normal, tangent and bitangent, then a tex coord. */
  const STANDARD_VERTEX_SIZE: nat := 4 * FLOAT3_SIZE + FLOAT2_SIZE

  /** The `VertexStride` table: the size of each layout's vertex. */
  function VertexStride(t: VertexType): (stride: nat)
    ensures stride == STANDARD_VERTEX_SIZE == 56
  {
    match t
    case Standard => STANDARD_VERTEX_SIZE
  }

  /** The four counters of a pool, as a value. */
  datatype PoolCounts = PoolCounts(VertexCount: uint32, VertexCapacity: uint32, IndexCount: uint32, IndexCapacity: uint32)

  /** No more is handed out than there is room for. */
  predicate WithinCapacity(c: PoolCounts)
  {
    c.VertexCount <= c.VertexCapacity && c.IndexCount <= c.IndexCapacity
  }

  /** What a call of `ReserveRange` does: refuse, or hand out the range at the old counts. */
  datatype Reservation = Refused | Reserved(BaseVertex: uint32, BaseIndex: uint32, After: PoolCounts)

  /**
   * `ReserveRange` as it is written: the room test adds in `uint32_t`, so a sum that
   * wraps past 2^32 passes it, and the counters wrap too.
   */
  function ReserveAsWritten(c: PoolCounts, vertexCount: uint32, indexCount: uint32): Reservation
  {
    var vertices := ToU32(c.VertexCount + vertexCount);
    var indices := ToU32(c.IndexCount + indexCount);
    if vertices > c.VertexCapacity || indices > c.IndexCapacity then Refused
    else Reserved(c.VertexCount, c.IndexCount, c.(VertexCount := vertices, IndexCount := indices))
  }

  /**
   * `ReserveRange` as intended: the range is handed out exactly when it fits in what is
   * left, comparing without wrap-around.
   */
  function Reserve(c: PoolCounts, vertexCount: uint32, indexCount: uint32): (r: Reservation)
    ensures r.Reserved? <==> c.VertexCount + vertexCount <= c.VertexCapacity && c.IndexCount + indexCount <= c.IndexCapacity
  {
    if c.VertexCount + vertexCount > c.VertexCapacity || c.IndexCount + indexCount > c.IndexCapacity then Refused
    else Reserved(c.VertexCount, c.IndexCount,
                  c.(VertexCount := c.VertexCount + vertexCount, IndexCount := c.IndexCount + indexCount))
  }

  /** When neither sum reaches 2^32, the code as written does what was intended. */
  lemma ReserveAsWrittenWithoutWrap(c: PoolCounts, vertexCount: uint32, indexCount: uint32)
    requires IsU32(c.VertexCount + vertexCount) && IsU32(c.IndexCount + indexCount)
    ensures ReserveAsWritten(c, vertexCount, indexCount) == Reserve(c, vertexCount, indexCount)
  {
  }

  /**
   * With one vertex reserved out of ten, a request for 2^32 - 1 more vertices wraps the
   * sum to 0 and is granted: the range runs far past the capacity, and the counter goes
   * back to 0, so the next range overlaps the first one.
   */
  lemma ReserveAsWrittenOverruns()
    ensures var c := PoolCounts(1, 10, 0, 10);
      var r := ReserveAsWritten(c, 0xFFFF_FFFF, 0);
      && r.Reserved?
      && r.BaseVertex + 0xFFFF_FFFF > c.VertexCapacity
      && r.After.VertexCount == 0
      && Reserve(c, 0xFFFF_FFFF, 0) == Refused
  {
    assert ToU32(1 + 0xFFFF_FFFF) == 0;
  }

  /**
   * A granted range lies inside the capacity and starts at the old counters, which grow
   * by exactly the amounts asked for; so the pool stays within its capacity.
   */
  lemma ReserveWithinCapacity(c: PoolCounts, vertexCount: uint32, indexCount: uint32)
    requires Reserve(c, vertexCount, indexCount).Reserved?
    ensures var r := Reserve(c, vertexCount, indexCount);
      && r.BaseVertex == c.VertexCount && r.BaseIndex == c.IndexCount
      && r.BaseVertex + vertexCount <= c.VertexCapacity && r.BaseIndex + indexCount <= c.IndexCapacity
      && r.After == c.(VertexCount := c.VertexCount + vertexCount, IndexCount := c.IndexCount + indexCount)
      && WithinCapacity(r.After)
  {
  }

  /**
   * Two granted reservations in a row get adjacent ranges, the second starting where the
   * first ends, so they do not overlap; both lie inside the capacity.
   */
  lemma SuccessiveRangesAdjacent(c: PoolCounts, v1: uint32, i1: uint32, v2: uint32, i2: uint32)
    requires Reserve(c, v1, i1).Reserved?
    requires Reserve(Reserve(c, v1, i1).After, v2, i2).Reserved?
    ensures var r1 := Reserve(c, v1, i1);
      var r2 := Reserve(r1.After, v2, i2);
      && r2.BaseVertex == r1.BaseVertex + v1 && r2.BaseIndex == r1.BaseIndex + i1
      && r2.BaseVertex + v2 <= c.VertexCapacity && r2.BaseIndex + i2 <= c.IndexCapacity
  {
  }

  class GeometryPool {
    const Type: VertexType
    var VertexCount: uint32
    var VertexCapacity: uint32
    var IndexCount: uint32
    var IndexCapacity: uint32

    function Counts(): PoolCounts
      reads this
    {
      PoolCounts(VertexCount, VertexCapacity, IndexCount, IndexCapacity)
    }

    predicate Valid()
      reads this
    {
      WithinCapacity(Counts())
    }

    /** `GeometryPool(type)`: everything zero until `Initialize`. */
    constructor(t: VertexType)
      ensures Type == t && Counts() == PoolCounts(0, 0, 0, 0) && Valid()
    {
      Type := t;
      VertexCount, VertexCapacity, IndexCount, IndexCapacity := 0, 0, 0, 0;
    }

    /**
     * `Initialize`: each capacity is set right after its buffer is created, and a failed
     * creation returns at once, leaving the later capacity as it was.
     */
    method Initialize(vertexCapacity: uint32, indexCapacity: uint32, vertexBufferOk: bool, indexBufferOk: bool)
      returns (ok: bool)
      modifies this
      ensures ok == (vertexBufferOk && indexBufferOk)
      ensures VertexCapacity == (if vertexBufferOk then vertexCapacity else old(VertexCapacity))
      ensures IndexCapacity == (if ok then indexCapacity else old(IndexCapacity))
      ensures VertexCount == old(VertexCount) && IndexCount == old(IndexCount)
    {
      if !vertexBufferOk {
        return false;
      }
      VertexCapacity := vertexCapacity;
      if !indexBufferOk {
        return false;
      }
      IndexCapacity := indexCapacity;
      ok := true;
    }

    /** `GeometryPool::Create`: a new pool when both buffers are created, else none. */
    static method Create(t: VertexType, vertexCapacity: uint32, indexCapacity: uint32, vertexBufferOk: bool, indexBufferOk: bool)
      returns (pool: Option<GeometryPool>)
      ensures pool.Some? <==> vertexBufferOk && indexBufferOk
      ensures pool.Some? ==>
        && fresh(pool.value) && pool.value.Type == t && pool.value.Valid()
        && pool.value.Counts() == PoolCounts(0, vertexCapacity, 0, indexCapacity)
    {
      var p := new GeometryPool(t);
      var ok := p.Initialize(vertexCapacity, indexCapacity, vertexBufferOk, indexBufferOk);
      pool := if ok then Some(p) else None;
    }

    /**
     * `ReserveRange(vertexCount, indexCount, &baseVertex, &baseIndex)`, with the room test
     * made free of wrap-around: a refusal changes nothing; a grant returns the old
     * counters as the bases and advances them.
     */
    method ReserveRange(vertexCount: uint32, indexCount: uint32) returns (ok: bool, baseVertex: uint32, baseIndex: uint32)
      modifies this
      ensures var r := Reserve(old(Counts()), vertexCount, indexCount);
        && (ok <==> r.Reserved?)
        && (ok ==> baseVertex == r.BaseVertex && baseIndex == r.BaseIndex && Counts() == r.After)
        && (!ok ==> Counts() == old(Counts()))
      ensures old(Valid()) ==> Valid()
    {
      if VertexCount + vertexCount > VertexCapacity || IndexCount + indexCount > IndexCapacity {
        return false, 0, 0;
      }
      baseVertex := VertexCount;
      baseIndex := IndexCount;
      VertexCount := VertexCount + vertexCount;
      IndexCount := IndexCount + indexCount;
      ok := true;
    }

    /** `GetEstVRAMBytes`: computed in 64 bits, where it cannot overflow. */
    function GetEstVRAMBytes(): (bytes: nat)
      reads this
      ensures bytes < U64_LIMIT
      ensures bytes == VertexStride(Type) * VertexCapacity + U32_SIZE * IndexCapacity
    {
      (VertexStride(Type) * VertexCapacity + U32_SIZE * IndexCapacity) % U64_LIMIT
    }
  }

  /** `sizeof(uint32_t)`, the size of an index. */
  const U32_SIZE: nat := 4

  /** `GeoMesh`: a range of vertices and a range of indices in one pool. */
  datatype GeoMesh = GeoMesh(Pool: GeometryPool, BaseVertex: uint32, NumVertices: uint32, BaseIndex: uint32, NumIndices: uint32)
}
