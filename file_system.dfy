/**
 * The file system the pipeline works against, as an abstract map from path to node.
 * Only the behaviour the pipeline relies on is modelled: whether a path exists, whether
 * it opens as a file, directory creation, file creation (`CREATE_ALWAYS` truncates),
 * appending data, file sizes and last-write times.
 */
module FileSystem {
  import opened Common
  import opened ModelFormat

  newtype byte = x: int | 0 <= x < 0x100

  /** A `FILETIME`: an unsigned 64-bit count of 100 ns ticks. */
  type FileTime = t: nat | t < U64_LIMIT

  /**
   * What a file holds: plain bytes, or the records `SaveModel` writes (always starting
   * with the header, which is written first, right after the file is created).
   */
  datatype FileData = Bytes(Data: seq<byte>) | ModelFile(Header: ModelHeader, Body: seq<BodyRecord>)

  function Size(d: FileData): nat
  {
    match d
    case Bytes(b) => |b|
    case ModelFile(_, body) => HEADER_SIZE + BodySize(body)
  }

  datatype Node = Directory | File(Data: FileData, WriteTime: FileTime)

  type Nodes = map<seq<char>, Node>

  /** The directory part of `path`: everything before its last `/`, or empty when there is none. */
  function ParentOf(path: seq<char>): (r: seq<char>)
    ensures |r| < |path| || r == []
    ensures r != [] ==> path[|r|] == '/' && r == path[..|r|]
  {
    if path == [] then []
    else if path[|path| - 1] == '/' then path[..|path| - 1]
    else ParentOf(path[..|path| - 1])
  }

  /** A new entry at `path` has a place to go: its directory exists, or it has none. */
  predicate ParentReady(nodes: Nodes, path: seq<char>)
  {
    var d := ParentOf(path);
    d == [] || (d in nodes && nodes[d].Directory?)
  }

  /** `CreateFile(path, GENERIC_READ, ..., OPEN_EXISTING, ...)` succeeds. */
  predicate CanOpen(nodes: Nodes, path: seq<char>)
  {
    path in nodes && nodes[path].File?
  }

  /** `CreateFile(path, GENERIC_WRITE, ..., CREATE_ALWAYS, ...)` succeeds. */
  predicate CanCreate(nodes: Nodes, path: seq<char>)
  {
    path != [] && (path !in nodes || nodes[path].File?) && ParentReady(nodes, path)
  }

  /**
   * `CreateDirectory(d) || GetLastError() == ERROR_ALREADY_EXISTS`: a path that already
   * exists counts as success; otherwise the directory is created when its parent exists.
   */
  function MakeDirectory(nodes: Nodes, d: seq<char>): (bool, Nodes)
  {
    if d in nodes then (true, nodes)
    else if d != [] && ParentReady(nodes, d) then (true, nodes[d := Directory])
    else (false, nodes)
  }

  /** The bytes of a file the C runtime reads as text (`char` is a byte). */
  function TextOf(b: seq<byte>): (s: seq<char>)
    ensures |s| == |b| && forall i :: 0 <= i < |b| ==> s[i] == b[i] as int as char
  {
    seq(|b|, i requires 0 <= i < |b| => b[i] as int as char)
  }

  /** The files `ObjModel::Load` and `ReadConfig` can read, by name. */
  function TextFiles(nodes: Nodes): (files: map<seq<char>, seq<char>>)
    ensures forall p :: p in files <==> p in nodes && nodes[p].File? && nodes[p].Data.Bytes?
  {
    map p | p in nodes && nodes[p].File? && nodes[p].Data.Bytes? :: TextOf(nodes[p].Data.Data)
  }

  /** `n` as `width` little-endian bytes. */
  function EncodeLE(n: nat, width: nat): (b: seq<byte>)
    ensures |b| == width
  {
    if width == 0 then [] else [(n % 0x100) as byte] + EncodeLE(n / 0x100, width - 1)
  }

  /** The little-endian number in the first `width` bytes of `b`. */
  function DecodeLE(b: seq<byte>, width: nat): nat
    requires width <= |b|
  {
    if width == 0 then 0 else b[0] as nat + 0x100 * DecodeLE(b[1..], width - 1)
  }

  function Pow256(width: nat): (p: nat)
    ensures p > 0
  {
    if width == 0 then 1 else 0x100 * Pow256(width - 1)
  }

  /** Decoding what was encoded gives the number back, as long as it fits. */
  lemma {:induction false} DecodeEncode(n: nat, width: nat, rest: seq<byte>)
    requires n < Pow256(width)
    ensures DecodeLE(EncodeLE(n, width) + rest, width) == n
    decreases width
  {
    if width > 0 {
      var b := EncodeLE(n, width) + rest;
      assert b[1..] == EncodeLE(n / 0x100, width - 1) + rest;
      DecodeEncode(n / 0x100, width - 1, rest);
    }
  }

  /** The eight bytes a `FILETIME` occupies in a `.time` file. */
  function EncodeFileTime(t: FileTime): (b: seq<byte>)
    ensures |b| == 8
  {
    EncodeLE(t, 8)
  }

  lemma Pow256Eight()
    ensures Pow256(8) == U64_LIMIT && Pow256(4) == U32_LIMIT
  {
  }

  /** A `.time` file read back yields the time written, whatever follows it. */
  lemma FileTimeRoundTrip(t: FileTime, rest: seq<byte>)
    ensures DecodeLE(EncodeFileTime(t) + rest, 8) == t
  {
    Pow256Eight();
    DecodeEncode(t, 8, rest);
  }

  /** The first eight bytes of a file at least that long, as `ReadFile` returns them. */
  function FirstEight(d: FileData): (b: seq<byte>)
    requires Size(d) >= 8
    ensures |b| == 8
  {
    match d
    case Bytes(data) => data[..8]
    case ModelFile(h, _) => EncodeLE(h.Signature, 4) + EncodeLE(h.NumObjects, 4)
  }

  /** The file system, with a clock that stamps every file written. */
  class FileSystem {
    var Nodes: Nodes
    const Now: FileTime

    constructor(nodes: Nodes, now: FileTime)
      ensures Nodes == nodes && Now == now
    {
      Nodes := nodes;
      Now := now;
    }

    /** `CreateDirectory` together with the `ERROR_ALREADY_EXISTS` test of its caller. */
    method CreateDirectory(d: seq<char>) returns (ok: bool)
      modifies this
      ensures (ok, Nodes) == MakeDirectory(old(Nodes), d)
    {
      if d in Nodes {
        ok := true;
      } else if d != [] && ParentReady(Nodes, d) {
        Nodes := Nodes[d := Directory];
        ok := true;
      } else {
        ok := false;
      }
    }

    /** `CreateFile(..., CREATE_ALWAYS, ...)`: the file exists afterwards and is empty. */
    method CreateEmpty(path: seq<char>) returns (ok: bool)
      modifies this
      ensures ok == CanCreate(old(Nodes), path)
      ensures Nodes == if ok then old(Nodes)[path := File(Bytes([]), Now)] else old(Nodes)
    {
      ok := CanCreate(Nodes, path);
      if ok {
        Nodes := Nodes[path := File(Bytes([]), Now)];
      }
    }

    /** `WriteFile` of bytes to the file at `path`, after what it already holds. */
    method AppendBytes(path: seq<char>, b: seq<byte>)
      requires path in Nodes && Nodes[path].File? && Nodes[path].Data.Bytes?
      modifies this
      ensures Nodes == old(Nodes)[path := File(Bytes(old(Nodes[path].Data.Data) + b), Now)]
    {
      Nodes := Nodes[path := File(Bytes(Nodes[path].Data.Data + b), Now)];
    }

    /** `WriteFile` of a `ModelHeader` to the empty file at `path`. */
    method WriteHeader(path: seq<char>, h: ModelHeader)
      requires path in Nodes && Nodes[path].File? && Nodes[path].Data == Bytes([])
      modifies this
      ensures Nodes == old(Nodes)[path := File(ModelFile(h, []), Now)]
    {
      Nodes := Nodes[path := File(ModelFile(h, []), Now)];
    }

    /** `WriteFile` of one more record to the model file at `path`. */
    method AppendRecord(path: seq<char>, r: BodyRecord)
      requires path in Nodes && Nodes[path].File? && Nodes[path].Data.ModelFile?
      modifies this
      ensures Nodes == old(Nodes)[path := File(old(Nodes[path].Data).(Body := old(Nodes[path].Data.Body) + [r]), Now)]
    {
      Nodes := Nodes[path := File(Nodes[path].Data.(Body := Nodes[path].Data.Body + [r]), Now)];
    }
  }
}
