/**
 * `ContentLoader::LoadObject` (`ContentLoader.cpp`): the signature check, the geometry pool
 * sized to the header, and one `Object` that collects the parts of all objects in the file,
 * each a mesh over the pool's single range plus up to three cached textures. Reading and
 * uploading the vertex and index data is left to the device and not modelled; whether the
 * device creates the two buffers is given as a flag per buffer.
 */
module ContentLoading {
  import opened Common
  import opened Geometry
  import opened TextureLoading
  import opened TextureCaching
  import opened ReaderFormat

  /** `Object::Part`: the mesh and the three views (the transform is always the identity). */
  datatype ObjectPart = ObjectPart(Mesh: GeoMesh, Albedo: Option<TextureView>, Normal: Option<TextureView>,
                                   Specular: Option<TextureView>)

  /** `Object`: the pool its meshes share and its parts, in the order they were read. */
  datatype LoadedObject = LoadedObject(Pool: GeometryPool, Parts: seq<ObjectPart>)

  /**
   * The part made from a part record: its mesh covers the record's index range at the
   * reserved base vertex (`NumVertices` is never set and stays 0).
   */
  function MeshPart(pool: GeometryPool, baseVertex: uint32, part: ReaderPart, t: PartTextures): ObjectPart
  {
    ObjectPart(GeoMesh(pool, baseVertex, 0, part.StartIndex, part.NumIndices), t.Diffuse, t.Normal, t.Specular)
  }

  /** Whether all parts loaded, the parts appended, and the cache after them. */
  datatype PartsResult = PartsResult(Ok: bool, Parts: seq<ObjectPart>, Cache: CacheState)

  /**
   * The part loop over the records `parts`, each part's texture slots resolved by `load`:
   * each part is appended before its textures load, so a part whose texture fails is kept,
   * and nothing after it is read.
   */
  function PartsSpec(c: CacheState, pool: GeometryPool, baseVertex: uint32, parts: seq<ReaderPart>, load: PartLoader)
    : Outcome<PartsResult>
    decreases |parts|
  {
    if parts == [] then Defined(PartsResult(true, [], c))
    else match load(c, parts[0])
      case Undefined => Undefined
      case Defined(t) =>
        var p := MeshPart(pool, baseVertex, parts[0], t);
        if !t.Ok then Defined(PartsResult(false, [p], t.Cache))
        else match PartsSpec(t.Cache, pool, baseVertex, parts[1..], load)
          case Undefined => Undefined
          case Defined(rest) => Defined(rest.(Parts := [p] + rest.Parts))
  }

  /** A loop state: the parts appended so far, in front of what the rest of the loop appends. */
  function Prefixed(acc: seq<ObjectPart>, o: Outcome<PartsResult>): Outcome<PartsResult>
  {
    match o
    case Undefined => Undefined
    case Defined(r) => Defined(r.(Parts := acc + r.Parts))
  }

  /** One iteration of the part loop, seen from the loop state. */
  lemma PrefixedStep(acc: seq<ObjectPart>, c: CacheState, pool: GeometryPool, baseVertex: uint32, part: ReaderPart,
                     rest: seq<ReaderPart>, load: PartLoader)
    ensures load(c, part).Undefined? ==> PartsSpec(c, pool, baseVertex, [part] + rest, load).Undefined?
    ensures load(c, part).Defined? ==>
      var t := load(c, part).value;
      var p := MeshPart(pool, baseVertex, part, t);
      Prefixed(acc, PartsSpec(c, pool, baseVertex, [part] + rest, load))
      == if !t.Ok then Defined(PartsResult(false, acc + [p], t.Cache))
         else Prefixed(acc + [p], PartsSpec(t.Cache, pool, baseVertex, rest, load))
  {
    var parts := [part] + rest;
    assert parts[0] == part && parts[1..] == rest;
    match load(c, part)
    case Undefined =>
    case Defined(t) =>
      var p := MeshPart(pool, baseVertex, part, t);
      match PartsSpec(t.Cache, pool, baseVertex, rest, load)
      case Undefined =>
      case Defined(r) =>
        assert acc + ([p] + r.Parts) == (acc + [p]) + r.Parts;
  }

  /**
   * The part loop over two runs of records, seen from the loop state: the first run, then
   * the second from the cache after it, unless the first stopped.
   */
  lemma {:induction false} PrefixedAppend(acc: seq<ObjectPart>, c: CacheState, pool: GeometryPool, baseVertex: uint32,
                                          xs: seq<ReaderPart>, ys: seq<ReaderPart>, load: PartLoader)
    ensures Prefixed(acc, PartsSpec(c, pool, baseVertex, xs + ys, load))
         == match PartsSpec(c, pool, baseVertex, xs, load)
            case Undefined => Undefined
            case Defined(r) =>
              if !r.Ok then Defined(r.(Parts := acc + r.Parts))
              else Prefixed(acc + r.Parts, PartsSpec(r.Cache, pool, baseVertex, ys, load))
    decreases |xs|
  {
    if xs == [] {
      assert xs + ys == ys;
      assert acc + [] == acc;
    } else {
      var part := xs[0];
      assert xs + ys == [part] + (xs[1..] + ys);
      PrefixedStep(acc, c, pool, baseVertex, part, xs[1..] + ys, load);
      match load(c, part)
      case Undefined =>
      case Defined(t) =>
        var p := MeshPart(pool, baseVertex, part, t);
        if t.Ok {
          PrefixedAppend(acc + [p], t.Cache, pool, baseVertex, xs[1..], ys, load);
          match PartsSpec(t.Cache, pool, baseVertex, xs[1..], load)
          case Undefined =>
          case Defined(rest) =>
            assert acc + ([p] + rest.Parts) == (acc + [p]) + rest.Parts;
        }
    }
  }

  /** The part loop over the part records of one object, as `LoadObject` runs it. */
  method LoadRecordParts(c: CacheState, root: seq<char>, pool: GeometryPool, baseVertex: uint32, parts: seq<ReaderPart>,
                         textures: map<seq<char>, TextureFile>, signature: uint32, ghost load: PartLoader)
    returns (r: Outcome<PartsResult>)
    requires LoadsParts(load, root, textures, signature)
    ensures r == PartsSpec(c, pool, baseVertex, parts, load)
  {
    ghost var total := PartsSpec(c, pool, baseVertex, parts, load);
    var cache := c;
    var acc: seq<ObjectPart> := [];
    assert Prefixed(acc, total) == total by {
      if total.Defined? {
        assert [] + total.value.Parts == total.value.Parts;
      }
    }
    var j := 0;
    while j < |parts|
      invariant j <= |parts|
      invariant Prefixed(acc, PartsSpec(cache, pool, baseVertex, parts[j..], load)) == total
    {
      var part := parts[j];
      assert parts[j..] == [part] + parts[j + 1..];
      PrefixedStep(acc, cache, pool, baseVertex, part, parts[j + 1..], load);
      var t := LoadPartTextures(cache, root, part, textures, signature);
      assert t == load(cache, part);
      if t.Undefined? {
        return Undefined;
      }
      acc := acc + [MeshPart(pool, baseVertex, part, t.value)];
      cache := t.value.Cache;
      if !t.value.Ok {
        return Defined(PartsResult(false, acc, cache));
      }
      j := j + 1;
    }
    assert parts[|parts|..] == [];
    assert acc + [] == acc;
    r := Defined(PartsResult(true, acc, cache));
  }

  /**
   * The parts cover the records' index ranges, one per record and in record order, all
   * at the one base vertex in the one pool; all records are used when the loop succeeds,
   * and when it fails the failing part is the last one kept. Every part before the last
   * has got a view for exactly its non-empty texture names.
   */
  lemma {:induction false} PartsSpecMeshes(c: CacheState, pool: GeometryPool, baseVertex: uint32, parts: seq<ReaderPart>,
                                           load: PartLoader, root: seq<char>, textures: map<seq<char>, TextureFile>,
                                           signature: uint32)
    requires LoadsParts(load, root, textures, signature)
    requires PartsSpec(c, pool, baseVertex, parts, load).Defined?
    ensures var r := PartsSpec(c, pool, baseVertex, parts, load).value;
      && |r.Parts| <= |parts|
      && (r.Ok ==> |r.Parts| == |parts|)
      && (!r.Ok ==> |r.Parts| >= 1)
      && (forall k :: 0 <= k < |r.Parts| ==>
            r.Parts[k].Mesh == GeoMesh(pool, baseVertex, 0, parts[k].StartIndex, parts[k].NumIndices))
      && (forall k :: 0 <= k < |r.Parts| - 1 ==> PartHasViews(parts[k], r.Parts[k]))
      && (r.Ok ==> forall k :: 0 <= k < |r.Parts| ==> PartHasViews(parts[k], r.Parts[k]))
    decreases |parts|
  {
    if parts != [] {
      var t := load(c, parts[0]).value;
      var p := MeshPart(pool, baseVertex, parts[0], t);
      if t.Ok {
        PartTexturesViews(c, root, parts[0], textures, signature);
        var rest := PartsSpec(t.Cache, pool, baseVertex, parts[1..], load).value;
        PartsSpecMeshes(t.Cache, pool, baseVertex, parts[1..], load, root, textures, signature);
        var r := PartsSpec(c, pool, baseVertex, parts, load).value;
        assert r.Parts == [p] + rest.Parts;
        assert PartHasViews(parts[0], p);
        forall k | 1 <= k < |r.Parts|
          ensures r.Parts[k] == rest.Parts[k - 1] && parts[k] == parts[1..][k - 1]
        {
        }
      }
    }
  }

  /** A part whose three views are there exactly for its non-empty texture names. */
  predicate PartHasViews(part: ReaderPart, p: ObjectPart)
  {
    HasView(part.DiffuseTexture, p.Albedo) && HasView(part.NormalTexture, p.Normal) && HasView(part.SpecularTexture, p.Specular)
  }

  /** The part loop keeps the texture cache valid and only grows it. */
  lemma {:induction false} PartsSpecKeepsCache(c: CacheState, pool: GeometryPool, baseVertex: uint32, parts: seq<ReaderPart>,
                                               load: PartLoader, root: seq<char>, textures: map<seq<char>, TextureFile>,
                                               signature: uint32)
    requires LoadsParts(load, root, textures, signature)
    requires CacheValid(c)
    requires PartsSpec(c, pool, baseVertex, parts, load).Defined?
    ensures var r := PartsSpec(c, pool, baseVertex, parts, load).value;
      CacheValid(r.Cache) && Grows(c, r.Cache)
    decreases |parts|
  {
    if parts == [] {
      assert c.Loaded[..|c.Loaded|] == c.Loaded;
    } else {
      var t := load(c, parts[0]).value;
      PartTexturesKeepCache(c, root, parts[0], textures, signature);
      if t.Ok {
        var rest := PartsSpec(t.Cache, pool, baseVertex, parts[1..], load).value;
        PartsSpecKeepsCache(t.Cache, pool, baseVertex, parts[1..], load, root, textures, signature);
        GrowsTransitive(c, t.Cache, rest.Cache);
      }
    }
  }

  /** A pool sized exactly to the header grants the whole of both buffers at bases 0. */
  lemma ExactPoolReserves(numVertices: uint32, numIndices: uint32)
    ensures Reserve(PoolCounts(0, numVertices, 0, numIndices), numVertices, numIndices)
         == Reserved(0, 0, PoolCounts(numVertices, numVertices, numIndices, numIndices))
  {
  }

  class ContentLoader {
    const ContentRoot: seq<char>
    /** `ModelHeader::ExpectedSignature` and `TextureHeader::ExpectedSignature` of the newer headers. */
    const ModelSignature: uint32
    const TextureSignature: uint32
    /** `CachedTextureMap`, kept for the loader's lifetime. */
    var Cache: CacheState

    ghost predicate Valid()
      reads this
    {
      CacheValid(Cache)
    }

    constructor(contentRoot: seq<char>, modelSignature: uint32, textureSignature: uint32)
      ensures ContentRoot == contentRoot && ModelSignature == modelSignature && TextureSignature == textureSignature
      ensures Cache == EmptyCache && Valid()
    {
      ContentRoot, ModelSignature, TextureSignature := contentRoot, modelSignature, textureSignature;
      Cache := EmptyCache;
    }

    /**
     * `LoadObject(filename, &object)`: no object and an unchanged cache when the file does
     * not open or its signature is wrong; undefined when the pool's buffers are not
     * created (`Create` returns null and the pool is used anyway); else an object whose
     * parts are those of the part loop over every part record of the objects read.
     */
    method LoadObject(filename: seq<char>, content: ContentFiles, vertexBufferOk: bool, indexBufferOk: bool)
      returns (r: Outcome<bool>, loaded: Option<LoadedObject>)
      modifies this
      ensures var file := OpenModel(content, ContentRoot + filename, ModelSignature);
        && (file.None? ==> r == Defined(false) && loaded.None? && Cache == old(Cache))
        && (file.Some? && !(vertexBufferOk && indexBufferOk) ==> r.Undefined?)
        && (file.Some? && vertexBufferOk && indexBufferOk ==>
              && loaded.Some? && fresh(loaded.value.Pool)
              && var h := file.value.Header;
                 var spec := PartsSpec(old(Cache), loaded.value.Pool, 0, Flatten(ObjectsRead(file.value)),
                                       PartLoaderFor(ContentRoot, content.Textures, TextureSignature));
                 && loaded.value.Pool.Counts() == PoolCounts(h.NumVertices, h.NumVertices, h.NumIndices, h.NumIndices)
                 && (r.Defined? <==> spec.Defined?)
                 && (r.Defined? ==> r.value == spec.value.Ok && loaded.value.Parts == spec.value.Parts
                                    && Cache == spec.value.Cache))
      ensures r.Defined? && old(Valid()) ==> Valid()
    {
      loaded := None;
      var path := ContentRoot + filename;
      if path !in content.Models {
        return Defined(false), None;
      }
      var file := content.Models[path];
      var header := file.Header;
      if header.Signature != ModelSignature {
        return Defined(false), None;
      }
      var created := GeometryPool.Create(Standard, header.NumVertices, header.NumIndices, vertexBufferOk, indexBufferOk);
      if created.None? {
        return Undefined, None;
      }
      var pool := created.value;
      var ok, baseVertex, baseIndex := pool.ReserveRange(header.NumVertices, header.NumIndices);
      // The pool was sized to the header, so this reservation is never refused.
      assert ok && baseVertex == 0;
      ghost var load := PartLoaderFor(ContentRoot, content.Textures, TextureSignature);
      PartLoaderForLoads(ContentRoot, content.Textures, TextureSignature);
      var parts;
      r, parts := LoadParts(pool, baseVertex, ObjectsRead(file), content.Textures, load);
      loaded := Some(LoadedObject(pool, parts));
    }

    /** The object and part loops: every part record of `objs`, in file order, through the part loop. */
    method LoadParts(pool: GeometryPool, baseVertex: uint32, objs: seq<ReaderObject>, textures: map<seq<char>, TextureFile>,
                     ghost load: PartLoader) returns (r: Outcome<bool>, parts: seq<ObjectPart>)
      requires LoadsParts(load, ContentRoot, textures, TextureSignature)
      modifies this
      ensures var spec := PartsSpec(old(Cache), pool, baseVertex, Flatten(objs), load);
        && (r.Defined? <==> spec.Defined?)
        && (r.Defined? ==> r.value == spec.value.Ok && parts == spec.value.Parts && Cache == spec.value.Cache)
      ensures r.Defined? && old(Valid()) ==> Valid()
    {
      ghost var total := PartsSpec(Cache, pool, baseVertex, Flatten(objs), load);
      if Valid() && total.Defined? {
        PartsSpecKeepsCache(Cache, pool, baseVertex, Flatten(objs), load, ContentRoot, textures, TextureSignature);
      }
      parts := [];
      assert objs[0..] == objs;
      assert Prefixed(parts, total) == total by {
        if total.Defined? {
          assert [] + total.value.Parts == total.value.Parts;
        }
      }
      var i := 0;
      while i < |objs|
        invariant i <= |objs|
        invariant Prefixed(parts, PartsSpec(Cache, pool, baseVertex, Flatten(objs[i..]), load)) == total
      {
        var obj := objs[i];
        FlattenFrom(objs, i);
        PrefixedAppend(parts, Cache, pool, baseVertex, obj.Parts, Flatten(objs[i + 1..]), load);
        var m := LoadRecordParts(Cache, ContentRoot, pool, baseVertex, obj.Parts, textures, TextureSignature, load);
        if m.Undefined? {
          return Undefined, parts;
        }
        parts := parts + m.value.Parts;
        Cache := m.value.Cache;
        if !m.value.Ok {
          return Defined(false), parts;
        }
        i := i + 1;
      }
      assert objs[|objs|..] == [];
      assert parts + [] == parts;
      r := Defined(true);
    }
  }
}
