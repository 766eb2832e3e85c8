/**
 * `TestRenderer::AddMeshes` (`TestRenderer.cpp`): the signature check, the scene that
 * replaces the old one with the header's counts, and the objects and meshes built from the
 * object and part records, each mesh with up to three cached textures. Creating the two
 * buffers is left to the device; whether it succeeds is given as a flag per buffer.
 */
module TestRendering {
  import opened Common
  import opened Crt
  import opened TextureLoading
  import opened TextureCaching
  import opened ReaderFormat

  /** `Mesh`: an index range and its views. */
  datatype RenderMesh = RenderMesh(StartIndex: uint32, NumIndices: uint32, Albedo: Option<TextureView>,
                                   BumpDerivative: Option<TextureView>, Specular: Option<TextureView>)

  /** `Object` (the world transform is always the identity). */
  datatype RenderObject = RenderObject(Name: seq<char>, Meshes: seq<RenderMesh>)

  /** `Scene` (the buffers are the device's). */
  datatype RenderScene = RenderScene(VertexCount: uint32, IndexCount: uint32, Objects: seq<RenderObject>)

  function MeshOf(part: ReaderPart, t: PartTextures): RenderMesh
  {
    RenderMesh(part.StartIndex, part.NumIndices, t.Diffuse, t.Normal, t.Specular)
  }

  datatype MeshesResult = MeshesResult(Ok: bool, Meshes: seq<RenderMesh>, Cache: CacheState)

  /** The part loop of one object: a mesh is pushed only once its textures have loaded. */
  function MeshesSpec(c: CacheState, parts: seq<ReaderPart>, load: PartLoader): Outcome<MeshesResult>
    decreases |parts|
  {
    if parts == [] then Defined(MeshesResult(true, [], c))
    else match load(c, parts[0])
      case Undefined => Undefined
      case Defined(t) =>
        if !t.Ok then Defined(MeshesResult(false, [], t.Cache))
        else match MeshesSpec(t.Cache, parts[1..], load)
          case Undefined => Undefined
          case Defined(rest) => Defined(rest.(Meshes := [MeshOf(parts[0], t)] + rest.Meshes))
  }

  datatype ObjectsResult = ObjectsResult(Ok: bool, Objects: seq<RenderObject>, Cache: CacheState)

  /** The object loop: an object is pushed onto the scene only once all its meshes are built. */
  function ObjectsSpec(c: CacheState, objs: seq<ReaderObject>, load: PartLoader): Outcome<ObjectsResult>
    decreases |objs|
  {
    if objs == [] then Defined(ObjectsResult(true, [], c))
    else match MeshesSpec(c, objs[0].Parts, load)
      case Undefined => Undefined
      case Defined(m) =>
        if !m.Ok then Defined(ObjectsResult(false, [], m.Cache))
        else match ObjectsSpec(m.Cache, objs[1..], load)
          case Undefined => Undefined
          case Defined(rest) => Defined(rest.(Objects := [RenderObject(CStr(objs[0].Name), m.Meshes)] + rest.Objects))
  }

  /** A mesh built from `part` that got a view for exactly its non-empty texture names. */
  predicate MeshFrom(part: ReaderPart, m: RenderMesh)
  {
    && m.StartIndex == part.StartIndex && m.NumIndices == part.NumIndices
    && HasView(part.DiffuseTexture, m.Albedo) && HasView(part.NormalTexture, m.BumpDerivative)
    && HasView(part.SpecularTexture, m.Specular)
  }

  /**
   * The meshes are built from the part records in order, each complete; all are there
   * when the loop succeeds, and when it fails the part that failed has no mesh.
   */
  lemma {:induction false} MeshesSpecRanges(c: CacheState, parts: seq<ReaderPart>, load: PartLoader, root: seq<char>,
                                            textures: map<seq<char>, TextureFile>, signature: uint32)
    requires LoadsParts(load, root, textures, signature)
    requires MeshesSpec(c, parts, load).Defined?
    ensures var r := MeshesSpec(c, parts, load).value;
      && (r.Ok ==> |r.Meshes| == |parts|)
      && (!r.Ok ==> |r.Meshes| < |parts|)
      && forall k :: 0 <= k < |r.Meshes| ==> MeshFrom(parts[k], r.Meshes[k])
    decreases |parts|
  {
    if parts != [] {
      var t := load(c, parts[0]).value;
      if t.Ok {
        PartTexturesViews(c, root, parts[0], textures, signature);
        var rest := MeshesSpec(t.Cache, parts[1..], load).value;
        MeshesSpecRanges(t.Cache, parts[1..], load, root, textures, signature);
        var r := MeshesSpec(c, parts, load).value;
        assert r.Meshes == [MeshOf(parts[0], t)] + rest.Meshes;
        forall k | 1 <= k < |r.Meshes|
          ensures r.Meshes[k] == rest.Meshes[k - 1] && parts[k] == parts[1..][k - 1]
        {
        }
      }
    }
  }

  /** An object built from `obj`: its name, and one complete mesh per part record. */
  predicate ObjectFrom(obj: ReaderObject, o: RenderObject)
  {
    && o.Name == CStr(obj.Name) && |o.Meshes| == |obj.Parts|
    && forall k :: 0 <= k < |o.Meshes| ==> MeshFrom(obj.Parts[k], o.Meshes[k])
  }

  /**
   * The objects are built from the object records in order, each complete; all are there
   * when the loop succeeds, and when it fails the object that failed is not in the scene.
   */
  lemma {:induction false} ObjectsSpecShape(c: CacheState, objs: seq<ReaderObject>, load: PartLoader, root: seq<char>,
                                            textures: map<seq<char>, TextureFile>, signature: uint32)
    requires LoadsParts(load, root, textures, signature)
    requires ObjectsSpec(c, objs, load).Defined?
    ensures var r := ObjectsSpec(c, objs, load).value;
      && (r.Ok ==> |r.Objects| == |objs|)
      && (!r.Ok ==> |r.Objects| < |objs|)
      && forall k :: 0 <= k < |r.Objects| ==> ObjectFrom(objs[k], r.Objects[k])
    decreases |objs|
  {
    if objs != [] {
      var m := MeshesSpec(c, objs[0].Parts, load).value;
      if m.Ok {
        MeshesSpecRanges(c, objs[0].Parts, load, root, textures, signature);
        var rest := ObjectsSpec(m.Cache, objs[1..], load).value;
        ObjectsSpecShape(m.Cache, objs[1..], load, root, textures, signature);
        var r := ObjectsSpec(c, objs, load).value;
        assert r.Objects == [RenderObject(CStr(objs[0].Name), m.Meshes)] + rest.Objects;
        forall k | 1 <= k < |r.Objects|
          ensures r.Objects[k] == rest.Objects[k - 1] && objs[k] == objs[1..][k - 1]
        {
        }
      }
    }
  }

  /** The part loop keeps the texture cache valid and only grows it. */
  lemma {:induction false} MeshesSpecKeepsCache(c: CacheState, parts: seq<ReaderPart>, load: PartLoader, root: seq<char>,
                                                textures: map<seq<char>, TextureFile>, signature: uint32)
    requires LoadsParts(load, root, textures, signature)
    requires CacheValid(c)
    requires MeshesSpec(c, parts, load).Defined?
    ensures var r := MeshesSpec(c, parts, load).value;
      CacheValid(r.Cache) && Grows(c, r.Cache)
    decreases |parts|
  {
    if parts == [] {
      assert c.Loaded[..|c.Loaded|] == c.Loaded;
    } else {
      var t := load(c, parts[0]).value;
      PartTexturesKeepCache(c, root, parts[0], textures, signature);
      if t.Ok {
        var rest := MeshesSpec(t.Cache, parts[1..], load).value;
        MeshesSpecKeepsCache(t.Cache, parts[1..], load, root, textures, signature);
        GrowsTransitive(c, t.Cache, rest.Cache);
      }
    }
  }

  /** So does the object loop. */
  lemma {:induction false} ObjectsSpecKeepsCache(c: CacheState, objs: seq<ReaderObject>, load: PartLoader, root: seq<char>,
                                                 textures: map<seq<char>, TextureFile>, signature: uint32)
    requires LoadsParts(load, root, textures, signature)
    requires CacheValid(c)
    requires ObjectsSpec(c, objs, load).Defined?
    ensures var r := ObjectsSpec(c, objs, load).value;
      CacheValid(r.Cache) && Grows(c, r.Cache)
    decreases |objs|
  {
    if objs == [] {
      assert c.Loaded[..|c.Loaded|] == c.Loaded;
    } else {
      var m := MeshesSpec(c, objs[0].Parts, load).value;
      MeshesSpecKeepsCache(c, objs[0].Parts, load, root, textures, signature);
      if m.Ok {
        var rest := ObjectsSpec(m.Cache, objs[1..], load).value;
        ObjectsSpecKeepsCache(m.Cache, objs[1..], load, root, textures, signature);
        GrowsTransitive(c, m.Cache, rest.Cache);
      }
    }
  }

  function MeshesPrefixed(acc: seq<RenderMesh>, o: Outcome<MeshesResult>): Outcome<MeshesResult>
  {
    match o
    case Undefined => Undefined
    case Defined(r) => Defined(r.(Meshes := acc + r.Meshes))
  }

  function ObjectsPrefixed(acc: seq<RenderObject>, o: Outcome<ObjectsResult>): Outcome<ObjectsResult>
  {
    match o
    case Undefined => Undefined
    case Defined(r) => Defined(r.(Objects := acc + r.Objects))
  }

  /** One iteration of the part loop, seen from the loop state. */
  lemma MeshesStep(acc: seq<RenderMesh>, c: CacheState, parts: seq<ReaderPart>, j: nat, load: PartLoader)
    requires j < |parts|
    ensures load(c, parts[j]).Undefined? ==> MeshesSpec(c, parts[j..], load).Undefined?
    ensures load(c, parts[j]).Defined? ==>
      var t := load(c, parts[j]).value;
      MeshesPrefixed(acc, MeshesSpec(c, parts[j..], load))
      == if !t.Ok then Defined(MeshesResult(false, acc, t.Cache))
         else MeshesPrefixed(acc + [MeshOf(parts[j], t)], MeshesSpec(t.Cache, parts[j + 1..], load))
  {
    var rest := parts[j..];
    assert rest[0] == parts[j] && rest[1..] == parts[j + 1..];
    match load(c, parts[j])
    case Undefined =>
    case Defined(t) =>
      if !t.Ok {
        assert acc + [] == acc;
      } else {
        match MeshesSpec(t.Cache, parts[j + 1..], load)
        case Undefined =>
        case Defined(r) =>
          assert acc + ([MeshOf(parts[j], t)] + r.Meshes) == (acc + [MeshOf(parts[j], t)]) + r.Meshes;
      }
  }

  /** One iteration of the object loop, seen from the loop state. */
  lemma ObjectsStep(acc: seq<RenderObject>, c: CacheState, objs: seq<ReaderObject>, i: nat, load: PartLoader)
    requires i < |objs|
    ensures MeshesSpec(c, objs[i].Parts, load).Undefined? ==> ObjectsSpec(c, objs[i..], load).Undefined?
    ensures MeshesSpec(c, objs[i].Parts, load).Defined? ==>
      var m := MeshesSpec(c, objs[i].Parts, load).value;
      ObjectsPrefixed(acc, ObjectsSpec(c, objs[i..], load))
      == if !m.Ok then Defined(ObjectsResult(false, acc, m.Cache))
         else ObjectsPrefixed(acc + [RenderObject(CStr(objs[i].Name), m.Meshes)], ObjectsSpec(m.Cache, objs[i + 1..], load))
  {
    var rest := objs[i..];
    assert rest[0] == objs[i] && rest[1..] == objs[i + 1..];
    match MeshesSpec(c, objs[i].Parts, load)
    case Undefined =>
    case Defined(m) =>
      if !m.Ok {
        assert acc + [] == acc;
      } else {
        var o := RenderObject(CStr(objs[i].Name), m.Meshes);
        match ObjectsSpec(m.Cache, objs[i + 1..], load)
        case Undefined =>
        case Defined(r) =>
          assert acc + ([o] + r.Objects) == (acc + [o]) + r.Objects;
      }
  }

  /** The part loop of one object, as `AddMeshes` runs it. */
  method BuildMeshes(c: CacheState, root: seq<char>, parts: seq<ReaderPart>, textures: map<seq<char>, TextureFile>,
                     signature: uint32, ghost load: PartLoader) returns (r: Outcome<MeshesResult>)
    requires LoadsParts(load, root, textures, signature)
    ensures r == MeshesSpec(c, parts, load)
  {
    ghost var total := MeshesSpec(c, parts, load);
    var meshes: seq<RenderMesh> := [];
    var cache := c;
    assert MeshesPrefixed(meshes, total) == total by {
      if total.Defined? {
        assert [] + total.value.Meshes == total.value.Meshes;
      }
    }
    assert parts[0..] == parts;
    var j := 0;
    while j < |parts|
      invariant j <= |parts|
      invariant MeshesPrefixed(meshes, MeshesSpec(cache, parts[j..], load)) == total
    {
      var part := parts[j];
      MeshesStep(meshes, cache, parts, j, load);
      var t := LoadPartTextures(cache, root, part, textures, signature);
      assert t == load(cache, part);
      if t.Undefined? {
        return Undefined;
      }
      cache := t.value.Cache;
      if !t.value.Ok {
        return Defined(MeshesResult(false, meshes, cache));
      }
      meshes := meshes + [MeshOf(part, t.value)];
      j := j + 1;
    }
    assert parts[|parts|..] == [];
    assert meshes + [] == meshes;
    r := Defined(MeshesResult(true, meshes, cache));
  }

  class TestRenderer {
    /** `ModelHeader::ExpectedSignature` and `TextureHeader::ExpectedSignature` of the newer headers. */
    const ModelSignature: uint32
    const TextureSignature: uint32
    /** `TheScene`: none until the first model with the right signature. */
    var TheScene: Option<RenderScene>
    /** `CachedTextureMap`, kept across scenes. */
    var Cache: CacheState

    ghost predicate Valid()
      reads this
    {
      CacheValid(Cache)
    }

    constructor(modelSignature: uint32, textureSignature: uint32)
      ensures ModelSignature == modelSignature && TextureSignature == textureSignature
      ensures TheScene.None? && Cache == EmptyCache && Valid()
    {
      ModelSignature, TextureSignature := modelSignature, textureSignature;
      TheScene := None;
      Cache := EmptyCache;
    }

    /**
     * `AddMeshes(contentRoot, modelFilename)`: false with the scene and cache untouched when
     * the file does not open or its signature is wrong. Otherwise the scene is replaced by
     * one with the header's counts, which stays empty when a buffer is not created, and
     * then gets the objects of the object loop.
     */
    method AddMeshes(contentRoot: seq<char>, modelFilename: seq<char>, content: ContentFiles, vertexBufferOk: bool,
                     indexBufferOk: bool) returns (r: Outcome<bool>)
      modifies this
      ensures var file := OpenModel(content, contentRoot + modelFilename, ModelSignature);
        && (file.None? ==> r == Defined(false) && TheScene == old(TheScene) && Cache == old(Cache))
        && (file.Some? ==>
              var h := file.value.Header;
              && (!(vertexBufferOk && indexBufferOk) ==>
                    r == Defined(false) && TheScene == Some(RenderScene(h.NumVertices, h.NumIndices, [])) && Cache == old(Cache))
              && (vertexBufferOk && indexBufferOk ==>
                    var spec := ObjectsSpec(old(Cache), ObjectsRead(file.value), PartLoaderFor(contentRoot, content.Textures, TextureSignature));
                    && (r.Defined? <==> spec.Defined?)
                    && (r.Defined? ==> r.value == spec.value.Ok && Cache == spec.value.Cache
                                       && TheScene == Some(RenderScene(h.NumVertices, h.NumIndices, spec.value.Objects)))))
      ensures r.Defined? && old(Valid()) ==> Valid()
    {
      var path := contentRoot + modelFilename;
      if path !in content.Models {
        return Defined(false);
      }
      var file := content.Models[path];
      var header := file.Header;
      if header.Signature != ModelSignature {
        return Defined(false);
      }
      TheScene := Some(RenderScene(header.NumVertices, header.NumIndices, []));
      if !vertexBufferOk || !indexBufferOk {
        return Defined(false);
      }
      ghost var load := PartLoaderFor(contentRoot, content.Textures, TextureSignature);
      PartLoaderForLoads(contentRoot, content.Textures, TextureSignature);
      r := AddObjects(contentRoot, ObjectsRead(file), content.Textures, load);
    }

    /** The object and part loops, pushing each object onto the scene once it is complete. */
    method AddObjects(contentRoot: seq<char>, objs: seq<ReaderObject>, textures: map<seq<char>, TextureFile>,
                      ghost load: PartLoader) returns (r: Outcome<bool>)
      requires LoadsParts(load, contentRoot, textures, TextureSignature)
      requires TheScene.Some? && TheScene.value.Objects == []
      modifies this
      ensures var spec := ObjectsSpec(old(Cache), objs, load);
        && (r.Defined? <==> spec.Defined?)
        && (r.Defined? ==> r.value == spec.value.Ok && Cache == spec.value.Cache
                           && TheScene == Some(old(TheScene.value).(Objects := spec.value.Objects)))
      ensures r.Defined? && old(Valid()) ==> Valid()
    {
      ghost var total := ObjectsSpec(Cache, objs, load);
      if Valid() && total.Defined? {
        ObjectsSpecKeepsCache(Cache, objs, load, contentRoot, textures, TextureSignature);
      }
      var scene := TheScene.value;
      assert ObjectsPrefixed(scene.Objects, total) == total by {
        if total.Defined? {
          assert [] + total.value.Objects == total.value.Objects;
        }
      }
      var i := 0;
      while i < |objs|
        invariant i <= |objs|
        invariant TheScene == Some(scene)
        invariant ObjectsPrefixed(scene.Objects, ObjectsSpec(Cache, objs[i..], load)) == total
        invariant scene.VertexCount == old(TheScene.value.VertexCount) && scene.IndexCount == old(TheScene.value.IndexCount)
      {
        var obj := objs[i];
        ObjectsStep(scene.Objects, Cache, objs, i, load);
        var m := BuildMeshes(Cache, contentRoot, obj.Parts, textures, TextureSignature, load);
        if m.Undefined? {
          return Undefined;
        }
        Cache := m.value.Cache;
        if !m.value.Ok {
          return Defined(false);
        }
        var meshes := m.value.Meshes;
        scene := scene.(Objects := scene.Objects + [RenderObject(CStr(obj.Name), meshes)]);
        TheScene := Some(scene);
        i := i + 1;
      }
      assert objs[|objs|..] == [];
      assert scene.Objects + [] == scene.Objects;
      r := Defined(true);
    }
  }
}
