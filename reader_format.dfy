/**
 * The model container as the renderer's readers (`ContentLoader::LoadObject`,
 * `TestRenderer::AddMeshes`) read it, and what both do with one part's three texture
 * slots. This is a newer layout than the one `SaveModel` writes: its header carries vertex
 * and index counts and its parts index ranges and three texture names. That header is
 * not part of the sources, so its signature constant is given to each reader.
 */
module ReaderFormat {
  import opened Common
  import opened TextureLoading
  import opened TextureCaching

  datatype ReaderHeader = ReaderHeader(Signature: uint32, NumVertices: uint32, NumIndices: uint32, NumObjects: uint32)

  datatype ReaderPart = ReaderPart(DiffuseTexture: seq<char>, NormalTexture: seq<char>, SpecularTexture: seq<char>,
                                   StartIndex: uint32, NumIndices: uint32)

  /** An object record and the part records that follow it. */
  datatype ReaderObject = ReaderObject(Name: seq<char>, Parts: seq<ReaderPart>)

  /** A model file: its header and its object records, in file order. */
  datatype ReaderFile = ReaderFile(Header: ReaderHeader, Objects: seq<ReaderObject>)

  /** The files the readers can open: model files and texture files, by full path. */
  datatype ContentFiles = ContentFiles(Models: map<seq<char>, ReaderFile>, Textures: map<seq<char>, TextureFile>)

  /** A record read past the end of the file stays zero-initialised: no name, no parts. */
  const ZeroObject: ReaderObject := ReaderObject([], [])

  function ObjectAt(f: ReaderFile, i: int): ReaderObject
  {
    if 0 <= i < |f.Objects| then f.Objects[i] else ZeroObject
  }

  /** The objects `for (int iObj = 0; iObj < (int)header.NumObjects; ++iObj)` reads. */
  function ObjectsRead(f: ReaderFile): (objs: seq<ReaderObject>)
    ensures |objs| == LoopCount(f.Header.NumObjects)
    ensures forall i :: 0 <= i < |objs| ==> objs[i] == ObjectAt(f, i)
  {
    seq(LoopCount(f.Header.NumObjects), i => ObjectAt(f, i))
  }

  /** The file at `path` when it opens and its header has the expected signature. */
  function OpenModel(content: ContentFiles, path: seq<char>, signature: uint32): (f: Option<ReaderFile>)
    ensures f.Some? <==> path in content.Models && content.Models[path].Header.Signature == signature
    ensures f.Some? ==> f.value == content.Models[path]
  {
    if path in content.Models && content.Models[path].Header.Signature == signature then Some(content.Models[path]) else None
  }

  /** All part records of `objs`, in file order. */
  function Flatten(objs: seq<ReaderObject>): seq<ReaderPart>
  {
    if objs == [] then [] else objs[0].Parts + Flatten(objs[1..])
  }

  /** The records of the objects from `i` on: those of object `i`, then those after it. */
  lemma FlattenFrom(objs: seq<ReaderObject>, i: nat)
    requires i < |objs|
    ensures Flatten(objs[i..]) == objs[i].Parts + Flatten(objs[i + 1..])
  {
    assert objs[i..][0] == objs[i] && objs[i..][1..] == objs[i + 1..];
  }

  /** The three slots of one part, the views they got and the cache after them. */
  datatype PartTextures = PartTextures(Ok: bool, Diffuse: Option<TextureView>, Normal: Option<TextureView>,
                                       Specular: Option<TextureView>, Cache: CacheState)

  /**
   * The diffuse, normal and specular slots of a part, in that order; the first slot that
   * fails stops the part (and the reader), later slots untouched.
   */
  function PartTexturesSpec(c: CacheState, root: seq<char>, part: ReaderPart, textures: map<seq<char>, TextureFile>,
                            signature: uint32): Outcome<PartTextures>
  {
    match SlotSpec(c, root, part.DiffuseTexture, textures, signature)
    case Undefined => Undefined
    case Defined(d) =>
      if !d.Ok then Defined(PartTextures(false, None, None, None, d.Cache))
      else match SlotSpec(d.Cache, root, part.NormalTexture, textures, signature)
        case Undefined => Undefined
        case Defined(n) =>
          if !n.Ok then Defined(PartTextures(false, d.View, None, None, n.Cache))
          else match SlotSpec(n.Cache, root, part.SpecularTexture, textures, signature)
            case Undefined => Undefined
            case Defined(s) => Defined(PartTextures(s.Ok, d.View, n.View, s.View, s.Cache))
  }

  method LoadPartTextures(c: CacheState, root: seq<char>, part: ReaderPart, textures: map<seq<char>, TextureFile>,
                          signature: uint32) returns (r: Outcome<PartTextures>)
    ensures r == PartTexturesSpec(c, root, part, textures, signature)
  {
    var d := ResolveSlot(c, root, part.DiffuseTexture, textures, signature);
    if d.Undefined? {
      return Undefined;
    }
    if !d.value.Ok {
      return Defined(PartTextures(false, None, None, None, d.value.Cache));
    }
    var n := ResolveSlot(d.value.Cache, root, part.NormalTexture, textures, signature);
    if n.Undefined? {
      return Undefined;
    }
    if !n.value.Ok {
      return Defined(PartTextures(false, d.value.View, None, None, n.value.Cache));
    }
    var s := ResolveSlot(n.value.Cache, root, part.SpecularTexture, textures, signature);
    if s.Undefined? {
      return Undefined;
    }
    r := Defined(PartTextures(s.value.Ok, d.value.View, n.value.View, s.value.View, s.value.Cache));
  }

  /** A part succeeds exactly when each slot has got a view for exactly a non-empty name. */
  lemma PartTexturesViews(c: CacheState, root: seq<char>, part: ReaderPart, textures: map<seq<char>, TextureFile>,
                          signature: uint32)
    requires PartTexturesSpec(c, root, part, textures, signature).Defined?
    ensures var t := PartTexturesSpec(c, root, part, textures, signature).value;
      t.Ok <==> HasView(part.DiffuseTexture, t.Diffuse) && HasView(part.NormalTexture, t.Normal)
                && HasView(part.SpecularTexture, t.Specular)
  {
    var d := SlotSpec(c, root, part.DiffuseTexture, textures, signature).value;
    SlotOutcome(c, root, part.DiffuseTexture, textures, signature);
    if d.Ok {
      var n := SlotSpec(d.Cache, root, part.NormalTexture, textures, signature).value;
      SlotOutcome(d.Cache, root, part.NormalTexture, textures, signature);
      if n.Ok {
        SlotOutcome(n.Cache, root, part.SpecularTexture, textures, signature);
      }
    }
  }

  /** The slots of a part keep the cache valid and only grow it. */
  lemma PartTexturesKeepCache(c: CacheState, root: seq<char>, part: ReaderPart, textures: map<seq<char>, TextureFile>,
                              signature: uint32)
    requires CacheValid(c)
    requires PartTexturesSpec(c, root, part, textures, signature).Defined?
    ensures var t := PartTexturesSpec(c, root, part, textures, signature).value;
      CacheValid(t.Cache) && Grows(c, t.Cache)
  {
    var d := SlotSpec(c, root, part.DiffuseTexture, textures, signature).value;
    SlotKeepsCache(c, root, part.DiffuseTexture, textures, signature);
    if d.Ok {
      var n := SlotSpec(d.Cache, root, part.NormalTexture, textures, signature).value;
      SlotKeepsCache(d.Cache, root, part.NormalTexture, textures, signature);
      GrowsTransitive(c, d.Cache, n.Cache);
      if n.Ok {
        var s := SlotSpec(n.Cache, root, part.SpecularTexture, textures, signature).value;
        SlotKeepsCache(n.Cache, root, part.SpecularTexture, textures, signature);
        GrowsTransitive(c, n.Cache, s.Cache);
      }
    }
  }

  /** The texture slots of a part as a step of a reader's part loop. */
  type PartLoader = (CacheState, ReaderPart) -> Outcome<PartTextures>

  function PartLoaderFor(root: seq<char>, textures: map<seq<char>, TextureFile>, signature: uint32): PartLoader
  {
    (c, part) => PartTexturesSpec(c, root, part, textures, signature)
  }

  /** `load` resolves the slots of every part against `root`, `textures` and `signature`. */
  ghost predicate LoadsParts(load: PartLoader, root: seq<char>, textures: map<seq<char>, TextureFile>, signature: uint32)
  {
    forall c, part {:trigger PartTexturesSpec(c, root, part, textures, signature)} :: load(c, part) == PartTexturesSpec(c, root, part, textures, signature)
  }

  lemma PartLoaderForLoads(root: seq<char>, textures: map<seq<char>, TextureFile>, signature: uint32)
    ensures LoadsParts(PartLoaderFor(root, textures, signature), root, textures, signature)
  {
  }

  /** A slot that loaded what its name asks for: a view exactly when the name is not empty. */
  predicate HasView(name: seq<char>, view: Option<TextureView>)
  {
    (Crt.CStr(name) == []) == view.None?
  }
}
