/**
 * The path-keyed texture cache (`CachedTextureMap`) of the content readers and one texture
 * slot of a model part: an empty name loads nothing, a cached path reuses its view, and
 * any other path is loaded and then cached. The cache is a value here; each reader class
 * keeps one as a field.
 */
module TextureCaching {
  import opened Common
  import opened Crt
  import opened TextureLoading

  /** A shader resource view: the texture it shows and which of the cache's loads created it. */
  datatype TextureView = TextureView(Id: nat, Path: seq<char>, Texture: LoadedTexture)

  /** The map, and the paths whose textures were loaded, in load order. */
  datatype CacheState = CacheState(Views: map<seq<char>, TextureView>, Loaded: seq<seq<char>>)

  const EmptyCache: CacheState := CacheState(map[], [])

  /**
   * Every cached path was loaded exactly once, by the load its view records, and every
   * loaded path is cached.
   */
  ghost predicate CacheValid(c: CacheState)
  {
    && NoDuplicates(c.Loaded)
    && (forall p :: p in c.Views <==> p in c.Loaded)
    && (forall p :: p in c.Views ==> c.Views[p].Path == p && c.Views[p].Id < |c.Loaded| && c.Loaded[c.Views[p].Id] == p)
  }

  /**
   * `CachedTextureMap.find(path)`, then on a miss `LoadTexture(path, ...)` and
   * `CachedTextureMap[path] = view`: the view (`None` when the load fails) and the new cache.
   */
  function AcquireSpec(c: CacheState, path: seq<char>, textures: map<seq<char>, TextureFile>, signature: uint32)
    : Outcome<(Option<TextureView>, CacheState)>
  {
    if path in c.Views then Defined((Some(c.Views[path]), c))
    else match LoadTextureSpec(textures, path, signature)
      case Undefined => Undefined
      case Defined(None) => Defined((None, c))
      case Defined(Some(t)) =>
        var view := TextureView(|c.Loaded|, path, t);
        Defined((Some(view), CacheState(c.Views[path := view], c.Loaded + [path])))
  }

  /** The outcome of one texture slot of a part: whether to go on, the view it got, the cache after it. */
  datatype SlotResult = SlotResult(Ok: bool, View: Option<TextureView>, Cache: CacheState)

  /** `if (part.XTexture[0] != 0) { path = root + part.XTexture; ... }`. */
  function SlotSpec(c: CacheState, root: seq<char>, name: seq<char>, textures: map<seq<char>, TextureFile>, signature: uint32)
    : Outcome<SlotResult>
  {
    var file := CStr(name);
    if file == [] then Defined(SlotResult(true, None, c))
    else match AcquireSpec(c, root + file, textures, signature)
      case Undefined => Undefined
      case Defined((view, after)) => Defined(SlotResult(view.Some?, view, after))
  }

  /** One slot, as each reader runs it: the lookup, and the load and insertion on a miss. */
  method ResolveSlot(c: CacheState, root: seq<char>, name: seq<char>, textures: map<seq<char>, TextureFile>, signature: uint32)
    returns (r: Outcome<SlotResult>)
    ensures r == SlotSpec(c, root, name, textures, signature)
  {
    var file := CStr(name);
    if file == [] {
      return Defined(SlotResult(true, None, c));
    }
    var path := root + file;
    if path in c.Views {
      return Defined(SlotResult(true, Some(c.Views[path]), c));
    }
    var loaded := LoadTexture(textures, path, signature);
    match loaded
    case Undefined =>
      r := Undefined;
    case Defined(None) =>
      r := Defined(SlotResult(false, None, c));
    case Defined(Some(t)) =>
      var view := TextureView(|c.Loaded|, path, t);
      r := Defined(SlotResult(true, Some(view), CacheState(c.Views[path := view], c.Loaded + [path])));
  }

  /** The cache only grows: what it held stays, and the load log is extended. */
  predicate Grows(c: CacheState, d: CacheState)
  {
    && (forall p :: p in c.Views ==> p in d.Views && d.Views[p] == c.Views[p])
    && |c.Loaded| <= |d.Loaded| && d.Loaded[..|c.Loaded|] == c.Loaded
  }

  lemma GrowsTransitive(a: CacheState, b: CacheState, c: CacheState)
    requires Grows(a, b) && Grows(b, c)
    ensures Grows(a, c)
  {
    assert c.Loaded[..|a.Loaded|] == c.Loaded[..|b.Loaded|][..|a.Loaded|];
  }

  /**
   * A lookup keeps the cache valid and only grows it. A cached path is answered from the
   * cache with nothing loaded; a miss loads at most that one path, and caches it exactly
   * when the load succeeds, so no path is ever loaded twice.
   */
  lemma AcquireKeepsCache(c: CacheState, path: seq<char>, textures: map<seq<char>, TextureFile>, signature: uint32)
    requires CacheValid(c)
    requires AcquireSpec(c, path, textures, signature).Defined?
    ensures var (view, d) := AcquireSpec(c, path, textures, signature).value;
      && CacheValid(d) && Grows(c, d)
      && (path in c.Views ==> view == Some(c.Views[path]) && d == c)
      && (path !in c.Views ==> (view.Some? <==> d.Loaded == c.Loaded + [path]) && (view.None? ==> d == c))
      && (view.Some? ==> path in d.Views && d.Views[path] == view.value && view.value.Path == path)
  {
    var (view, d) := AcquireSpec(c, path, textures, signature).value;
    if path !in c.Views && view.Some? {
      assert d.Loaded == c.Loaded + [path];
      assert path !in c.Loaded;
      forall i, j | 0 <= i < j < |d.Loaded|
        ensures d.Loaded[i] != d.Loaded[j]
      {
        if j == |c.Loaded| {
          assert c.Loaded[i] in c.Loaded;
        } else {
          assert d.Loaded[i] == c.Loaded[i] && d.Loaded[j] == c.Loaded[j];
        }
      }
      forall p | p in d.Views
        ensures d.Views[p].Path == p && d.Views[p].Id < |d.Loaded| && d.Loaded[d.Views[p].Id] == p
      {
        if p != path {
          assert d.Loaded[c.Views[p].Id] == c.Loaded[c.Views[p].Id];
        }
      }
      forall p
        ensures p in d.Views <==> p in d.Loaded
      {
        assert p in d.Loaded <==> p in c.Loaded || p == path;
      }
      assert d.Loaded[..|c.Loaded|] == c.Loaded;
    }
  }

  /**
   * A slot with an empty name loads nothing and leaves the cache alone; one with a name
   * looks up `root + name`; a slot fails exactly when its texture could not be loaded.
   */
  lemma SlotOutcome(c: CacheState, root: seq<char>, name: seq<char>, textures: map<seq<char>, TextureFile>, signature: uint32)
    requires SlotSpec(c, root, name, textures, signature).Defined?
    ensures var s := SlotSpec(c, root, name, textures, signature).value;
      && (s.Ok <==> CStr(name) == [] || s.View.Some?)
      && (CStr(name) == [] ==> s == SlotResult(true, None, c))
      && (CStr(name) != [] ==> (s.View, s.Cache) == AcquireSpec(c, root + CStr(name), textures, signature).value)
  {
  }

  /** Either way a slot keeps the cache valid and only grows it. */
  lemma SlotKeepsCache(c: CacheState, root: seq<char>, name: seq<char>, textures: map<seq<char>, TextureFile>, signature: uint32)
    requires CacheValid(c)
    requires SlotSpec(c, root, name, textures, signature).Defined?
    ensures var s := SlotSpec(c, root, name, textures, signature).value;
      CacheValid(s.Cache) && Grows(c, s.Cache)
  {
    if CStr(name) != [] {
      AcquireKeepsCache(c, root + CStr(name), textures, signature);
    } else {
      assert c.Loaded[..|c.Loaded|] == c.Loaded;
    }
  }
}
