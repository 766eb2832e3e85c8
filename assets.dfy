/**
 * The build orchestration of `Assets.cpp` over the abstract file system: the output name
 * of each asset, the staleness test against its `.time` file, the creation of the output
 * directories, the model build and the time stamp, and the loop over all assets that
 * stops at the first failure.
 *
 * `BuildAsset`, which `SaveModel` calls for each diffuse texture, is given as the map of
 * the names it produces; the conversion of a parsed scene to what `SaveModel` reads is
 * given as `toWriter`.
 */
module Assets {
  import opened Common
  import opened StringHelpers
  import opened AssetTypes
  import opened ObjScene
  import opened ObjLoad
  import opened ObjModelClass
  import opened ModelFormat
  import opened FileSystem
  import opened ModelWriter

  /** The output file of an asset: the output root and the asset path with its kind's extension. */
  function OutputFilename(outputRoot: seq<char>, a: SourceAsset): (r: seq<char>)
    ensures |r| > |outputRoot| && r[..|outputRoot|] == outputRoot
  {
    outputRoot + ReplaceExtension(a.Path, Extension(a.Type))
  }

  /** The side file that records the source's last-write time at the last build. */
  function TimeFilename(out: seq<char>): (r: seq<char>)
    ensures r != out && |r| == |out| + 5
  {
    out + ".time"
  }

  // ---------------------------------------------------------------- DoesAssetNeedBuilt

  /**
   * `DoesAssetNeedBuilt`: `None` when it fails (a time file shorter than a `FILETIME`, by
   * the low 32 bits of its size, or no source to compare with), else whether to build.
   * `ReadFile` of the open time file and `GetFileTime` of the open source are taken to succeed.
   */
  function NeedsBuild(nodes: Nodes, src: seq<char>, out: seq<char>): Option<bool>
  {
    var t := TimeFilename(out);
    if out !in nodes || !CanOpen(nodes, t) then Some(true)
    else if ToU32(Size(nodes[t].Data)) < 8 then None
    else if !CanOpen(nodes, src) then None
    else Some(!(nodes[src].WriteTime <= DecodeLE(FirstEight(nodes[t].Data), 8)))
  }

  /** No build is needed exactly when the output exists and its time file records a time no older than the source's. */
  lemma NeedsBuildExactly(nodes: Nodes, src: seq<char>, out: seq<char>)
    ensures NeedsBuild(nodes, src, out) == Some(false) <==>
      var t := TimeFilename(out);
      && out in nodes && CanOpen(nodes, t) && CanOpen(nodes, src)
      && Size(nodes[t].Data) >= 8 && ToU32(Size(nodes[t].Data)) >= 8
      && nodes[src].WriteTime <= DecodeLE(FirstEight(nodes[t].Data), 8)
    ensures NeedsBuild(nodes, src, out).None? <==>
      var t := TimeFilename(out);
      out in nodes && CanOpen(nodes, t) && (ToU32(Size(nodes[t].Data)) < 8 || !CanOpen(nodes, src))
  {
  }

  /** `DoesAssetNeedBuilt`: `needsBuild` is set to true first and cleared only when the source is not newer. */
  method DoesAssetNeedBuilt(fs: FileSystem, src: seq<char>, out: seq<char>) returns (ok: bool, needsBuild: bool)
    ensures ok <==> NeedsBuild(fs.Nodes, src, out).Some?
    ensures ok ==> needsBuild == NeedsBuild(fs.Nodes, src, out).value
    ensures !ok ==> needsBuild
  {
    needsBuild := true;
    ok := true;
    if out in fs.Nodes {
      var timeFilename := out + ".time";
      if CanOpen(fs.Nodes, timeFilename) {
        var timeData := fs.Nodes[timeFilename].Data;
        var fileSize := ToU32(Size(timeData));
        if fileSize < 8 {
          ok := false;
          return;
        }
        var loggedLastWriteTime := DecodeLE(FirstEight(timeData), 8);
        if !CanOpen(fs.Nodes, src) {
          ok := false;
          return;
        }
        var lastWriteTime := fs.Nodes[src].WriteTime;
        if lastWriteTime <= loggedLastWriteTime {
          needsBuild := false;
        }
      }
    }
  }

  // ---------------------------------------------------------------- EnsurePathExists

  /**
   * `EnsurePathExists` from position `i`: each prefix that ends just before a `/` is made a
   * directory, left to right, stopping at the first failure; the scan ends at the end of
   * the path or at a NUL.
   */
  function EnsureDirs(nodes: Nodes, path: seq<char>, i: nat): (bool, Nodes)
    decreases |path| - i
  {
    if i >= |path| || path[i] == '\0' then (true, nodes)
    else if path[i] != '/' then EnsureDirs(nodes, path, i + 1)
    else
      var (ok, made) := MakeDirectory(nodes, path[..i]);
      if !ok then (false, made) else EnsureDirs(made, path, i + 1)
  }

  /**
   * Every existing entry is kept as it was, and every added entry is a directory at a
   * prefix ending just before a `/`; so the last component of the path is never created.
   */
  lemma {:induction false} EnsureDirsOnlyAddsPrefixes(nodes: Nodes, path: seq<char>, i: nat)
    ensures var r := EnsureDirs(nodes, path, i).1;
      && (forall k :: k in nodes ==> k in r && r[k] == nodes[k])
      && (forall k :: k in r && k !in nodes ==>
            r[k] == Directory && exists j :: i <= j < |path| && path[j] == '/' && k == path[..j])
    ensures var r := EnsureDirs(nodes, path, i).1;
      path in r ==> path in nodes && r[path] == nodes[path]
    decreases |path| - i
  {
    if i >= |path| || path[i] == '\0' {
    } else if path[i] != '/' {
      EnsureDirsOnlyAddsPrefixes(nodes, path, i + 1);
    } else {
      var (ok, made) := MakeDirectory(nodes, path[..i]);
      if ok {
        EnsureDirsOnlyAddsPrefixes(made, path, i + 1);
      }
    }
  }

  /** On success, every prefix of a NUL-free path that ends just before a `/` at or after `i` exists. */
  lemma {:induction false} EnsureDirsMakesEveryPrefix(nodes: Nodes, path: seq<char>, i: nat)
    requires '\0' !in path
    ensures EnsureDirs(nodes, path, i).0 ==>
      forall j :: i <= j < |path| && path[j] == '/' ==> path[..j] in EnsureDirs(nodes, path, i).1
    decreases |path| - i
  {
    if i < |path| {
      if path[i] != '/' {
        EnsureDirsMakesEveryPrefix(nodes, path, i + 1);
      } else {
        var (ok, made) := MakeDirectory(nodes, path[..i]);
        if ok {
          EnsureDirsMakesEveryPrefix(made, path, i + 1);
          EnsureDirsOnlyAddsPrefixes(made, path, i + 1);
        }
      }
    }
  }

  /**
   * After a successful `EnsurePathExists`, a file can be placed at the path, unless one of
   * its directory prefixes already existed as a file.
   */
  lemma EnsuredParentReady(nodes: Nodes, path: seq<char>)
    requires '\0' !in path
    requires forall j :: 0 <= j < |path| && path[j] == '/' && path[..j] in nodes ==> nodes[path[..j]].Directory?
    requires EnsureDirs(nodes, path, 0).0
    ensures ParentReady(EnsureDirs(nodes, path, 0).1, path)
  {
    var r := EnsureDirs(nodes, path, 0).1;
    var d := ParentOf(path);
    if d != [] {
      EnsureDirsMakesEveryPrefix(nodes, path, 0);
      EnsureDirsOnlyAddsPrefixes(nodes, path, 0);
      assert path[..|d|] in r;
    }
  }

  /** `EnsurePathExists`: the `char*` scan, with the directory creations it issues in order. */
  method EnsurePathExists(fs: FileSystem, path: seq<char>) returns (ok: bool)
    modifies fs
    ensures (ok, fs.Nodes) == EnsureDirs(old(fs.Nodes), path, 0)
  {
    var p := 0;
    while p < |path| && path[p] != '\0'
      invariant p <= |path|
      invariant EnsureDirs(fs.Nodes, path, p) == EnsureDirs(old(fs.Nodes), path, 0)
      decreases |path| - p
    {
      while p < |path| && path[p] != '/' && path[p] != '\0'
        invariant p <= |path|
        invariant EnsureDirs(fs.Nodes, path, p) == EnsureDirs(old(fs.Nodes), path, 0)
        decreases |path| - p
      {
        p := p + 1;
      }
      if p == |path| || path[p] == '\0' {
        break;
      }
      var subPath := path[..p];
      ok := fs.CreateDirectory(subPath);
      if !ok {
        return;
      }
      p := p + 1;
    }
    ok := true;
  }

  // ---------------------------------------------------------------- BuildModel

  /**
   * `BuildModel`: parse the source (a parse failure is only logged) and save what was
   * parsed; the result is that of `SaveModel`.
   */
  function BuildSpec(nodes: Nodes, now: FileTime, src: seq<char>, out: seq<char>, builds: TextureBuilds,
                     toWriter: Scene -> WriterModel): Outcome<(bool, Nodes)>
  {
    match LoadSpec(EmptyScene, src, TextFiles(nodes))
    case Undefined => Undefined
    case Defined((_, scene)) => SaveSpec(nodes, now, toWriter(scene), out, builds)
  }

  method BuildModel(fs: FileSystem, src: seq<char>, out: seq<char>, builds: TextureBuilds,
                    toWriter: Scene -> WriterModel) returns (r: Outcome<bool>)
    modifies fs
    ensures r.Defined? <==> BuildSpec(old(fs.Nodes), fs.Now, src, out, builds, toWriter).Defined?
    ensures r.Defined? ==> (r.value, fs.Nodes) == BuildSpec(old(fs.Nodes), fs.Now, src, out, builds, toWriter).value
  {
    var objModel := new ObjModel();
    var parsed := objModel.Load(src, TextFiles(fs.Nodes));
    if parsed.Undefined? {
      return Undefined;
    }
    r := SaveModel(fs, toWriter(objModel.Snapshot()), out, builds);
  }

  // ---------------------------------------------------------------- WriteTimeEntry

  /**
   * `WriteTimeEntry`: the time file is created (emptied) first; when the source then opens,
   * its last-write time is written as the file's eight bytes.
   */
  function TimeEntrySpec(nodes: Nodes, now: FileTime, src: seq<char>, out: seq<char>): (bool, Nodes)
  {
    var t := TimeFilename(out);
    if !CanCreate(nodes, t) then (false, nodes)
    else
      var created := nodes[t := File(Bytes([]), now)];
      if !CanOpen(created, src) then (false, created)
      else (true, nodes[t := File(Bytes(EncodeFileTime(created[src].WriteTime)), now)])
  }

  method WriteTimeEntry(fs: FileSystem, src: seq<char>, out: seq<char>) returns (ok: bool)
    modifies fs
    ensures (ok, fs.Nodes) == TimeEntrySpec(old(fs.Nodes), fs.Now, src, out)
  {
    var timeFilename := out + ".time";
    ok := fs.CreateEmpty(timeFilename);
    if !ok {
      return;
    }
    if !CanOpen(fs.Nodes, src) {
      ok := false;
      return;
    }
    var lastWriteTime := fs.Nodes[src].WriteTime;
    assert [] + EncodeFileTime(lastWriteTime) == EncodeFileTime(lastWriteTime);
    fs.AppendBytes(timeFilename, EncodeFileTime(lastWriteTime));
    assert fs.Nodes == old(fs.Nodes)[timeFilename := File(Bytes(EncodeFileTime(lastWriteTime)), fs.Now)];
    ok := true;
  }

  /**
   * Right after a successful time entry, an unchanged source whose output exists needs no
   * build: the logged time is the source's and the test is "not newer".
   */
  lemma TimeEntryMakesUpToDate(nodes: Nodes, now: FileTime, src: seq<char>, out: seq<char>)
    requires src != TimeFilename(out) && out in nodes
    requires TimeEntrySpec(nodes, now, src, out).0
    ensures NeedsBuild(TimeEntrySpec(nodes, now, src, out).1, src, out) == Some(false)
  {
    var t := TimeFilename(out);
    var r := TimeEntrySpec(nodes, now, src, out).1;
    var stamp := EncodeFileTime(nodes[src].WriteTime);
    assert r[t] == File(Bytes(stamp), now);
    assert FirstEight(r[t].Data) == stamp + [];
    FileTimeRoundTrip(nodes[src].WriteTime, []);
  }

  // ---------------------------------------------------------------- ProcessAssets

  /**
   * One turn of the `ProcessAssets` loop: `(true, _)` to go on with the next asset,
   * `(false, _)` when it returns false. An up-to-date asset is skipped; a texture is not
   * built (only logged as unimplemented) but still gets its time entry.
   */
  function AssetStep(nodes: Nodes, now: FileTime, sourceRoot: seq<char>, outputRoot: seq<char>, a: SourceAsset,
                     builds: TextureBuilds, toWriter: Scene -> WriterModel): Outcome<(bool, Nodes)>
  {
    var src := sourceRoot + a.Path;
    var out := OutputFilename(outputRoot, a);
    match NeedsBuild(nodes, src, out)
    case None => Defined((false, nodes))
    case Some(needsBuild) =>
      if !needsBuild then Defined((true, nodes))
      else
        var (made, ready) := EnsureDirs(nodes, out, 0);
        if !made then Defined((false, ready))
        else
          var built := if a.Type == Model then BuildSpec(ready, now, src, out, builds, toWriter) else Defined((true, ready));
          match built
          case Undefined => Undefined
          case Defined((ok, saved)) =>
            if !ok then Defined((false, saved)) else Defined(TimeEntrySpec(saved, now, src, out))
  }

  /** What one turn of the loop does to the file system, for a given configuration. */
  type Step = (Nodes, SourceAsset) -> Outcome<(bool, Nodes)>

  function AssetSteps(now: FileTime, sourceRoot: seq<char>, outputRoot: seq<char>, builds: TextureBuilds,
                      toWriter: Scene -> WriterModel): Step
  {
    (nodes: Nodes, a: SourceAsset) => AssetStep(nodes, now, sourceRoot, outputRoot, a, builds, toWriter)
  }

  /** The loop over `assets` from `i`, with each turn done by `step`: it stops at the first turn that fails. */
  function RunAssets(nodes: Nodes, assets: seq<SourceAsset>, i: nat, step: Step): Outcome<(bool, Nodes)>
    decreases |assets| - i
  {
    if i >= |assets| then Defined((true, nodes))
    else match step(nodes, assets[i])
      case Undefined => Undefined
      case Defined((ok, next)) =>
        if !ok then Defined((false, next)) else RunAssets(next, assets, i + 1, step)
  }

  /** `ProcessAssets(sourceRoot, outputRoot, assets)`: every asset in order, until one fails. */
  function ProcessSpec(nodes: Nodes, now: FileTime, sourceRoot: seq<char>, outputRoot: seq<char>, assets: seq<SourceAsset>,
                       builds: TextureBuilds, toWriter: Scene -> WriterModel): Outcome<(bool, Nodes)>
  {
    RunAssets(nodes, assets, 0, AssetSteps(now, sourceRoot, outputRoot, builds, toWriter))
  }

  /** `step` is the turn of the loop for this configuration. */
  ghost predicate TakesAssetSteps(step: Step, now: FileTime, sourceRoot: seq<char>, outputRoot: seq<char>,
                                  builds: TextureBuilds, toWriter: Scene -> WriterModel)
  {
    forall nodes, a {:trigger AssetStep(nodes, now, sourceRoot, outputRoot, a, builds, toWriter)} ::
      step(nodes, a) == AssetStep(nodes, now, sourceRoot, outputRoot, a, builds, toWriter)
  }

  /** The body of the loop for one asset. */
  method ProcessAsset(fs: FileSystem, sourceRoot: seq<char>, outputRoot: seq<char>, asset: SourceAsset,
                      builds: TextureBuilds, toWriter: Scene -> WriterModel, ghost step: Step) returns (r: Outcome<bool>)
    requires TakesAssetSteps(step, fs.Now, sourceRoot, outputRoot, builds, toWriter)
    modifies fs
    ensures r.Defined? <==> step(old(fs.Nodes), asset).Defined?
    ensures r.Defined? ==> (r.value, fs.Nodes) == step(old(fs.Nodes), asset).value
  {
    ghost var expected := AssetStep(fs.Nodes, fs.Now, sourceRoot, outputRoot, asset, builds, toWriter);
    assert step(fs.Nodes, asset) == expected;
    var assetFilename := sourceRoot + asset.Path;
    var outputFilename := outputRoot + ReplaceExtension(asset.Path, Extension(asset.Type));
    var ok, needsBuild := DoesAssetNeedBuilt(fs, assetFilename, outputFilename);
    if !ok {
      return Defined(false);
    }
    if !needsBuild {
      return Defined(true);
    }
    ok := EnsurePathExists(fs, outputFilename);
    if !ok {
      return Defined(false);
    }
    if asset.Type == Model {
      var built := BuildModel(fs, assetFilename, outputFilename, builds, toWriter);
      if built.Undefined? {
        return Undefined;
      }
      if !built.value {
        return Defined(false);
      }
    }
    ok := WriteTimeEntry(fs, assetFilename, outputFilename);
    r := Defined(ok);
  }

  /** The loop of `ProcessAssets`, with its turn given as `step`. */
  method ProcessLoop(fs: FileSystem, sourceRoot: seq<char>, outputRoot: seq<char>, assets: seq<SourceAsset>,
                     builds: TextureBuilds, toWriter: Scene -> WriterModel, ghost step: Step) returns (r: Outcome<bool>)
    requires TakesAssetSteps(step, fs.Now, sourceRoot, outputRoot, builds, toWriter)
    modifies fs
    ensures r.Defined? <==> RunAssets(old(fs.Nodes), assets, 0, step).Defined?
    ensures r.Defined? ==> (r.value, fs.Nodes) == RunAssets(old(fs.Nodes), assets, 0, step).value
  {
    var i := 0;
    while i < |assets|
      invariant i <= |assets|
      invariant RunAssets(fs.Nodes, assets, i, step) == RunAssets(old(fs.Nodes), assets, 0, step)
      decreases |assets| - i
    {
      r := ProcessAsset(fs, sourceRoot, outputRoot, assets[i], builds, toWriter, step);
      if r != Defined(true) {
        return;
      }
      i := i + 1;
    }
    r := Defined(true);
  }

  /** `ProcessAssets(sourceRoot, outputRoot, assets)`. */
  method ProcessAssets(fs: FileSystem, sourceRoot: seq<char>, outputRoot: seq<char>, assets: seq<SourceAsset>,
                       builds: TextureBuilds, toWriter: Scene -> WriterModel) returns (r: Outcome<bool>)
    modifies fs
    ensures r.Defined? <==> ProcessSpec(old(fs.Nodes), fs.Now, sourceRoot, outputRoot, assets, builds, toWriter).Defined?
    ensures r.Defined? ==> (r.value, fs.Nodes) == ProcessSpec(old(fs.Nodes), fs.Now, sourceRoot, outputRoot, assets, builds, toWriter).value
  {
    r := ProcessLoop(fs, sourceRoot, outputRoot, assets, builds, toWriter, AssetSteps(fs.Now, sourceRoot, outputRoot, builds, toWriter));
  }

  // ---------------------------------------------------------------- properties of a run

  /** An up-to-date asset is skipped: nothing is built, no directory made, no time written. */
  lemma UpToDateSkipped(nodes: Nodes, now: FileTime, sourceRoot: seq<char>, outputRoot: seq<char>, a: SourceAsset,
                        builds: TextureBuilds, toWriter: Scene -> WriterModel)
    requires NeedsBuild(nodes, sourceRoot + a.Path, OutputFilename(outputRoot, a)) == Some(false)
    ensures AssetStep(nodes, now, sourceRoot, outputRoot, a, builds, toWriter) == Defined((true, nodes))
  {
  }

  /** When every asset from `i` on is up to date, the run succeeds and changes nothing. */
  lemma {:induction false} AllUpToDateChangesNothing(nodes: Nodes, now: FileTime, sourceRoot: seq<char>, outputRoot: seq<char>,
                                                     assets: seq<SourceAsset>, builds: TextureBuilds,
                                                     toWriter: Scene -> WriterModel)
    requires forall k :: 0 <= k < |assets| ==>
      NeedsBuild(nodes, sourceRoot + assets[k].Path, OutputFilename(outputRoot, assets[k])) == Some(false)
    ensures ProcessSpec(nodes, now, sourceRoot, outputRoot, assets, builds, toWriter) == Defined((true, nodes))
  {
    var step := AssetSteps(now, sourceRoot, outputRoot, builds, toWriter);
    forall k | 0 <= k < |assets|
      ensures step(nodes, assets[k]) == Defined((true, nodes))
    {
      UpToDateSkipped(nodes, now, sourceRoot, outputRoot, assets[k], builds, toWriter);
    }
    SkippedRunChangesNothing(nodes, assets, 0, step);
  }

  lemma {:induction false} SkippedRunChangesNothing(nodes: Nodes, assets: seq<SourceAsset>, i: nat, step: Step)
    requires forall k :: i <= k < |assets| ==> step(nodes, assets[k]) == Defined((true, nodes))
    ensures RunAssets(nodes, assets, i, step) == Defined((true, nodes))
    decreases |assets| - i
  {
    if i < |assets| {
      SkippedRunChangesNothing(nodes, assets, i + 1, step);
    }
  }

  /** Once the run has failed, the assets after the list it failed in are never looked at. */
  lemma {:induction false} FailureIgnoresLaterAssets(nodes: Nodes, assets: seq<SourceAsset>, more: seq<SourceAsset>, i: nat, step: Step)
    requires RunAssets(nodes, assets, i, step).Defined? && !RunAssets(nodes, assets, i, step).value.0
    ensures RunAssets(nodes, assets + more, i, step) == RunAssets(nodes, assets, i, step)
    decreases |assets| - i
  {
    assert (assets + more)[i] == assets[i];
    var turn := step(nodes, assets[i]);
    if turn.Defined? && turn.value.0 {
      FailureIgnoresLaterAssets(turn.value.1, assets, more, i + 1, step);
    }
  }

  /**
   * A model asset that a turn of the loop leaves in place is up to date afterwards, when
   * its source is not its own time file: either it was skipped, or it was built and
   * stamped with its source's time.
   */
  lemma BuiltModelIsUpToDate(nodes: Nodes, now: FileTime, sourceRoot: seq<char>, outputRoot: seq<char>, a: SourceAsset,
                             builds: TextureBuilds, toWriter: Scene -> WriterModel)
    requires a.Type == Model
    requires sourceRoot + a.Path != TimeFilename(OutputFilename(outputRoot, a))
    requires AssetStep(nodes, now, sourceRoot, outputRoot, a, builds, toWriter).Defined?
    requires AssetStep(nodes, now, sourceRoot, outputRoot, a, builds, toWriter).value.0
    ensures NeedsBuild(AssetStep(nodes, now, sourceRoot, outputRoot, a, builds, toWriter).value.1,
                       sourceRoot + a.Path, OutputFilename(outputRoot, a)) == Some(false)
  {
    var src := sourceRoot + a.Path;
    var out := OutputFilename(outputRoot, a);
    if NeedsBuild(nodes, src, out) == Some(true) {
      var ready := EnsureDirs(nodes, out, 0).1;
      var saved := BuildSpec(ready, now, src, out, builds, toWriter).value.1;
      assert out in saved;
      TimeEntryMakesUpToDate(saved, now, src, out);
    }
  }

  /**
   * A texture's output file is never created, so a texture whose output is missing is
   * still reported as needing a build after its turn, even when the turn succeeds and
   * so has written its time file.
   */
  lemma TextureStaysStale(nodes: Nodes, now: FileTime, sourceRoot: seq<char>, outputRoot: seq<char>, a: SourceAsset,
                          builds: TextureBuilds, toWriter: Scene -> WriterModel)
    requires a.Type == Texture
    requires OutputFilename(outputRoot, a) !in nodes
    requires AssetStep(nodes, now, sourceRoot, outputRoot, a, builds, toWriter).Defined?
    ensures var next := AssetStep(nodes, now, sourceRoot, outputRoot, a, builds, toWriter).value.1;
      OutputFilename(outputRoot, a) !in next
      && NeedsBuild(next, sourceRoot + a.Path, OutputFilename(outputRoot, a)) == Some(true)
    ensures AssetStep(nodes, now, sourceRoot, outputRoot, a, builds, toWriter).value.0 ==>
      TimeFilename(OutputFilename(outputRoot, a)) in AssetStep(nodes, now, sourceRoot, outputRoot, a, builds, toWriter).value.1
  {
    var out := OutputFilename(outputRoot, a);
    EnsureDirsOnlyAddsPrefixes(nodes, out, 0);
  }
}
