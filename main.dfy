/**
 * `wmain` of the asset loader (`Main.cpp`): the exit code it selects, the config file it
 * reads, the standardised roots and the run of `ProcessAssets`, whose result is ignored.
 * Whether COM initialises is given as `comOk`.
 */
module AssetLoaderMain {
  import opened Common
  import opened StringHelpers
  import opened AssetTypes
  import opened ObjScene
  import opened FileSystem
  import opened ModelWriter
  import opened Config
  import opened Assets

  /** The config file read when the command line names none. */
  const DEFAULT_CONFIG: seq<char> := "AssetLoader.cfg"

  /** A root as `wmain` standardises it: forward slashes only, ending in `/` unless empty. */
  function Root(root: seq<char>): (r: seq<char>)
    ensures '\\' !in r
    ensures root == [] <==> r == []
    ensures r != [] ==> r[|r| - 1] == '/'
    ensures |r| == |root| || |r| == |root| + 1
    ensures forall i :: 0 <= i < |root| ==> r[i] == Slash(root[i])
  {
    NormalizedSlashesProperties(root);
    EnsureTrailingSlash(NormalizedSlashes(root))
  }

  /** Standardising a standardised root changes nothing. */
  lemma {:induction false} RootIdempotent(root: seq<char>)
    ensures Root(Root(root)) == Root(root)
  {
    var r := Root(root);
    NormalizedSlashesProperties(r);
    assert NormalizedSlashes(r) == r;
    EnsureTrailingSlashIdempotent(NormalizedSlashes(root));
  }

  /** `NormalizeSlashes(root); EnsureTrailingSlash(root);` on the string in place. */
  method StandardizeRoot(root: seq<char>) returns (r: seq<char>)
    ensures r == Root(root)
  {
    var chars := new char[|root|](i requires 0 <= i < |root| => root[i]);
    assert chars[..] == root;
    NormalizeSlashes(chars);
    r := chars[..];
    if |r| > 0 && r[|r| - 1] != '/' {
      r := r + ['/'];
    }
  }

  /** The config file `wmain` reads: `argv[1]` when given, else the default. */
  function ConfigFilename(args: seq<seq<char>>): seq<char>
  {
    if |args| > 1 then args[1] else DEFAULT_CONFIG
  }

  /**
   * `wmain(argc, argv)`: -1 when COM fails, -2 when `argv[1]` names nothing, -3 when the
   * config cannot be read, else 0 after processing every configured asset.
   */
  function MainSpec(nodes: Nodes, now: FileTime, args: seq<seq<char>>, comOk: bool, builds: TextureBuilds,
                    toWriter: Scene -> WriterModel): Outcome<(int, Nodes)>
  {
    if !comOk then Defined((-1, nodes))
    else if |args| > 1 && args[1] !in nodes then Defined((-2, nodes))
    else match ReadConfigSpec(ConfigFilename(args), TextFiles(nodes), NoConfig)
      case None => Defined((-3, nodes))
      case Some(st) =>
        match ProcessSpec(nodes, now, Root(st.SourceRoot), Root(st.OutputRoot), st.Assets, builds, toWriter)
        case Undefined => Undefined
        case Defined((_, processed)) => Defined((0, processed))
  }

  method WMain(fs: FileSystem, args: seq<seq<char>>, comOk: bool, builds: TextureBuilds,
               toWriter: Scene -> WriterModel) returns (r: Outcome<int>)
    modifies fs
    ensures r.Defined? <==> MainSpec(old(fs.Nodes), fs.Now, args, comOk, builds, toWriter).Defined?
    ensures r.Defined? ==> (r.value, fs.Nodes) == MainSpec(old(fs.Nodes), fs.Now, args, comOk, builds, toWriter).value
  {
    if !comOk {
      return Defined(-1);
    }
    var configFilename := DEFAULT_CONFIG;
    if |args| > 1 {
      if args[1] !in fs.Nodes {
        return Defined(-2);
      }
      configFilename := args[1];
    }
    var ok, st := ReadConfig(configFilename, TextFiles(fs.Nodes), NoConfig);
    if !ok {
      return Defined(-3);
    }
    var sourceRoot := StandardizeRoot(st.SourceRoot);
    var outputRoot := StandardizeRoot(st.OutputRoot);
    var processed := ProcessAssets(fs, sourceRoot, outputRoot, st.Assets, builds, toWriter);
    if processed.Undefined? {
      return Undefined;
    }
    r := Defined(0);
  }

  /**
   * The exit code is one of four, each for exactly its cause; every code but 0 leaves the
   * file system alone, and 0 does not depend on whether the assets were processed.
   */
  lemma ExitCodes(nodes: Nodes, now: FileTime, args: seq<seq<char>>, comOk: bool, builds: TextureBuilds,
                  toWriter: Scene -> WriterModel)
    requires MainSpec(nodes, now, args, comOk, builds, toWriter).Defined?
    ensures var (code, after) := MainSpec(nodes, now, args, comOk, builds, toWriter).value;
      && (code == -1 <==> !comOk)
      && (code == -2 <==> comOk && |args| > 1 && args[1] !in nodes)
      && (code == -3 <==> comOk && (|args| <= 1 || args[1] in nodes) && ConfigFilename(args) !in TextFiles(nodes))
      && (code == 0 <==> comOk && (|args| <= 1 || args[1] in nodes) && ConfigFilename(args) in TextFiles(nodes))
      && (code != 0 ==> after == nodes)
  {
  }

  /** A run that stops at a failing asset still exits with 0, with what was written so far. */
  lemma ProcessResultIgnored(nodes: Nodes, now: FileTime, args: seq<seq<char>>, builds: TextureBuilds,
                             toWriter: Scene -> WriterModel, st: ConfigState, after: Nodes)
    requires |args| <= 1 || args[1] in nodes
    requires ReadConfigSpec(ConfigFilename(args), TextFiles(nodes), NoConfig) == Some(st)
    requires ProcessSpec(nodes, now, Root(st.SourceRoot), Root(st.OutputRoot), st.Assets, builds, toWriter) == Defined((false, after))
    ensures MainSpec(nodes, now, args, true, builds, toWriter) == Defined((0, after))
  {
  }
}
