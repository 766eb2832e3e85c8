/** `AssetType` and `SourceAsset` (`Assets.h`). */
module AssetTypes {
  import opened StringHelpers

  /** The two kinds of source asset; `Model` is 0. */
  datatype AssetType = Model | Texture

  function AssetTypeValue(t: AssetType): (v: nat)
    ensures v < 2
    ensures v == 0 <==> t == Model
  {
    match t
    case Model => 0
    case Texture => 1
  }

  /** The extension `ProcessAssets` gives the output of each kind. */
  function Extension(t: AssetType): (e: seq<char>)
    ensures '.' !in e && '/' !in e && e != []
  {
    match t
    case Model => "model"
    case Texture => "texture"
  }

  /** A source asset: its kind and its path relative to the source root. */
  datatype SourceAsset = SourceAsset(Type: AssetType, Path: seq<char>)

  /** The asset the `SourceAsset(type, path)` constructor builds. */
  function SourceAssetOf(t: AssetType, path: seq<char>): SourceAsset
  {
    SourceAsset(t, NormalizedSlashes(path))
  }

  /**
   * The `SourceAsset` constructor: the path is taken over and every backslash in it is
   * replaced by a forward slash, one character at a time.
   */
  method NewSourceAsset(t: AssetType, path: seq<char>) returns (a: SourceAsset)
    ensures a.Type == t && |a.Path| == |path|
    ensures forall i :: 0 <= i < |path| ==> a.Path[i] == (if path[i] == '\\' then '/' else path[i])
    ensures '\\' !in a.Path && NormalizedSlashes(a.Path) == a.Path
    ensures a == SourceAssetOf(t, path)
  {
    var p := path;
    var i := 0;
    while i < |p|
      invariant 0 <= i <= |p| == |path|
      invariant forall k :: 0 <= k < i ==> p[k] == Slash(path[k])
      invariant forall k :: i <= k < |p| ==> p[k] == path[k]
    {
      if p[i] == '\\' {
        p := p[i := '/'];
      }
      i := i + 1;
    }
    a := SourceAsset(t, p);
    NormalizedSlashesProperties(p);
  }
}
