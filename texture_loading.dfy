/**
 * `LoadTexture` of the renderer's content readers (`ContentLoader.cpp`, `TestRenderer.cpp`,
 * which share the same code): the signature check, the size of the pixel data, the rule
 * that only square textures use their mip chain, and the layout of the levels in the
 * `init[20]` array handed to the device. The device calls themselves are not modelled.
 */
module TextureLoading {
  import opened Common

  /**
   * The fields of a `TextureHeader` the loaders read. The struct is not part of the
   * sources; the model takes it to be six 32-bit fields.
   */
  datatype TextureHeader = TextureHeader(Signature: uint32, Width: uint32, Height: uint32, MipLevels: uint32,
                                         ArrayCount: uint32, Format: uint32)

  const TEXTURE_HEADER_SIZE: nat := 6 * 4

  /**
   * A texture file as the loaders see it: its header, its size and `BitsPerPixel` of its
   * format (a DirectXTex function, taken as given with the file).
   */
  datatype TextureFile = TextureFile(Header: TextureHeader, FileSize: nat, BitsPerPixel: nat)

  /** The capacity of `init`. */
  const MAX_SUBRESOURCES: nat := 20

  /** An entry of `init`: still zero, or the start, row pitch and slice pitch of one level. */
  datatype Subresource = Unset | Subresource(Offset: nat, Pitch: uint32, SlicePitch: uint32)

  /** `uint32_t pixelDataSize = fileSize - sizeof(TextureHeader)`, in 32 bits. */
  function PixelDataSize(f: TextureFile): uint32
  {
    ToU32(ToU32(f.FileSize) - TEXTURE_HEADER_SIZE)
  }

  /** `(uint32_t)BitsPerPixel(format) / 8`. */
  function Bpp(f: TextureFile): uint32
  {
    ToU32(f.BitsPerPixel) / 8
  }

  /** "Only try to use mips if width & height are the same size". */
  predicate UsesMipChain(h: TextureHeader)
  {
    h.Width == h.Height && h.MipLevels > 1
  }

  /** How often `for (int m = 0; m < (int)n; ++m)` runs: never once `n` is negative as an `int`. */
  function LoopCount(n: uint32): (count: nat)
    ensures count <= n
  {
    if n < 0x8000_0000 then n else 0
  }

  /** One level of `width` by `height` pixels at `offset`, with its pitches in 32 bits. */
  function Level(width: uint32, height: uint32, offset: nat, bpp: uint32): Subresource
  {
    Subresource(offset, ToU32(width * bpp), ToU32(ToU32(width * height) * bpp))
  }

  /** `count` levels from `width` by `height` at `offset`, each halving both sides and starting where the last ended. */
  function MipChain(width: uint32, height: uint32, offset: nat, bpp: uint32, count: nat): (chain: seq<Subresource>)
    ensures |chain| == count && forall k :: 0 <= k < count ==> chain[k].Subresource?
  {
    if count == 0 then []
    else
      var level := Level(width, height, offset, bpp);
      [level] + MipChain(width / 2, height / 2, offset + level.SlicePitch, bpp, count - 1)
  }

  function Unsets(n: nat): (s: seq<Subresource>)
    ensures |s| == n && forall k :: 0 <= k < n ==> s[k] == Unset
  {
    seq(n, _ => Unset)
  }

  /** A side after `k` halvings (`>>= 1`). */
  function Halved(side: uint32, k: nat): uint32
  {
    if k == 0 then side else Halved(side / 2, k - 1)
  }

  /**
   * The `MipLevels` given to the device and the `init` array: the mip chain for a square
   * texture with more than one level, else one level of the whole image. Writing a
   * 21st level overruns `init`.
   */
  function Layout(h: TextureHeader, bpp: uint32): Outcome<(uint32, seq<Subresource>)>
  {
    if UsesMipChain(h) then
      var count := LoopCount(h.MipLevels);
      if count > MAX_SUBRESOURCES then Undefined
      else Defined((h.MipLevels, MipChain(h.Width, h.Height, 0, bpp, count) + Unsets(MAX_SUBRESOURCES - count)))
    else Defined((1, [Level(h.Width, h.Height, 0, bpp)] + Unsets(MAX_SUBRESOURCES - 1)))
  }

  /**
   * Level `k` of a chain has both sides halved `k` times and its pitches from those sides;
   * the first starts at `offset` and each next one right after the slice before it.
   */
  lemma {:induction false} MipChainLevels(width: uint32, height: uint32, offset: nat, bpp: uint32, count: nat)
    ensures var chain := MipChain(width, height, offset, bpp, count);
      && (count > 0 ==> chain[0].Subresource? && chain[0].Offset == offset)
      && (forall k :: 0 <= k < count ==> chain[k] == Level(Halved(width, k), Halved(height, k), chain[k].Offset, bpp))
      && (forall k :: 0 <= k < count - 1 ==> chain[k + 1].Offset == chain[k].Offset + chain[k].SlicePitch)
    decreases count
  {
    if count > 0 {
      var level := Level(width, height, offset, bpp);
      var chain := MipChain(width, height, offset, bpp, count);
      var rest := MipChain(width / 2, height / 2, offset + level.SlicePitch, bpp, count - 1);
      MipChainLevels(width / 2, height / 2, offset + level.SlicePitch, bpp, count - 1);
      assert chain == [level] + rest;
      forall k | 1 <= k < count
        ensures chain[k] == Level(Halved(width, k), Halved(height, k), chain[k].Offset, bpp)
      {
        assert chain[k] == rest[k - 1];
      }
    }
  }

  /**
   * The layout uses exactly its chain's levels and leaves the rest of `init` zero: as many
   * levels as `MipLevels` for a square texture with more than one, else a single level,
   * `MipLevels` forced to 1; it is undefined exactly when more than 20 levels are written.
   */
  lemma LayoutShape(h: TextureHeader, bpp: uint32)
    ensures Layout(h, bpp).Undefined? <==> UsesMipChain(h) && LoopCount(h.MipLevels) > MAX_SUBRESOURCES
    ensures Layout(h, bpp).Defined? ==>
      var (mips, init) := Layout(h, bpp).value;
      var used := if UsesMipChain(h) then LoopCount(h.MipLevels) else 1;
      && |init| == MAX_SUBRESOURCES
      && mips == (if UsesMipChain(h) then h.MipLevels else 1)
      && (forall k :: 0 <= k < used ==> init[k].Subresource?)
      && (forall k :: used <= k < MAX_SUBRESOURCES ==> init[k] == Unset)
      && (!UsesMipChain(h) ==> init[0] == Subresource(0, ToU32(h.Width * bpp), ToU32(ToU32(h.Width * h.Height) * bpp)))
  {
    if UsesMipChain(h) && LoopCount(h.MipLevels) <= MAX_SUBRESOURCES {
      MipChainLevels(h.Width, h.Height, 0, bpp, LoopCount(h.MipLevels));
    }
  }

  /**
   * What the iterations of the `init` loop from `m` on do to `init`: write level `m` and go
   * on with the sides halved, until `count` levels are written; writing at 20 overruns.
   */
  ghost function FillFrom(init: seq<Subresource>, m: nat, width: uint32, height: uint32, offset: nat, bpp: uint32,
                          count: nat): Outcome<seq<Subresource>>
    requires |init| == MAX_SUBRESOURCES
    decreases count - m
  {
    if m >= count then Defined(init)
    else if m >= MAX_SUBRESOURCES then Undefined
    else
      var level := Level(width, height, offset, bpp);
      FillFrom(init[m := level], m + 1, width / 2, height / 2, offset + level.SlicePitch, bpp, count)
  }

  /** The loop from `m` on fills in the rest of the chain after the levels already written, or overruns. */
  lemma {:induction false} FillFromChain(init: seq<Subresource>, m: nat, width: uint32, height: uint32, offset: nat,
                                         bpp: uint32, count: nat)
    requires |init| == MAX_SUBRESOURCES && m <= count && m <= MAX_SUBRESOURCES
    requires forall k :: m <= k < MAX_SUBRESOURCES ==> init[k] == Unset
    ensures count <= MAX_SUBRESOURCES ==>
      FillFrom(init, m, width, height, offset, bpp, count)
      == Defined(init[..m] + MipChain(width, height, offset, bpp, count - m) + Unsets(MAX_SUBRESOURCES - count))
    ensures count > MAX_SUBRESOURCES ==> FillFrom(init, m, width, height, offset, bpp, count) == Undefined
    decreases count - m
  {
    if m == count {
      assert init[m..] == Unsets(MAX_SUBRESOURCES - count);
      assert init == init[..m] + init[m..];
      assert MipChain(width, height, offset, bpp, 0) == [];
      assert init[..m] + [] == init[..m];
    } else if m < MAX_SUBRESOURCES {
      var level := Level(width, height, offset, bpp);
      var next := MipChain(width / 2, height / 2, offset + level.SlicePitch, bpp, count - m - 1);
      var written := init[m := level];
      FillFromChain(written, m + 1, width / 2, height / 2, offset + level.SlicePitch, bpp, count);
      assert written[..m + 1] == init[..m] + [level];
      assert MipChain(width, height, offset, bpp, count - m) == [level] + next;
      assert written[..m + 1] + next == init[..m] + MipChain(width, height, offset, bpp, count - m);
    }
  }

  /** The `init` loop: the levels written in place, halving the sides and advancing the pixel position. */
  method FillMipChain(init: array<Subresource>, width0: uint32, height0: uint32, bpp: uint32, count: nat) returns (written: bool)
    requires init.Length == MAX_SUBRESOURCES && forall k :: 0 <= k < MAX_SUBRESOURCES ==> init[k] == Unset
    modifies init
    ensures written <==> count <= MAX_SUBRESOURCES
    ensures written ==> init[..] == MipChain(width0, height0, 0, bpp, count) + Unsets(MAX_SUBRESOURCES - count)
  {
    ghost var result := FillFrom(init[..], 0, width0, height0, 0, bpp, count);
    FillFromChain(init[..], 0, width0, height0, 0, bpp, count);
    assert init[..][..0] == [];
    var width := width0;
    var height := height0;
    var pixels: nat := 0;
    var m := 0;
    while m < count
      invariant m <= count && m <= MAX_SUBRESOURCES
      invariant FillFrom(init[..], m, width, height, pixels, bpp, count) == result
      decreases count - m
    {
      if m == MAX_SUBRESOURCES {
        return false;
      }
      var level := Level(width, height, pixels, bpp);
      init[m] := level;
      width := width / 2;
      height := height / 2;
      pixels := pixels + level.SlicePitch;
      m := m + 1;
    }
    written := true;
  }

  /** `init` and the `MipLevels` for the device, as `LoadTexture` prepares them. */
  method FillSubresources(h: TextureHeader, bpp: uint32) returns (defined: bool, mipLevels: uint32, init: array<Subresource>)
    ensures fresh(init) && init.Length == MAX_SUBRESOURCES
    ensures defined <==> Layout(h, bpp).Defined?
    ensures defined ==> (mipLevels, init[..]) == Layout(h, bpp).value
  {
    init := new Subresource[MAX_SUBRESOURCES](_ => Unset);
    if h.Width == h.Height && h.MipLevels > 1 {
      defined := FillMipChain(init, h.Width, h.Height, bpp, LoopCount(h.MipLevels));
      mipLevels := h.MipLevels;
    } else {
      init[0] := Level(h.Width, h.Height, 0, bpp);
      assert init[..] == [init[0]] + init[1..];
      assert init[1..] == Unsets(MAX_SUBRESOURCES - 1);
      defined, mipLevels := true, 1;
    }
  }

  /** What a successful `LoadTexture` creates the view of. */
  datatype LoadedTexture = LoadedTexture(Width: uint32, Height: uint32, MipLevels: uint32, ArrayCount: uint32, Format: uint32,
                                         PixelDataSize: uint32, Subresources: seq<Subresource>)

  /**
   * `LoadTexture(filename, &srv)`: `None` (false) when the file does not open or its
   * signature is wrong, else the texture of its header and layout.
   */
  function LoadTextureSpec(files: map<seq<char>, TextureFile>, path: seq<char>, signature: uint32): Outcome<Option<LoadedTexture>>
  {
    if path !in files || files[path].Header.Signature != signature then Defined(None)
    else
      var f := files[path];
      match Layout(f.Header, Bpp(f))
      case Undefined => Undefined
      case Defined((mips, init)) =>
        Defined(Some(LoadedTexture(f.Header.Width, f.Header.Height, mips, f.Header.ArrayCount, f.Header.Format,
                                   PixelDataSize(f), init)))
  }

  method LoadTexture(files: map<seq<char>, TextureFile>, path: seq<char>, signature: uint32) returns (r: Outcome<Option<LoadedTexture>>)
    ensures r == LoadTextureSpec(files, path, signature)
  {
    if path !in files {
      return Defined(None);
    }
    var texFile := files[path];
    var texHeader := texFile.Header;
    if texHeader.Signature != signature {
      return Defined(None);
    }
    var pixelDataSize := PixelDataSize(texFile);
    var bpp := Bpp(texFile);
    var defined, mipLevels, init := FillSubresources(texHeader, bpp);
    if !defined {
      return Undefined;
    }
    r := Defined(Some(LoadedTexture(texHeader.Width, texHeader.Height, mipLevels, texHeader.ArrayCount, texHeader.Format,
                                    pixelDataSize, init[..])));
  }

  /** A file shorter than the header (with the right signature) gets a pixel size wrapped to nearly 2^32. */
  lemma ShortFileWrapsPixelSize(f: TextureFile)
    requires f.FileSize < TEXTURE_HEADER_SIZE
    ensures PixelDataSize(f) == U32_LIMIT + f.FileSize - TEXTURE_HEADER_SIZE
  {
  }
}
