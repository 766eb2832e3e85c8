/**
 * `ObjModel::LoadMaterials`: the material file grammar (`ObjModel.cpp`). Colours and
 * scalar terms are floating point and only their need for a current material is kept.
 */
module ObjMtl {
  import opened Common
  import opened Crt
  import opened ObjScene
  import opened ObjLines

  /** What a material property line sets: nothing, a float term, or a texture slot read from `Offset`. */
  datatype MtlProperty = NotAProperty | Scalar | TextureMap(Slot: TextureType, Offset: nat)

  /**
   * The directive of a property line `l` that starts at its first alphanumeric character.
   * The first character is matched exactly (the `switch`), the keyword itself with
   * `_strnicmp`, so case only matters in the first character.
   */
  function PropertyOf(l: seq<char>): MtlProperty
  {
    var c := CStr(l);
    match At(l, 0)
    case 'K' => if At(l, 1) == 'a' || At(l, 1) == 'd' || At(l, 1) == 's' then Scalar else NotAProperty
    case 'N' => if At(l, 1) == 's' then Scalar else NotAProperty
    case 'T' => if At(l, 1) == 'r' then Scalar else NotAProperty
    case 'd' =>
      if At(l, 1) == ' ' then Scalar
      else if StrNIEq(c, "disp", 4) then TextureMap(Displacement, 5)
      else NotAProperty
    case 'b' => if StrNIEq(c, "bump", 4) then TextureMap(Bump, 5) else NotAProperty
    case 'm' =>
      if StrNIEq(c, "map_Ka", 6) then TextureMap(Ambient, 7)
      else if StrNIEq(c, "map_Kd", 6) then TextureMap(Diffuse, 7)
      else if StrNIEq(c, "map_Ks", 6) then TextureMap(SpecularColor, 7)
      else if StrNIEq(c, "map_Ns", 6) then TextureMap(SpecularPower, 7)
      else if StrNIEq(c, "map_d", 5) then TextureMap(Transparency, 6)
      else if StrNIEq(c, "map_bump", 8) then TextureMap(Bump, 9)
      else NotAProperty
    case _ => NotAProperty
  }

  /** A texture directive: its keyword and the slot it fills. */
  datatype TextureDirective = TextureDirective(Keyword: string, Slot: TextureType)

  /** The texture directives the material reader knows. */
  const TextureDirectives: seq<TextureDirective> := [
    TextureDirective("map_Ka", Ambient),
    TextureDirective("map_Kd", Diffuse),
    TextureDirective("map_Ks", SpecularColor),
    TextureDirective("map_Ns", SpecularPower),
    TextureDirective("map_d", Transparency),
    TextureDirective("map_bump", Bump),
    TextureDirective("bump", Bump),
    TextureDirective("disp", Displacement)]

  /** `l` starts with keyword `kw`: the first character exactly, the rest up to case. */
  predicate StartsWithKeyword(l: seq<char>, kw: string)
    requires kw != []
  {
    At(l, 0) == kw[0] && StrNIEq(CStr(l), kw, |kw|)
  }

  lemma {:induction false} StartsWithKeywordChars(l: seq<char>, kw: string, i: nat)
    requires kw != [] && StartsWithKeyword(l, kw) && i < |kw|
    ensures i < |l| && At(l, i) == CStr(l)[i] && AsciiLower(At(l, i)) == AsciiLower(kw[i])
  {
  }

  /** `map_Ka`, `map_Kd`, `map_Ks`, `map_Ns`: told apart by their fifth and sixth characters. */
  lemma {:induction false} MapColourDirectiveRecognised(l: seq<char>, i: nat)
    requires i <= 3
    requires StartsWithKeyword(l, TextureDirectives[i].Keyword)
    ensures PropertyOf(l) == TextureMap(TextureDirectives[i].Slot, 7)
  {
    var kw := TextureDirectives[i].Keyword;
    StartsWithKeywordChars(l, kw, 4);
    StartsWithKeywordChars(l, kw, 5);
  }

  /** `map_d` and `map_bump`: no colour keyword matches, told apart by their fifth character. */
  lemma {:induction false} MapOtherDirectiveRecognised(l: seq<char>, i: nat)
    requires 4 <= i <= 5
    requires StartsWithKeyword(l, TextureDirectives[i].Keyword)
    ensures PropertyOf(l) == TextureMap(TextureDirectives[i].Slot, |TextureDirectives[i].Keyword| + 1)
  {
    StartsWithKeywordChars(l, TextureDirectives[i].Keyword, 4);
  }

  /**
   * A line starting with a texture keyword fills that keyword's slot with the path that
   * begins one character after the keyword.
   */
  lemma {:induction false} TextureDirectiveRecognised(l: seq<char>, i: nat)
    requires i < |TextureDirectives|
    requires StartsWithKeyword(l, TextureDirectives[i].Keyword)
    ensures PropertyOf(l) == TextureMap(TextureDirectives[i].Slot, |TextureDirectives[i].Keyword| + 1)
  {
    if i <= 3 {
      MapColourDirectiveRecognised(l, i);
    } else if i <= 5 {
      MapOtherDirectiveRecognised(l, i);
    } else if i == 7 {
      StartsWithKeywordChars(l, TextureDirectives[i].Keyword, 1);
      assert At(l, 1) != ' ';
    }
  }

  /** Conversely, a texture slot is only set by a line starting with one of the known keywords. */
  lemma {:induction false} TextureDirectiveOnlyFromKeyword(l: seq<char>)
    requires PropertyOf(l).TextureMap?
    ensures exists i :: (0 <= i < |TextureDirectives| && StartsWithKeyword(l, TextureDirectives[i].Keyword)
      && PropertyOf(l) == TextureMap(TextureDirectives[i].Slot, |TextureDirectives[i].Keyword| + 1))
  {
    var c := CStr(l);
    var i: nat :=
      if At(l, 0) == 'd' then 7
      else if At(l, 0) == 'b' then 6
      else if StrNIEq(c, "map_Ka", 6) then 0
      else if StrNIEq(c, "map_Kd", 6) then 1
      else if StrNIEq(c, "map_Ks", 6) then 2
      else if StrNIEq(c, "map_Ns", 6) then 3
      else if StrNIEq(c, "map_d", 5) then 4
      else 5;
    assert StartsWithKeyword(l, TextureDirectives[i].Keyword);
  }

  /**
   * The first character is matched case-sensitively: a line starting with a capital other
   * than `K`, `N` or `T` (`Map_Kd`, `BUMP`) sets nothing.
   */
  lemma CapitalFirstIgnored(l: seq<char>)
    requires l != [] && 'A' <= l[0] <= 'Z' && l[0] != 'K' && l[0] != 'N' && l[0] != 'T'
    ensures PropertyOf(l) == NotAProperty
  {
  }

  /** Index of the first alphanumeric character at or after `i`, or `|r|` (the terminator). */
  function SkipNonAlnum(r: seq<char>, i: nat): (k: nat)
    requires i <= |r|
    ensures i <= k <= |r|
    ensures forall j :: i <= j < k ==> !IsAlnum(r[j])
    ensures k < |r| ==> IsAlnum(r[k])
    decreases |r| - i
  {
    if i < |r| && !IsAlnum(r[i]) then SkipNonAlnum(r, i + 1) else i
  }

  /** The material list and `currentMaterial` between lines. */
  datatype MtlState = MtlState(Materials: seq<ObjMaterial>, Current: Option<nat>)

  /** `currentMaterial` is null or points into the list. */
  predicate CurrentOk(st: MtlState)
  {
    st.Current.Some? ==> st.Current.value < |st.Materials|
  }

  /**
   * One material line `r` (without its terminator). A float term or texture map with no
   * current material dereferences null.
   */
  function MtlLine(st: MtlState, base: seq<char>, r: seq<char>): Outcome<MtlState>
  {
    if At(r, 0) == '#' then Defined(st)
    else if StrNIEq(CStr(r), "newmtl", 6) then
      Defined(MtlState(st.Materials + [ObjMaterial(CStr(Drop(r, 7)), map[])], Some(|st.Materials|)))
    else
      var lp := SkipNonAlnum(r, 0);
      if lp == |r| then Defined(st)
      else
        match PropertyOf(r[lp..])
        case NotAProperty => Defined(st)
        case Scalar => if !CurrentOk(st) || st.Current.None? then Undefined else Defined(st)
        case TextureMap(slot, k) =>
          if !CurrentOk(st) || st.Current.None? then Undefined
          else
            var m := st.Materials[st.Current.value];
            var path := base + CStr(Drop(r[lp..], k));
            if !FitsPathBuffer(path) then Undefined
            else Defined(st.(Materials := st.Materials[st.Current.value := m.(TextureMaps := m.TextureMaps[slot := path])]))
  }

  /** The lines from `p` on; unlike the OBJ reader, each line ends one byte after its terminator. */
  function MtlFrom(text: seq<char>, p: nat, st: MtlState, base: seq<char>): Outcome<MtlState>
    decreases |text| - p, 2
  {
    if p >= |text| then Defined(st) else MtlLineThenRest(text, p, st, base)
  }

  /** A line starts at `p`: it ends at `LineEnd(text, p)`. */
  function MtlLineThenRest(text: seq<char>, p: nat, st: MtlState, base: seq<char>): Outcome<MtlState>
    requires p < |text|
    decreases |text| - p, 1
  {
    CutMtlLineThenRest(text, p, LineEnd(text, p), st, base)
  }

  /** The line `text[p..q]` applied, then the lines from one byte after its end. */
  function CutMtlLineThenRest(text: seq<char>, p: nat, q: nat, st: MtlState, base: seq<char>): Outcome<MtlState>
    requires p <= q < |text|
    decreases |text| - p, 0
  {
    match MtlLine(st, base, text[p..q])
    case Undefined => Undefined
    case Defined(st1) => MtlFrom(text, q + 1, st1, base)
  }

  /**
   * `LoadMaterials(filename)`: false (None) when the file cannot be opened; otherwise the
   * material list after reading it, paths resolved against the file's directory.
   */
  function LoadMaterialsSpec(mats: seq<ObjMaterial>, filename: seq<char>, files: map<seq<char>, seq<char>>): Outcome<Option<seq<ObjMaterial>>>
  {
    if filename !in files then Defined(None)
    else if !FitsPathBuffer(filename) then Undefined
    else
      match MtlFrom(files[filename], 0, MtlState(mats, None), DirPrefix(filename))
      case Undefined => Undefined
      case Defined(st) => Defined(Some(st.Materials))
  }

  /**
   * A `newmtl` line appends one material, named by the text from column 7 and with no
   * texture, makes it current, and changes no earlier material.
   */
  lemma NewmtlAppends(st: MtlState, base: seq<char>, r: seq<char>)
    requires At(r, 0) != '#' && StrNIEq(CStr(r), "newmtl", 6)
    ensures MtlLine(st, base, r) == Defined(MtlState(st.Materials + [ObjMaterial(CStr(Drop(r, 7)), map[])], Some(|st.Materials|)))
  {
  }

  /**
   * A texture line whose path `base` + the rest of the line fits the path buffer stores it
   * in that slot of the current material, replacing an earlier value; every other slot and
   * material stays as it was. A path that does not fit is undefined.
   */
  lemma {:induction false} TextureLineStores(st: MtlState, base: seq<char>, r: seq<char>)
    requires CurrentOk(st) && st.Current.Some?
    requires At(r, 0) != '#' && !StrNIEq(CStr(r), "newmtl", 6)
    requires SkipNonAlnum(r, 0) < |r| && PropertyOf(r[SkipNonAlnum(r, 0)..]).TextureMap?
    ensures var lp := SkipNonAlnum(r, 0);
      MtlLine(st, base, r).Defined? <==> FitsPathBuffer(base + CStr(Drop(r[lp..], PropertyOf(r[lp..]).Offset)))
    ensures MtlLine(st, base, r).Defined? ==>
      var lp := SkipNonAlnum(r, 0);
      var slot := PropertyOf(r[lp..]).Slot;
      var after := MtlLine(st, base, r).value;
      var cur := st.Current.value;
      && after.Current == st.Current && |after.Materials| == |st.Materials|
      && (forall i :: 0 <= i < |st.Materials| && i != cur ==> after.Materials[i] == st.Materials[i])
      && after.Materials[cur].Name == st.Materials[cur].Name
      && after.Materials[cur].TextureMaps.Keys == st.Materials[cur].TextureMaps.Keys + {slot}
      && after.Materials[cur].TextureMaps[slot] == base + CStr(Drop(r[lp..], PropertyOf(r[lp..]).Offset))
      && (forall t :: t in st.Materials[cur].TextureMaps && t != slot ==>
            after.Materials[cur].TextureMaps[t] == st.Materials[cur].TextureMaps[t])
  {
  }

  /** A material line with no current material that sets a float term or a texture is undefined. */
  lemma PropertyWithoutMaterialUndefined(base: seq<char>, r: seq<char>)
    requires At(r, 0) != '#' && !StrNIEq(CStr(r), "newmtl", 6)
    requires SkipNonAlnum(r, 0) < |r| && PropertyOf(r[SkipNonAlnum(r, 0)..]) != NotAProperty
    ensures MtlLine(MtlState([], None), base, r) == Undefined
  {
  }

  /**
   * One line only touches materials from `first` on when `currentMaterial` is null or at
   * or after `first`, and the current material stays there.
   */
  lemma {:induction false} MtlLineKeepsPrefix(st: MtlState, base: seq<char>, r: seq<char>, first: nat)
    requires CurrentOk(st) && first <= |st.Materials|
    requires st.Current.Some? ==> st.Current.value >= first
    requires MtlLine(st, base, r).Defined?
    ensures var after := MtlLine(st, base, r).value;
      && CurrentOk(after) && first <= |after.Materials|
      && after.Materials[..first] == st.Materials[..first]
      && (after.Current.Some? ==> after.Current.value >= first)
  {
  }

  lemma {:induction false} MtlFromKeepsPrefix(text: seq<char>, p: nat, st: MtlState, base: seq<char>, first: nat)
    requires CurrentOk(st) && first <= |st.Materials|
    requires st.Current.Some? ==> st.Current.value >= first
    requires MtlFrom(text, p, st, base).Defined?
    ensures first <= |MtlFrom(text, p, st, base).value.Materials|
    ensures MtlFrom(text, p, st, base).value.Materials[..first] == st.Materials[..first]
    decreases |text| - p
  {
    if p < |text| {
      var q := LineEnd(text, p);
      assert MtlFrom(text, p, st, base) == CutMtlLineThenRest(text, p, q, st, base);
      MtlLineKeepsPrefix(st, base, text[p..q], first);
      var st1 := MtlLine(st, base, text[p..q]).value;
      MtlFromKeepsPrefix(text, q + 1, st1, base, first);
    }
  }

  /**
   * Loading a material file only appends materials and edits those it appended: the
   * materials of earlier files are kept as they were. A file that cannot be opened
   * gives false.
   */
  lemma LoadMaterialsKeepsEarlier(mats: seq<ObjMaterial>, filename: seq<char>, files: map<seq<char>, seq<char>>)
    ensures filename !in files <==> LoadMaterialsSpec(mats, filename, files) == Defined(None)
    ensures LoadMaterialsSpec(mats, filename, files).Defined? && LoadMaterialsSpec(mats, filename, files).value.Some? ==>
      var after := LoadMaterialsSpec(mats, filename, files).value.value;
      |mats| <= |after| && after[..|mats|] == mats
  {
    if filename in files {
      var st := MtlState(mats, None);
      if MtlFrom(files[filename], 0, st, DirPrefix(filename)).Defined? {
        MtlFromKeepsPrefix(files[filename], 0, st, DirPrefix(filename), |mats|);
      }
    }
  }
}
