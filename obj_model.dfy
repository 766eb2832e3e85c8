/**
 * `struct ObjModel` and its loaders (`ObjModel.h`, `ObjModel.cpp`) as a class whose
 * methods update its fields the way the C++ does, each proved to end in the state the
 * matching function of `ObjFace`, `ObjMtl` or `ObjLoad` describes.
 */
module ObjModelClass {
  import opened Common
  import opened Crt
  import opened ObjScene
  import opened ObjLines
  import opened ObjFace
  import opened ObjMtl
  import opened ObjLoad

  class ObjModel {
    var Vertices: seq<Corner>
    var Indices: seq<nat>
    var Materials: seq<ObjMaterial>
    var Objects: seq<ObjModelObject>
    var Positions: seq<seq<char>>
    var Normals: seq<seq<char>>
    var TexCoords: seq<seq<char>>
    var IndexMap: map<nat, map<nat, nat>>

    /** The fields as a value. */
    function Snapshot(): Scene
      reads this
    {
      Scene(Vertices, Indices, Materials, Objects, Positions, Normals, TexCoords, IndexMap)
    }

    constructor()
      ensures Snapshot() == EmptyScene
    {
      Vertices, Indices, Materials, Objects := [], [], [], [];
      Positions, Normals, TexCoords, IndexMap := [], [], [], map[];
    }

    /** `ReadPositionAndColor`: one more position, parsed from `line`. */
    method ReadPositionAndColor(line: seq<char>)
      modifies this
      ensures Snapshot() == old(Snapshot()).(Positions := old(Positions) + [line])
    {
      Positions := Positions + [line];
    }

    /** `ReadTexCoord`: one more texture coordinate, parsed from `line`. */
    method ReadTexCoord(line: seq<char>)
      modifies this
      ensures Snapshot() == old(Snapshot()).(TexCoords := old(TexCoords) + [line])
    {
      TexCoords := TexCoords + [line];
    }

    /** `ReadNormal`: one more normal, parsed from `line`. */
    method ReadNormal(line: seq<char>)
      modifies this
      ensures Snapshot() == old(Snapshot()).(Normals := old(Normals) + [line])
    {
      Normals := Normals + [line];
    }

    /**
     * One pass of `for (auto key : indexKeys)` in `ReadFace`: reuse or create the vertex
     * for `key`, then `++part->NumIndices`. False when the C++ behaviour is undefined.
     */
    method AddCorner(key: Corner, part: Option<PartRef>) returns (defined: bool)
      modifies this
      ensures defined <==> CornerStep(old(Snapshot()), part, key).Defined?
      ensures defined ==> Snapshot() == CornerStep(old(Snapshot()), part, key).value
    {
      var found := false;
      var positionTex := PositionTexKey(key);
      if positionTex in IndexMap && key.Normal in IndexMap[positionTex] {
        Indices := Indices + [IndexMap[positionTex][key.Normal]];
        found := true;
      }
      if !found {
        if key.Normal > 0 && key.Normal - 1 >= |Normals| {
          return false;
        }
        if key.TexCoord > 0 && key.TexCoord - 1 >= |TexCoords| {
          return false;
        }
        Vertices := Vertices + [key];
        var slot: nat := |Vertices| - 1;
        Indices := Indices + [slot];
        if positionTex in IndexMap {
          var inner: map<nat, nat> := IndexMap[positionTex];
          IndexMap := IndexMap[positionTex := inner[key.Normal := slot]];
        } else {
          var inner: map<nat, nat> := map[key.Normal := slot];
          IndexMap := IndexMap[positionTex := inner];
        }
      }
      if part.None? || part.value.Object >= |Objects| || part.value.Part >= |Objects[part.value.Object].Parts| {
        return false;
      }
      var o := part.value.Object;
      var obj := Objects[o];
      var p := obj.Parts[part.value.Part];
      Objects := Objects[o := obj.(Parts := obj.Parts[part.value.Part := p.(NumIndices := p.NumIndices + 1)])];
      return true;
    }

    /**
     * The triangle `a`, `b`, `c` of `ReadFace`: all three positions are read first, then
     * each corner is added in turn. False when undefined.
     */
    method AddTriangle(a: Corner, b: Corner, c: Corner, part: Option<PartRef>) returns (defined: bool)
      modifies this
      ensures defined <==> Triangle(old(Snapshot()), part, a, b, c).Defined?
      ensures defined ==> Snapshot() == Triangle(old(Snapshot()), part, a, b, c).value
    {
      if !(HasPosition(Snapshot(), a) && HasPosition(Snapshot(), b) && HasPosition(Snapshot(), c)) {
        return false;
      }
      var keys := [a, b, c];
      ghost var t0 := Snapshot();
      var n := 0;
      while n < 3
        invariant 0 <= n <= 3
        invariant CornersFrom(Snapshot(), part, keys[n..]) == CornersFrom(t0, part, keys)
      {
        assert keys[n..][0] == keys[n] && keys[n..][1..] == keys[n + 1..];
        var ok := AddCorner(keys[n], part);
        if !ok {
          return false;
        }
        n := n + 1;
      }
      return true;
    }

    /**
     * One token of `ReadFace`: a token starting with a digit is a corner whose `/` fields
     * overwrite the running indices; from the third corner on, the triangle (first,
     * previous, current) is added. False when undefined.
     */
    method FaceTokenStep(token: seq<char>, part: Option<PartRef>, fc: FaceCursor) returns (defined: bool, next: FaceCursor)
      modifies this
      ensures var spec := FaceToken(old(Snapshot()), part, fc, token);
        && (defined <==> spec.Defined?)
        && (defined ==> (Snapshot(), next) == spec.value)
    {
      defined, next := true, fc;
      if IsDigit(At(token, 0)) {
        var cur := ReadCornerFields(fc.Prev, token);
        var first := MergeFirstFields(fc.First, cur);
        if fc.Count >= 2 {
          defined := AddTriangle(first, fc.Prev, cur, part);
        }
        next := FaceCursor(first, cur, fc.Count + 1);
      }
    }

    /**
     * `ReadFace(line, part)`: every `" "` token of the line in turn, starting from no
     * corner. False when the C++ behaviour is undefined.
     */
    method ReadFace(line: seq<char>, part: Option<PartRef>) returns (defined: bool)
      modifies this
      ensures defined <==> FaceSpec(old(Snapshot()), part, line).Defined?
      ensures defined ==> Snapshot() == FaceSpec(old(Snapshot()), part, line).value
    {
      var toks := Tokens(line, {' '});
      var fc := FaceStart;
      var k := 0;
      while k < |toks|
        invariant 0 <= k <= |toks|
        invariant FaceFrom(Snapshot(), part, fc, toks[k..]) == FaceSpec(old(Snapshot()), part, line)
      {
        assert toks[k..][0] == toks[k] && toks[k..][1..] == toks[k + 1..];
        var ok;
        ok, fc := FaceTokenStep(toks[k], part, fc);
        if !ok {
          return false;
        }
        k := k + 1;
      }
      return true;
    }

    /**
     * The body of the material line loop for the line `r`: comment, `newmtl`, or a property
     * found after skipping non-alphanumeric characters.
     */
    method MaterialLine(r: seq<char>, base: seq<char>, currentMaterial: Option<nat>) returns (defined: bool, current: Option<nat>)
      requires CurrentOk(MtlState(Materials, currentMaterial))
      modifies this
      ensures var spec := MtlLine(MtlState(old(Materials), currentMaterial), base, r);
        && (defined <==> spec.Defined?)
        && (defined ==> MtlState(Materials, current) == spec.value)
      ensures defined ==> CurrentOk(MtlState(Materials, current))
      ensures Snapshot() == old(Snapshot()).(Materials := Materials)
    {
      current := currentMaterial;
      if At(r, 0) == '#' {
        return true, current;
      }
      if StrNIEq(CStr(r), "newmtl", 6) {
        Materials := Materials + [ObjMaterial([], map[])];
        current := Some(|Materials| - 1);
        Materials := Materials[current.value := Materials[current.value].(Name := CStr(Drop(r, 7)))];
        return true, current;
      }
      var lp := 0;
      while lp < |r| && !IsAlnum(r[lp])
        invariant 0 <= lp <= |r|
        invariant SkipNonAlnum(r, lp) == SkipNonAlnum(r, 0)
      {
        lp := lp + 1;
      }
      if lp == |r| {
        return true, current;
      }
      match PropertyOf(r[lp..])
      case NotAProperty =>
        return true, current;
      case Scalar =>
        return current.Some?, current;
      case TextureMap(slot, offset) =>
        if current.None? {
          return false, current;
        }
        var path := base + CStr(Drop(r[lp..], offset));
        if !FitsPathBuffer(path) {
          return false, current;
        }
        var m := Materials[current.value];
        Materials := Materials[current.value := m.(TextureMaps := m.TextureMaps[slot := path])];
        return true, current;
    }

    /**
     * `LoadMaterials(filename)`: false when the file cannot be opened; otherwise every line
     * is read, each ending at its terminator, the next starting one byte later.
     */
    method LoadMaterials(filename: seq<char>, files: map<seq<char>, seq<char>>) returns (r: Outcome<bool>)
      modifies this
      ensures var spec := LoadMaterialsSpec(old(Materials), filename, files);
        && (r == Undefined <==> spec == Undefined)
        && (r == Defined(false) <==> spec == Defined(None))
        && (r == Defined(true) ==> spec == Defined(Some(Materials)))
      ensures r == Defined(false) ==> Materials == old(Materials)
      ensures r != Undefined ==> Snapshot() == old(Snapshot()).(Materials := Materials)
    {
      if filename !in files {
        return Defined(false);
      }
      if !FitsPathBuffer(filename) {
        return Undefined;
      }
      var text := files[filename];
      var basePath := DirPrefix(filename);
      var currentMaterial: Option<nat> := None;
      var p := 0;
      ghost var total := MtlFrom(text, 0, MtlState(Materials, None), basePath);
      while p < |text|
        invariant CurrentOk(MtlState(Materials, currentMaterial))
        invariant MtlFrom(text, p, MtlState(Materials, currentMaterial), basePath) == total
        invariant Snapshot() == old(Snapshot()).(Materials := Materials)
        decreases |text| - p
      {
        var line := p;
        p := FindLineEnd(text, line);
        var ok;
        ok, currentMaterial := MaterialTurn(text, line, p, basePath, currentMaterial, total);
        if !ok {
          return Undefined;
        }
        p := p + 1;
      }
      return Defined(true);
    }

    /** One turn of `LoadMaterials`' loop: the line from `p` to its end `q`, applied. */
    method MaterialTurn(text: seq<char>, p: nat, q: nat, base: seq<char>, currentMaterial: Option<nat>,
                        ghost total: Outcome<MtlState>) returns (defined: bool, current: Option<nat>)
      requires p < |text| && q == LineEnd(text, p) && CurrentOk(MtlState(Materials, currentMaterial))
      requires MtlFrom(text, p, MtlState(Materials, currentMaterial), base) == total
      modifies this
      ensures !defined ==> total == Undefined
      ensures defined ==> CurrentOk(MtlState(Materials, current)) && MtlFrom(text, q + 1, MtlState(Materials, current), base) == total
      ensures Snapshot() == old(Snapshot()).(Materials := Materials)
    {
      ghost var st := MtlState(Materials, currentMaterial);
      assert total == CutMtlLineThenRest(text, p, q, st, base);
      defined, current := MaterialLine(text[p..q], base, currentMaterial);
    }

    /**
     * The `switch (*line)` of `Load` for the line `r`. The result is Undefined, false (the
     * material file failed to load) or true, with the cursors after the line.
     */
    method DispatchLine(r: seq<char>, filename: seq<char>, files: map<seq<char>, seq<char>>, cur: ObjCursor)
      returns (res: Outcome<bool>, next: ObjCursor)
      modifies this
      ensures LineDispatched(old(Snapshot()), cur, r, filename, files, res, Snapshot(), next)
    {
      next := cur;
      var c0 := At(r, 0);
      if c0 == 'm' {
        if StrNIEq(CStr(r), "mtllib", 6) {
          var matFile := DirPrefix(filename) + CStr(Drop(r, 7));
          if !FitsPathBuffer(filename) || !FitsPathBuffer(matFile) {
            return Undefined, next;
          }
          res := LoadMaterials(matFile, files);
          return;
        }
      } else if c0 == 'v' {
        var c1 := At(r, 1);
        if c1 == ' ' {
          ReadPositionAndColor(CStr(r));
        } else if c1 == 't' {
          ReadTexCoord(CStr(r));
        } else if c1 == 'n' {
          ReadNormal(CStr(r));
        }
      } else if c0 == 'f' {
        var ok := ReadFace(CStr(r), cur.Part);
        if !ok {
          return Undefined, next;
        }
      } else if c0 == 'o' || c0 == 'g' {
        next := next.(Object := Some(|Objects|));
        Objects := Objects + [ObjModelObject(CStr(Drop(r, 2)), [])];
      } else if c0 == 'u' {
        if StrNIEq(CStr(r), "usemtl", 6) {
          if cur.Object.None? || cur.Object.value >= |Objects| {
            return Undefined, next;
          }
          var o := cur.Object.value;
          var obj := Objects[o];
          next := next.(Part := Some(PartRef(o, |obj.Parts|)));
          Objects := Objects[o := obj.(Parts := obj.Parts + [ObjModelPart(CStr(Drop(r, 7)), |Indices|, 0)])];
        }
      }
      return Defined(true), next;
    }

    /**
     * `Load(filename)`: read the OBJ file line by line. A line ends at the first `\n` or
     * `\r`, or at the last byte, which the terminator replaces; the next line starts after
     * the run of `\n` and `\r` that follows. Undefined when the C++ behaviour is.
     */
    method Load(filename: seq<char>, files: map<seq<char>, seq<char>>) returns (r: Outcome<bool>)
      modifies this
      ensures var spec := LoadSpec(old(Snapshot()), filename, files);
        && (r.Defined? <==> spec.Defined?)
        && (r.Defined? ==> r.value == spec.value.0 && Snapshot() == spec.value.1)
    {
      if filename !in files {
        return Defined(false);
      }
      var text := files[filename];
      var cur := NoCursor;
      var p := 0;
      ghost var total := LoadFrom(text, 0, Snapshot(), cur, filename, files);
      assert total == LoadSpec(old(Snapshot()), filename, files);
      while p < |text|
        invariant p <= |text|
        invariant LoadFrom(text, p, Snapshot(), cur, filename, files) == total
        decreases |text| - p
      {
        var q := FindLineEnd(text, p);
        var res;
        res, cur := LoadLine(text, p, q, filename, files, cur, total);
        if res != Defined(true) {
          return res;
        }
        p := SkipLineBreaks(text, q + 1);
      }
      return Defined(true);
    }

    /** One turn of `Load`'s loop: the line from `p` to its end `q`, dispatched. */
    method LoadLine(text: seq<char>, p: nat, q: nat, filename: seq<char>, files: map<seq<char>, seq<char>>, cur: ObjCursor,
                    ghost total: Outcome<(bool, Scene)>) returns (res: Outcome<bool>, cur1: ObjCursor)
      requires p < |text| && q == LineEnd(text, p) && LoadFrom(text, p, Snapshot(), cur, filename, files) == total
      modifies this
      ensures TurnLeaves(text, p, filename, files, total, res, Snapshot(), cur1)
    {
      ghost var before := Snapshot();
      res, cur1 := DispatchLine(text[p..q], filename, files, cur);
      LoadTurn(text, p, before, cur, filename, files, total, res, Snapshot(), cur1);
    }
  }

  /**
   * The `/` fields of a face token, each overwriting the running index it stands for;
   * missing fields keep the previous corner's.
   */
  method ReadCornerFields(prev: Corner, token: seq<char>) returns (cur: Corner)
    ensures cur == ReadCorner(prev, token)
  {
    var positionIndex, texIndex, normIndex := prev.Position, prev.TexCoord, prev.Normal;
    var sub := Tokens(token, {'/', ' '});
    if |sub| > 0 {
      positionIndex := AtoU32(sub[0]);
    }
    if |sub| > 1 {
      texIndex := AtoU32(sub[1]);
    }
    if |sub| > 2 {
      normIndex := AtoU32(sub[2]);
    }
    cur := Corner(positionIndex, texIndex, normIndex);
  }

  /** `if (xFirst == 0) xFirst = x;` for the position, texcoord and normal of the first corner. */
  method MergeFirstFields(first: Corner, cur: Corner) returns (merged: Corner)
    ensures merged == MergeFirst(first, cur)
  {
    var posFirst, texFirst, normFirst := first.Position, first.TexCoord, first.Normal;
    if posFirst == 0 { posFirst := cur.Position; }
    if texFirst == 0 { texFirst := cur.TexCoord; }
    if normFirst == 0 { normFirst := cur.Normal; }
    merged := Corner(posFirst, texFirst, normFirst);
  }

  /** `while (*p != '\n' && *p != '\r' && p < (end - 1)) ++p;`: the end of the line from `p`. */
  method FindLineEnd(text: seq<char>, p: nat) returns (q: nat)
    requires p < |text|
    ensures q == LineEnd(text, p)
  {
    q := p;
    while text[q] != '\n' && text[q] != '\r' && q < |text| - 1
      invariant p <= q < |text|
      invariant LineEnd(text, q) == LineEnd(text, p)
      decreases |text| - q
    {
      q := q + 1;
    }
  }

  /**
   * `while ((*p == '\n' || *p == '\r') && p < end) ++p;`: the start of the next line. The
   * source reads `*p` before the bound test; here the bound is tested first.
   */
  method SkipLineBreaks(text: seq<char>, j: nat) returns (k: nat)
    requires j <= |text|
    ensures k == SkipNewlines(text, j)
  {
    k := j;
    while k < |text| && (text[k] == '\n' || text[k] == '\r')
      invariant j <= k <= |text|
      invariant SkipNewlines(text, k) == SkipNewlines(text, j)
    {
      k := k + 1;
    }
  }
}
