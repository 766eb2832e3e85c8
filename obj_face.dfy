/**
 * `ObjModel::ReadFace`: fan triangulation of an `f` line and welding of the corners
 * through `IndexMap` (`ObjModel.cpp`). The float work (flat normal, normal
 * renormalisation, texcoord flip) is not modelled; a vertex is its corner triple.
 */
module ObjFace {
  import opened Common
  import opened Crt
  import opened ObjScene

  const NoCorner := Corner(0, 0, 0)

  /** All three indices fit `uint32_t`. */
  predicate CornerU32(c: Corner) { IsU32(c.Position) && IsU32(c.TexCoord) && IsU32(c.Normal) }

  /**
   * The corner a numeric face token describes. `strtok_s` with `"/ "` yields its
   * non-empty `/`-separated fields, which fill position, texcoord and normal in that
   * order; a field the token does not supply keeps the previous corner's value.
   */
  function ReadCorner(prev: Corner, tok: seq<char>): (c: Corner)
    ensures CornerU32(prev) ==> CornerU32(c)
  {
    var sub := Tokens(tok, {'/', ' '});
    Corner(
      if |sub| > 0 then AtoU32(sub[0]) else prev.Position,
      if |sub| > 1 then AtoU32(sub[1]) else prev.TexCoord,
      if |sub| > 2 then AtoU32(sub[2]) else prev.Normal)
  }

  /** `if (xFirst == 0) xFirst = x;`, field by field, on every corner. */
  function MergeFirst(first: Corner, cur: Corner): (r: Corner)
    ensures CornerU32(first) && CornerU32(cur) ==> CornerU32(r)
  {
    Corner(
      if first.Position == 0 then cur.Position else first.Position,
      if first.TexCoord == 0 then cur.TexCoord else first.TexCoord,
      if first.Normal == 0 then cur.Normal else first.Normal)
  }

  /**
   * The face locals between tokens: the merged first corner, the previous corner
   * (which is also where the current one starts) and the count `i` of numeric tokens.
   */
  datatype FaceCursor = FaceCursor(First: Corner, Prev: Corner, Count: nat)

  const FaceStart := FaceCursor(NoCorner, NoCorner, 0)

  predicate FaceCursorU32(fc: FaceCursor) { CornerU32(fc.First) && CornerU32(fc.Prev) }

  /** `++part->NumIndices`; a null or dangling `part` is undefined. */
  function BumpPart(s: Scene, part: Option<PartRef>): Outcome<Scene>
  {
    if part.None? || PartAt(s, part.value).None? then Undefined
    else
      var r := part.value;
      var obj := s.Objects[r.Object];
      var p := obj.Parts[r.Part];
      Defined(s.(Objects := s.Objects[r.Object := obj.(Parts := obj.Parts[r.Part := p.(NumIndices := p.NumIndices + 1)])]))
  }

  /** One pass of `for (auto key : indexKeys)`: weld the corner, then count it in the part. */
  function CornerStep(s: Scene, part: Option<PartRef>, c: Corner): Outcome<Scene>
  {
    match WeldCorner(s, c)
    case Undefined => Undefined
    case Defined(s1) => BumpPart(s1, part)
  }

  /** The corners of one triangle, in order. */
  function CornersFrom(s: Scene, part: Option<PartRef>, keys: seq<Corner>): Outcome<Scene>
    decreases |keys|
  {
    if keys == [] then Defined(s)
    else
      match CornerStep(s, part, keys[0])
      case Undefined => Undefined
      case Defined(s1) => CornersFrom(s1, part, keys[1..])
  }

  /** `Positions[Position - 1]` is in range. */
  predicate HasPosition(s: Scene, c: Corner) { 1 <= c.Position <= |s.Positions| }

  /**
   * The triangle (first, previous, current): the three positions are read for the flat
   * normal before any corner is welded.
   */
  function Triangle(s: Scene, part: Option<PartRef>, a: Corner, b: Corner, c: Corner): Outcome<Scene>
  {
    if !(HasPosition(s, a) && HasPosition(s, b) && HasPosition(s, c)) then Undefined
    else CornersFrom(s, part, [a, b, c])
  }

  /** One token of the line: non-numeric tokens are skipped; from the third corner on each emits a triangle. */
  function FaceToken(s: Scene, part: Option<PartRef>, fc: FaceCursor, tok: seq<char>): Outcome<(Scene, FaceCursor)>
  {
    if !IsDigit(At(tok, 0)) then Defined((s, fc))
    else
      var cur := ReadCorner(fc.Prev, tok);
      var first := MergeFirst(fc.First, cur);
      var next := FaceCursor(first, cur, fc.Count + 1);
      if fc.Count >= 2 then
        match Triangle(s, part, first, fc.Prev, cur)
        case Undefined => Undefined
        case Defined(s1) => Defined((s1, next))
      else Defined((s, next))
  }

  function FaceFrom(s: Scene, part: Option<PartRef>, fc: FaceCursor, toks: seq<seq<char>>): Outcome<Scene>
    decreases |toks|
  {
    if toks == [] then Defined(s)
    else
      match FaceToken(s, part, fc, toks[0])
      case Undefined => Undefined
      case Defined(step) => FaceFrom(step.0, part, step.1, toks[1..])
  }

  /** `ReadFace(line, part)`: the `" "`-separated tokens of the line, in order. */
  function FaceSpec(s: Scene, part: Option<PartRef>, line: seq<char>): Outcome<Scene>
  {
    FaceFrom(s, part, FaceStart, Tokens(line, {' '}))
  }

  /** Tokens that start with a digit. */
  function NumericCount(toks: seq<seq<char>>): (n: nat)
    ensures n <= |toks|
  {
    if toks == [] then 0 else (if IsDigit(At(toks[0], 0)) then 1 else 0) + NumericCount(toks[1..])
  }

  /** Triangles a fan of `n` corners has: n - 2, or none. */
  function FanTriangles(n: nat): nat { if n >= 2 then n - 2 else 0 }

  /** Indices the part a cursor points at holds, or 0. */
  function NumIndicesAt(s: Scene, part: Option<PartRef>): nat
  {
    if part.Some? && PartAt(s, part.value).Some? then PartAt(s, part.value).value.NumIndices else 0
  }

  /** What one step may change: Vertices, Indices, IndexMap and the pointed-to part's count. */
  ghost predicate OnlyWeldAndPart(s: Scene, r: Scene, part: Option<PartRef>)
  {
    && r.Materials == s.Materials && r.Positions == s.Positions
    && r.Normals == s.Normals && r.TexCoords == s.TexCoords
    && |r.Objects| == |s.Objects|
    && (forall o :: 0 <= o < |s.Objects| ==> r.Objects[o].Name == s.Objects[o].Name)
    && (forall o :: 0 <= o < |s.Objects| ==> |r.Objects[o].Parts| == |s.Objects[o].Parts|)
    && (forall o, k :: 0 <= o < |s.Objects| && 0 <= k < |s.Objects[o].Parts| ==>
          r.Objects[o].Parts[k].Material == s.Objects[o].Parts[k].Material
          && r.Objects[o].Parts[k].StartIndex == s.Objects[o].Parts[k].StartIndex
          && (part != Some(PartRef(o, k)) ==> r.Objects[o].Parts[k] == s.Objects[o].Parts[k]))
  }

  /**
   * `r` extends `s` by `n` indices after the old ones, each counted in the part `part`
   * points at, and nothing but the weld data and that count changes.
   */
  ghost predicate Grows(s: Scene, r: Scene, part: Option<PartRef>, n: nat)
  {
    && |r.Indices| == |s.Indices| + n && r.Indices[..|s.Indices|] == s.Indices
    && (n > 0 ==> part.Some? && PartAt(s, part.value).Some?)
    && NumIndicesAt(r, part) == NumIndicesAt(s, part) + n
    && OnlyWeldAndPart(s, r, part)
  }

  lemma GrowsTrans(s: Scene, s1: Scene, r: Scene, part: Option<PartRef>, a: nat, b: nat)
    requires Grows(s, s1, part, a) && Grows(s1, r, part, b)
    ensures Grows(s, r, part, a + b)
  {
    assert r.Indices[..|s.Indices|] == r.Indices[..|s1.Indices|][..|s.Indices|];
  }

  lemma GrowsRefl(s: Scene, part: Option<PartRef>)
    ensures Grows(s, s, part, 0)
  {
  }

  lemma {:induction false} CornerStepCounts(s: Scene, part: Option<PartRef>, c: Corner)
    requires CornerStep(s, part, c).Defined?
    ensures Grows(s, CornerStep(s, part, c).value, part, 1)
  {
    var s1 := WeldCorner(s, c).value;
    assert s1.Objects == s.Objects;
    assert s1.Indices == s.Indices + [s1.Indices[|s.Indices|]];
  }

  lemma {:induction false} CornersFromCounts(s: Scene, part: Option<PartRef>, keys: seq<Corner>)
    requires CornersFrom(s, part, keys).Defined?
    ensures Grows(s, CornersFrom(s, part, keys).value, part, |keys|)
    decreases |keys|
  {
    if keys == [] {
      GrowsRefl(s, part);
    } else {
      var s1 := CornerStep(s, part, keys[0]).value;
      CornerStepCounts(s, part, keys[0]);
      CornersFromCounts(s1, part, keys[1..]);
      GrowsTrans(s, s1, CornersFrom(s, part, keys).value, part, 1, |keys| - 1);
    }
  }

  lemma {:induction false} FaceTokenCounts(s: Scene, part: Option<PartRef>, fc: FaceCursor, tok: seq<char>)
    requires FaceToken(s, part, fc, tok).Defined?
    ensures var (r, fc2) := FaceToken(s, part, fc, tok).value;
      && fc2.Count == fc.Count + (if IsDigit(At(tok, 0)) then 1 else 0)
      && Grows(s, r, part, 3 * (FanTriangles(fc2.Count) - FanTriangles(fc.Count)))
      && (FanTriangles(fc2.Count) == FanTriangles(fc.Count) ==> r == s)
  {
    if IsDigit(At(tok, 0)) && fc.Count >= 2 {
      var cur := ReadCorner(fc.Prev, tok);
      var first := MergeFirst(fc.First, cur);
      CornersFromCounts(s, part, [first, fc.Prev, cur]);
    } else {
      GrowsRefl(s, part);
    }
  }

  /**
   * A face whose tokens include N numeric corners (after `fc.Count` counted earlier) emits
   * the fan triangles (first, previous, current) for corners 3..N: 3(N - 2) new indices,
   * appended after the old ones, each also counted in the current part. Nothing else but
   * the weld data and that part's count changes, and a face that adds no triangle changes
   * nothing.
   */
  lemma {:induction false} FaceFromCounts(s: Scene, part: Option<PartRef>, fc: FaceCursor, toks: seq<seq<char>>)
    requires FaceFrom(s, part, fc, toks).Defined?
    ensures var added := FanTriangles(fc.Count + NumericCount(toks)) - FanTriangles(fc.Count);
      && Grows(s, FaceFrom(s, part, fc, toks).value, part, 3 * added)
      && (added == 0 ==> FaceFrom(s, part, fc, toks).value == s)
    decreases |toks|
  {
    if toks == [] {
      GrowsRefl(s, part);
    } else {
      FaceTokenCounts(s, part, fc, toks[0]);
      var step := FaceToken(s, part, fc, toks[0]).value;
      var r := FaceFrom(s, part, fc, toks).value;
      assert FaceFrom(step.0, part, step.1, toks[1..]) == Defined(r);
      FaceFromCounts(step.0, part, step.1, toks[1..]);
      var z := step.1.Count + NumericCount(toks[1..]);
      assert z == fc.Count + NumericCount(toks);
      FanGrowsCompose(s, step.0, r, part, fc.Count, step.1.Count, z);
    }
  }

  /** Two steps that each add the triangles of their span of corners add those of both spans. */
  lemma FanGrowsCompose(s: Scene, s1: Scene, r: Scene, part: Option<PartRef>, x: nat, y: nat, z: nat)
    requires x <= y <= z
    requires Grows(s, s1, part, 3 * (FanTriangles(y) - FanTriangles(x)))
    requires FanTriangles(y) == FanTriangles(x) ==> s1 == s
    requires Grows(s1, r, part, 3 * (FanTriangles(z) - FanTriangles(y)))
    requires FanTriangles(z) == FanTriangles(y) ==> r == s1
    ensures Grows(s, r, part, 3 * (FanTriangles(z) - FanTriangles(x)))
    ensures FanTriangles(z) == FanTriangles(x) ==> r == s
  {
    GrowsTrans(s, s1, r, part, 3 * (FanTriangles(y) - FanTriangles(x)), 3 * (FanTriangles(z) - FanTriangles(y)));
  }

  /** The whole line: N numeric corners give 3(N - 2) indices when N >= 3, and none otherwise. */
  lemma FaceSpecCounts(s: Scene, part: Option<PartRef>, line: seq<char>)
    requires FaceSpec(s, part, line).Defined?
    ensures var n := NumericCount(Tokens(line, {' '}));
      && Grows(s, FaceSpec(s, part, line).value, part, 3 * FanTriangles(n))
      && (n < 3 ==> FaceSpec(s, part, line).value == s)
  {
    var toks := Tokens(line, {' '});
    var n := NumericCount(toks);
    FaceFromCounts(s, part, FaceStart, toks);
    var r := FaceFrom(s, part, FaceStart, toks).value;
    var added := FanTriangles(FaceStart.Count + n) - FanTriangles(FaceStart.Count);
    assert added == FanTriangles(n);
    assert Grows(s, r, part, 3 * added);
    assert FaceSpec(s, part, line).value == r;
  }

  /**
   * The importer's invariant: the weld invariant, the parts tiling the index list in
   * creation order, and the cursors pointing at the last object and the last part.
   */
  ghost predicate SceneInv(s: Scene, obj: Option<nat>, part: Option<PartRef>)
  {
    WeldInv(s) && PartsTile(AllParts(s.Objects), |s.Indices|) && CursorsOk(s, obj, part)
  }

  /** Counting one more index in the last part keeps the tiling, one index longer. */
  lemma PartsTileBumpLast(parts: seq<ObjModelPart>, n: nat)
    requires parts != [] && PartsTile(parts, n)
    ensures var last := parts[|parts| - 1];
      PartsTile(parts[|parts| - 1 := last.(NumIndices := last.NumIndices + 1)], n + 1)
  {
  }

  /** Counting one index in the last part, after one was pushed, restores the tiling. */
  lemma {:induction false} BumpPartKeepsTiling(s: Scene, obj: Option<nat>, part: Option<PartRef>, n: nat)
    requires PartsTile(AllParts(s.Objects), n) && CursorsOk(s, obj, part)
    requires BumpPart(s, part).Defined?
    ensures PartsTile(AllParts(BumpPart(s, part).value.Objects), n + 1)
    ensures CursorsOk(BumpPart(s, part).value, obj, part)
  {
    var r := BumpPart(s, part).value;
    var pr := part.value;
    var o := s.Objects[pr.Object];
    var q := o.Parts[pr.Part];
    var x := o.(Parts := o.Parts[pr.Part := q.(NumIndices := q.NumIndices + 1)]);
    AllPartsReplaceLast(s.Objects, pr.Object, x);
    var all := AllParts(s.Objects);
    PartsTileBumpLast(all, n);
    assert AllParts(r.Objects) == all[|all| - 1 := all[|all| - 1].(NumIndices := all[|all| - 1].NumIndices + 1)];
  }

  lemma {:induction false} CornerStepKeepsInv(s: Scene, obj: Option<nat>, part: Option<PartRef>, c: Corner)
    requires SceneInv(s, obj, part) && IsU32(c.TexCoord)
    requires CornerStep(s, part, c).Defined?
    ensures SceneInv(CornerStep(s, part, c).value, obj, part)
  {
    WeldCornerSpec(s, c);
    var s1 := WeldCorner(s, c).value;
    assert s1.Objects == s.Objects && |s1.Indices| == |s.Indices| + 1;
    BumpPartKeepsTiling(s1, obj, part, |s.Indices|);
    var r := CornerStep(s, part, c).value;
    assert WeldInv(r) by { assert r == s1.(Objects := r.Objects); }
  }

  lemma {:induction false} CornersFromKeepsInv(s: Scene, obj: Option<nat>, part: Option<PartRef>, keys: seq<Corner>)
    requires SceneInv(s, obj, part)
    requires forall i :: 0 <= i < |keys| ==> CornerU32(keys[i])
    requires CornersFrom(s, part, keys).Defined?
    ensures SceneInv(CornersFrom(s, part, keys).value, obj, part)
    decreases |keys|
  {
    if keys != [] {
      CornerStepKeepsInv(s, obj, part, keys[0]);
      CornersFromKeepsInv(CornerStep(s, part, keys[0]).value, obj, part, keys[1..]);
    }
  }

  lemma TriangleKeepsInv(s: Scene, obj: Option<nat>, part: Option<PartRef>, a: Corner, b: Corner, c: Corner)
    requires SceneInv(s, obj, part) && CornerU32(a) && CornerU32(b) && CornerU32(c)
    requires Triangle(s, part, a, b, c).Defined?
    ensures SceneInv(Triangle(s, part, a, b, c).value, obj, part)
  {
    var keys := [a, b, c];
    assert forall i :: 0 <= i < |keys| ==> CornerU32(keys[i]);
    CornersFromKeepsInv(s, obj, part, keys);
  }

  lemma {:induction false} FaceTokenKeepsInv(s: Scene, obj: Option<nat>, part: Option<PartRef>, fc: FaceCursor, tok: seq<char>)
    requires SceneInv(s, obj, part) && FaceCursorU32(fc)
    requires FaceToken(s, part, fc, tok).Defined?
    ensures SceneInv(FaceToken(s, part, fc, tok).value.0, obj, part)
    ensures FaceCursorU32(FaceToken(s, part, fc, tok).value.1)
  {
    if IsDigit(At(tok, 0)) && fc.Count >= 2 {
      var cur := ReadCorner(fc.Prev, tok);
      TriangleKeepsInv(s, obj, part, MergeFirst(fc.First, cur), fc.Prev, cur);
    }
  }

  lemma {:induction false} FaceFromKeepsInv(s: Scene, obj: Option<nat>, part: Option<PartRef>, fc: FaceCursor, toks: seq<seq<char>>)
    requires SceneInv(s, obj, part) && FaceCursorU32(fc)
    requires FaceFrom(s, part, fc, toks).Defined?
    ensures SceneInv(FaceFrom(s, part, fc, toks).value, obj, part)
    decreases |toks|
  {
    if toks != [] {
      FaceTokenKeepsInv(s, obj, part, fc, toks[0]);
      var step := FaceToken(s, part, fc, toks[0]).value;
      FaceFromKeepsInv(step.0, obj, part, step.1, toks[1..]);
    }
  }

  /** Reading a face keeps the importer's invariant. */
  lemma FaceSpecKeepsInv(s: Scene, obj: Option<nat>, part: Option<PartRef>, line: seq<char>)
    requires SceneInv(s, obj, part)
    requires FaceSpec(s, part, line).Defined?
    ensures SceneInv(FaceSpec(s, part, line).value, obj, part)
  {
    FaceFromKeepsInv(s, obj, part, FaceStart, Tokens(line, {' '}));
  }

  lemma AtollOfDigit(d: char)
    requires IsDigit(d)
    ensures Atoll([d]) == d as int - '0' as int
  {
    DigitsValueOfDigits(d);
    assert Atoll([d]) == DigitsValue([d], 0);
  }

  /** Token `"7"`: only the position is supplied; texcoord and normal carry over. */
  lemma ReadCornerCarriesOver(prev: Corner)
    ensures ReadCorner(prev, "7") == Corner(7, prev.TexCoord, prev.Normal)
  {
    TokensOfUndelimited("7", {'/', ' '});
    AtollOfDigit('7');
  }

  lemma {:induction false} TokensOfOneSlashSlashThree()
    ensures Tokens("1//3", {'/', ' '}) == ["1", "3"]
  {
    var d: set<char> := {'/', ' '};
    var t := "1//3";
    assert SpanNot(t, d) == 1 by { assert SpanNot(t[1..], d) == 0; }
    assert t[..1] == "1" && t[1..] == "//3";
    assert Tokens("//3", d) == Tokens("/3", d) by { assert "//3"[1..] == "/3"; }
    assert Tokens("/3", d) == Tokens("3", d) by { assert "/3"[1..] == "3"; }
    TokensOfUndelimited("3", d);
  }

  /**
   * Token `"1//3"`: `strtok_s` collapses the empty field, so 3 lands in the texcoord
   * slot and the normal carries over.
   */
  lemma ReadCornerCollapsesEmptyField(prev: Corner)
    ensures ReadCorner(prev, "1//3") == Corner(1, 3, prev.Normal)
  {
    TokensOfOneSlashSlashThree();
    AtollOfDigit('1');
    AtollOfDigit('3');
  }

  /** A token not starting with a digit (the leading `f`, say) changes nothing. */
  lemma NonNumericTokenIgnored(s: Scene, part: Option<PartRef>, fc: FaceCursor, tok: seq<char>)
    requires tok != [] && !IsDigit(tok[0])
    ensures FaceToken(s, part, fc, tok) == Defined((s, fc))
  {
  }
}
