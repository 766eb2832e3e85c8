/**
 * The triangles `ObjModel::ReadFace` emits for one `f` line, stated as a fan over the
 * line's corners (`ObjModel.cpp`): corner k >= 2 closes the triangle (first, k - 1, k),
 * and every corner of that triangle is welded to a vertex equal to it.
 */
module ObjFan {
  import opened Common
  import opened Crt
  import opened ObjScene
  import opened ObjFace

  /** The corners the numeric tokens describe, each read on top of the one before it. */
  function Corners(prev: Corner, toks: seq<seq<char>>): seq<Corner>
    decreases |toks|
  {
    if toks == [] then []
    else if IsDigit(At(toks[0], 0)) then
      var c := ReadCorner(prev, toks[0]);
      [c] + Corners(c, toks[1..])
    else Corners(prev, toks[1..])
  }

  /** The last of the corners `cs`; the face starts from the all-zero corner. */
  function LastCorner(cs: seq<Corner>): Corner
  {
    if cs == [] then NoCorner else cs[|cs| - 1]
  }

  /** The first corner of the face as the loop keeps it: `MergeFirst` with each corner in turn. */
  function MergedFirst(cs: seq<Corner>): Corner
    decreases |cs|
  {
    if cs == [] then NoCorner else MergeFirst(MergedFirst(cs[..|cs| - 1]), cs[|cs| - 1])
  }

  /** The face locals after the corners `pre`. */
  function CursorAfter(pre: seq<Corner>): FaceCursor
  {
    FaceCursor(MergedFirst(pre), LastCorner(pre), |pre|)
  }

  /** The triangle corner `k` closes: the first corner as merged up to `k`, corner `k - 1`, corner `k`. */
  function FanTriangle(cs: seq<Corner>, k: nat): seq<Corner>
    requires 2 <= k < |cs|
  {
    [MergedFirst(cs[..k + 1]), cs[k - 1], cs[k]]
  }

  /** The triangles of the corners `cs`, for corners 2, 3, ... in order. */
  function Fan(cs: seq<Corner>): seq<Corner>
    decreases |cs|
  {
    if |cs| < 3 then [] else Fan(cs[..|cs| - 1]) + FanTriangle(cs, |cs| - 1)
  }

  /** One corner more closes one triangle more, once there are at least two before it. */
  lemma {:induction false} FanSnoc(pre: seq<Corner>, c: Corner)
    ensures var cs := pre + [c];
      Fan(cs) == if |pre| >= 2 then Fan(pre) + FanTriangle(cs, |pre|) else []
  {
    var cs := pre + [c];
    assert cs[..|cs| - 1] == pre;
  }

  /** A fan of `n` corners has `3 * FanTriangles(n)` vertices. */
  lemma {:induction false} FanLength(cs: seq<Corner>)
    ensures |Fan(cs)| == 3 * FanTriangles(|cs|)
    decreases |cs|
  {
    if |cs| >= 3 {
      FanLength(cs[..|cs| - 1]);
    }
  }

  /** Triangle `k` of the fan depends only on the corners up to `k`. */
  lemma {:induction false} FanTrianglePrefix(cs: seq<Corner>, n: nat, k: nat)
    requires 2 <= k < n <= |cs|
    ensures FanTriangle(cs[..n], k) == FanTriangle(cs, k)
  {
    assert cs[..n][..k + 1] == cs[..k + 1];
  }

  /** The three vertices from `3 * (k - 2)` on are the triangle corner `k` closes. */
  lemma {:induction false} FanAt(cs: seq<Corner>, k: nat, j: nat)
    requires 2 <= k < |cs| && j < 3
    ensures 3 * (k - 2) + j < |Fan(cs)|
    ensures Fan(cs)[3 * (k - 2) + j] == FanTriangle(cs, k)[j]
    decreases |cs|
  {
    var prefix := cs[..|cs| - 1];
    FanLength(prefix);
    if k < |cs| - 1 {
      FanAt(prefix, k, j);
      FanTrianglePrefix(cs, |cs| - 1, k);
    }
  }

  /** Only numeric tokens give corners. */
  lemma {:induction false} CornersCount(prev: Corner, toks: seq<seq<char>>)
    ensures |Corners(prev, toks)| == NumericCount(toks)
    decreases |toks|
  {
    if toks != [] {
      if IsDigit(At(toks[0], 0)) {
        CornersCount(ReadCorner(prev, toks[0]), toks[1..]);
      } else {
        CornersCount(prev, toks[1..]);
      }
    }
  }

  /** Starting from a `uint32_t` corner, every corner read is one. */
  lemma {:induction false} CornersU32(prev: Corner, toks: seq<seq<char>>)
    requires CornerU32(prev)
    ensures forall i :: 0 <= i < |Corners(prev, toks)| ==> CornerU32(Corners(prev, toks)[i])
    decreases |toks|
  {
    if toks != [] {
      if IsDigit(At(toks[0], 0)) {
        CornersU32(ReadCorner(prev, toks[0]), toks[1..]);
      } else {
        CornersU32(prev, toks[1..]);
      }
    }
  }

  lemma {:induction false} MergedFirstU32(cs: seq<Corner>)
    requires forall i :: 0 <= i < |cs| ==> CornerU32(cs[i])
    ensures CornerU32(MergedFirst(cs))
    decreases |cs|
  {
    if cs != [] {
      MergedFirstU32(cs[..|cs| - 1]);
    }
  }

  /** A fan of `uint32_t` corners holds only `uint32_t` corners. */
  lemma {:induction false} FanU32(cs: seq<Corner>)
    requires forall i :: 0 <= i < |cs| ==> CornerU32(cs[i])
    ensures forall i :: 0 <= i < |Fan(cs)| ==> CornerU32(Fan(cs)[i])
  {
    FanLength(cs);
    forall i | 0 <= i < |Fan(cs)|
      ensures CornerU32(Fan(cs)[i])
    {
      var k, j := i / 3 + 2, i % 3;
      FanAt(cs, k, j);
      MergedFirstU32(cs[..k + 1]);
    }
  }

  /** A first corner with no zero field is the merged first corner of every longer face. */
  lemma {:induction false} MergedFirstComplete(cs: seq<Corner>)
    requires cs != [] && cs[0].Position != 0 && cs[0].TexCoord != 0 && cs[0].Normal != 0
    ensures MergedFirst(cs) == cs[0]
    decreases |cs|
  {
    if |cs| > 1 {
      MergedFirstComplete(cs[..|cs| - 1]);
    }
  }

  /** The quad a, b, c, d becomes the triangles (a, b, c) and (a, c, d). */
  lemma {:induction false} QuadFan(a: Corner, b: Corner, c: Corner, d: Corner)
    requires a.Position != 0 && a.TexCoord != 0 && a.Normal != 0
    ensures Fan([a, b, c, d]) == [a, b, c, a, c, d]
  {
    MergedFirstComplete([a, b, c]);
    MergedFirstComplete([a, b, c, d]);
    FanSnoc([a, b], c);
    FanSnoc([a, b, c], d);
    assert [a, b] + [c] == [a, b, c] && [a, b, c] + [d] == [a, b, c, d];
    assert [a, b, c][..3] == [a, b, c] && [a, b, c, d][..4] == [a, b, c, d];
    assert FanTriangle([a, b, c], 2) == [a, b, c];
    assert FanTriangle([a, b, c, d], 3) == [a, c, d];
  }

  /** Welding the corners of `a` and then those of `b` is welding those of `a + b`. */
  lemma {:induction false} CornersFromAppend(s: Scene, part: Option<PartRef>, a: seq<Corner>, b: seq<Corner>)
    ensures CornersFrom(s, part, a + b) == match CornersFrom(s, part, a)
      case Undefined => Undefined
      case Defined(s1) => CornersFrom(s1, part, b)
    decreases |a|
  {
    if a == [] {
      assert a + b == b;
    } else {
      assert (a + b)[0] == a[0];
      assert (a + b)[1..] == a[1..] + b;
      match CornerStep(s, part, a[0])
      case Undefined =>
      case Defined(s1) => CornersFromAppend(s1, part, a[1..], b);
    }
  }

  /** A numeric token after the corners `pre`: the loop's cursor and triangle, as a fan step. */
  lemma {:induction false} NumericTokenFan(s: Scene, part: Option<PartRef>, pre: seq<Corner>, tok: seq<char>)
    requires IsDigit(At(tok, 0))
    requires FaceToken(s, part, CursorAfter(pre), tok).Defined?
    ensures var cur := ReadCorner(LastCorner(pre), tok);
      var pre1 := pre + [cur];
      var step := FaceToken(s, part, CursorAfter(pre), tok).value;
      && step.1 == CursorAfter(pre1)
      && |Fan(pre)| <= |Fan(pre1)| && Fan(pre1)[..|Fan(pre)|] == Fan(pre)
      && Defined(step.0) == CornersFrom(s, part, Fan(pre1)[|Fan(pre)|..])
  {
    var cur := ReadCorner(LastCorner(pre), tok);
    var pre1 := pre + [cur];
    assert pre1[..|pre1| - 1] == pre;
    FanSnoc(pre, cur);
    if |pre| >= 2 {
      assert pre1[..|pre| + 1] == pre1;
      assert pre1[|pre| - 1] == LastCorner(pre);
      assert Fan(pre1)[|Fan(pre)|..] == FanTriangle(pre1, |pre|);
    }
  }

  lemma {:induction false} FaceFromUnfold(s: Scene, part: Option<PartRef>, fc: FaceCursor, toks: seq<seq<char>>)
    requires toks != [] && FaceFrom(s, part, fc, toks).Defined?
    ensures FaceToken(s, part, fc, toks[0]).Defined?
    ensures var step := FaceToken(s, part, fc, toks[0]).value;
      FaceFrom(s, part, fc, toks) == FaceFrom(step.0, part, step.1, toks[1..])
  {
  }

  lemma {:induction false} CornersAfterNumeric(pre: seq<Corner>, toks: seq<seq<char>>)
    requires toks != [] && IsDigit(At(toks[0], 0))
    ensures var cur := ReadCorner(LastCorner(pre), toks[0]);
      && LastCorner(pre + [cur]) == cur
      && pre + Corners(LastCorner(pre), toks) == (pre + [cur]) + Corners(cur, toks[1..])
  {
    var cur := ReadCorner(LastCorner(pre), toks[0]);
    var rest := Corners(cur, toks[1..]);
    assert Corners(LastCorner(pre), toks) == [cur] + rest;
    assert pre + ([cur] + rest) == (pre + [cur]) + rest;
  }

  /** `f` before `f1` before `fa`: what `fa` adds past `f` is what `f1` adds, then the rest. */
  lemma {:induction false} PrefixSplit<T>(f: seq<T>, f1: seq<T>, fa: seq<T>)
    requires |f| <= |f1| && f1[..|f|] == f && |f1| <= |fa| && fa[..|f1|] == f1
    ensures fa[..|f|] == f && fa[|f|..] == f1[|f|..] + fa[|f1|..]
  {
    assert fa[..|f|] == fa[..|f1|][..|f|];
  }

  /**
   * After the corners `pre`, the rest of the face welds exactly the part of the whole
   * fan that the corners after `pre` add.
   */
  lemma {:induction false} FaceFromFan(s: Scene, part: Option<PartRef>, pre: seq<Corner>, toks: seq<seq<char>>)
    requires FaceFrom(s, part, CursorAfter(pre), toks).Defined?
    ensures var all := pre + Corners(LastCorner(pre), toks);
      && |Fan(pre)| <= |Fan(all)| && Fan(all)[..|Fan(pre)|] == Fan(pre)
      && FaceFrom(s, part, CursorAfter(pre), toks) == CornersFrom(s, part, Fan(all)[|Fan(pre)|..])
    decreases |toks|
  {
    var all := pre + Corners(LastCorner(pre), toks);
    if toks == [] {
      assert all == pre;
    } else {
      var fc := CursorAfter(pre);
      var tok := toks[0];
      FaceFromUnfold(s, part, fc, toks);
      var step := FaceToken(s, part, fc, tok).value;
      if !IsDigit(At(tok, 0)) {
        FaceFromFan(s, part, pre, toks[1..]);
      } else {
        var cur := ReadCorner(LastCorner(pre), tok);
        var pre1 := pre + [cur];
        NumericTokenFan(s, part, pre, tok);
        CornersAfterNumeric(pre, toks);
        FaceFromFan(step.0, part, pre1, toks[1..]);
        var f, f1, fa := Fan(pre), Fan(pre1), Fan(all);
        PrefixSplit(f, f1, fa);
        CornersFromAppend(s, part, f1[|f|..], fa[|f1|..]);
      }
    }
  }

  /** `r` keeps the vertices and the indices of `s`, and may add more after them. */
  predicate KeepsWeld(s: Scene, r: Scene)
  {
    IsPrefix(s.Vertices, r.Vertices) && IsPrefix(s.Indices, r.Indices)
  }

  /** The indices `ix'` adds after `ix` name, in order, vertices of `vs'` equal to `keys`. */
  predicate WeldsTo(ix: seq<nat>, ix': seq<nat>, vs': seq<Corner>, keys: seq<Corner>)
  {
    && |ix'| == |ix| + |keys|
    && forall j :: 0 <= j < |keys| ==> ix'[|ix| + j] < |vs'| && vs'[ix'[|ix| + j]] == keys[j]
  }

  /** `a` is a prefix of `b`. */
  predicate IsPrefix<T(==)>(a: seq<T>, b: seq<T>) { |a| <= |b| && forall i :: 0 <= i < |a| ==> b[i] == a[i] }

  /** One welded corner followed by welded `keys`, the later steps keeping what came before. */
  lemma {:induction false} WeldsToCons(ix: seq<nat>, ix1: seq<nat>, vs1: seq<Corner>, ix2: seq<nat>, vs2: seq<Corner>, c: Corner, keys: seq<Corner>)
    requires WeldsTo(ix, ix1, vs1, [c]) && IsPrefix(ix1, ix2) && IsPrefix(vs1, vs2)
    requires WeldsTo(ix1, ix2, vs2, keys)
    ensures WeldsTo(ix, ix2, vs2, [c] + keys)
  {
    var n := |ix|;
    var all := [c] + keys;
    assert [c][0] == c;
    assert ix1[n] < |vs1| && vs1[ix1[n]] == c;
    assert ix2[n] == ix1[n];
    assert vs2[ix1[n]] == vs1[ix1[n]];
    forall j | 0 <= j < |all|
      ensures ix2[n + j] < |vs2| && vs2[ix2[n + j]] == all[j]
    {
      if j > 0 {
        assert all[j] == keys[j - 1];
        assert n + j == |ix1| + (j - 1);
      }
    }
  }

  lemma {:induction false} IsPrefixTrans<T>(a: seq<T>, b: seq<T>, c: seq<T>)
    requires IsPrefix(a, b) && IsPrefix(b, c)
    ensures IsPrefix(a, c)
  {
    assert c[..|a|] == c[..|b|][..|a|];
  }

  /** A welding step from (vs, ix) to (vs1, ix1) followed by one to (vs2, ix2). */
  lemma {:induction false} WeldStepsCompose(vs: seq<Corner>, ix: seq<nat>, vs1: seq<Corner>, ix1: seq<nat>, vs2: seq<Corner>, ix2: seq<nat>,
                         c: Corner, keys: seq<Corner>)
    requires IsPrefix(vs, vs1) && IsPrefix(ix, ix1) && WeldsTo(ix, ix1, vs1, [c])
    requires IsPrefix(vs1, vs2) && IsPrefix(ix1, ix2) && WeldsTo(ix1, ix2, vs2, keys)
    ensures IsPrefix(vs, vs2) && IsPrefix(ix, ix2) && WeldsTo(ix, ix2, vs2, [c] + keys)
  {
    WeldsToCons(ix, ix1, vs1, ix2, vs2, c, keys);
    IsPrefixTrans(vs, vs1, vs2);
    IsPrefixTrans(ix, ix1, ix2);
  }

  /** From `s` to `r` the corners `keys` were welded, and what `s` held was kept. */
  predicate Welded(s: Scene, r: Scene, keys: seq<Corner>)
  {
    KeepsWeld(s, r) && WeldsTo(s.Indices, r.Indices, r.Vertices, keys)
  }

  lemma {:induction false} WeldedCompose(s: Scene, s1: Scene, r: Scene, keys: seq<Corner>)
    requires keys != [] && Welded(s, s1, [keys[0]]) && Welded(s1, r, keys[1..])
    ensures Welded(s, r, keys)
  {
    WeldStepsCompose(s.Vertices, s.Indices, s1.Vertices, s1.Indices, r.Vertices, r.Indices, keys[0], keys[1..]);
    assert [keys[0]] + keys[1..] == keys;
  }

  /** One corner: a new index after the old ones names a vertex equal to the corner. */
  lemma {:induction false} CornerStepWelds(s: Scene, part: Option<PartRef>, c: Corner, r: Scene)
    requires WeldInv(s) && IsU32(c.TexCoord)
    requires CornerStep(s, part, c) == Defined(r)
    ensures WeldInv(r) && Welded(s, r, [c])
  {
    var s1 := WeldCorner(s, c).value;
    WeldCornerWelds(s, c, s1);
    assert r == s1.(Objects := r.Objects);
  }

  lemma {:induction false} WeldCornerWelds(s: Scene, c: Corner, s1: Scene)
    requires WeldInv(s) && IsU32(c.TexCoord)
    requires WeldCorner(s, c) == Defined(s1)
    ensures WeldInv(s1) && Welded(s, s1, [c])
  {
    WeldCornerSpec(s, c);
    if c in s.Vertices {
      assert s1.Indices[|s.Indices|] < |s1.Vertices|;
      PushWelds(s.Vertices, s.Indices, s1.Vertices, s1.Indices, c);
    } else {
      PushWelds(s.Vertices, s.Indices, s1.Vertices, s1.Indices, c);
    }
  }

  /** Pushing the slot of a vertex equal to `c`, existing or appended, welds `c`. */
  lemma {:induction false} PushWelds(vs: seq<Corner>, ix: seq<nat>, vs': seq<Corner>, ix': seq<nat>, c: Corner)
    requires || (vs' == vs && |ix'| == |ix| + 1 && ix'[..|ix|] == ix && ix'[|ix|] < |vs| && vs[ix'[|ix|]] == c)
             || (vs' == vs + [c] && ix' == ix + [|vs|])
    ensures IsPrefix(vs, vs') && IsPrefix(ix, ix') && WeldsTo(ix, ix', vs', [c])
  {
    assert [c][0] == c;
    assert vs'[..|vs|] == vs;
  }

  /** The first corner welded, the rest of `keys` on the scene it leaves. */
  lemma {:induction false} CornersFromUnfold(s: Scene, part: Option<PartRef>, keys: seq<Corner>, r: Scene) returns (s1: Scene)
    requires keys != [] && CornersFrom(s, part, keys) == Defined(r)
    ensures CornerStep(s, part, keys[0]) == Defined(s1) && CornersFrom(s1, part, keys[1..]) == Defined(r)
  {
    s1 := CornerStep(s, part, keys[0]).value;
  }

  /** Each corner of `keys`, in order, is welded to an index naming a vertex equal to it. */
  lemma {:induction false} CornersFromWelds(s: Scene, part: Option<PartRef>, keys: seq<Corner>, r: Scene)
    requires WeldInv(s)
    requires forall i :: 0 <= i < |keys| ==> IsU32(keys[i].TexCoord)
    requires CornersFrom(s, part, keys) == Defined(r)
    ensures Welded(s, r, keys)
    decreases |keys|
  {
    if keys == [] {
      assert s.Vertices[..|s.Vertices|] == s.Vertices && s.Indices[..|s.Indices|] == s.Indices;
    } else {
      var s1 := CornersFromUnfold(s, part, keys, r);
      CornerStepWelds(s, part, keys[0], s1);
      CornersFromWelds(s1, part, keys[1..], r);
      WeldedCompose(s, s1, r, keys);
    }
  }

  /**
   * The whole `f` line: the indices it appends, after the old ones, name in order
   * vertices equal to the corners of the fan over the line's numeric tokens, and the
   * old vertices and indices stay as they were.
   */
  lemma {:induction false} FaceSpecFan(s: Scene, part: Option<PartRef>, line: seq<char>, r: Scene)
    requires WeldInv(s)
    requires FaceSpec(s, part, line) == Defined(r)
    ensures var fan := Fan(Corners(NoCorner, Tokens(line, {' '})));
      KeepsWeld(s, r) && WeldsTo(s.Indices, r.Indices, r.Vertices, fan)
  {
    var toks := Tokens(line, {' '});
    var cs := Corners(NoCorner, toks);
    FaceSpecIsFan(s, part, line);
    CornersU32(NoCorner, toks);
    FanU32(cs);
    CornersFromWelds(s, part, Fan(cs), r);
  }

  /** A face that is defined welds, in order, the corners of the fan over its numeric tokens. */
  lemma {:induction false} FaceSpecIsFan(s: Scene, part: Option<PartRef>, line: seq<char>)
    requires FaceSpec(s, part, line).Defined?
    ensures FaceSpec(s, part, line) == CornersFrom(s, part, Fan(Corners(NoCorner, Tokens(line, {' '}))))
  {
    var toks := Tokens(line, {' '});
    var cs := Corners(NoCorner, toks);
    assert CursorAfter([]) == FaceStart;
    assert [] + cs == cs;
    FaceFromFan(s, part, [], toks);
  }

  /**
   * A welded fan, triangle by triangle: the three indices from `3 * (k - 2)` past the old
   * ones name the merged first corner, corner `k - 1` and corner `k`, for each corner `k >= 2`.
   */
  lemma {:induction false} WeldedFanAt(ix: seq<nat>, ix': seq<nat>, vs': seq<Corner>, cs: seq<Corner>, k: nat)
    requires WeldsTo(ix, ix', vs', Fan(cs)) && 2 <= k < |cs|
    ensures var at := |ix| + 3 * (k - 2);
      && at + 2 < |ix'| && ix'[at] < |vs'| && ix'[at + 1] < |vs'| && ix'[at + 2] < |vs'|
      && vs'[ix'[at]] == MergedFirst(cs[..k + 1])
      && vs'[ix'[at + 1]] == cs[k - 1]
      && vs'[ix'[at + 2]] == cs[k]
  {
    var i := 3 * (k - 2);
    FanAt(cs, k, 0);
    FanAt(cs, k, 1);
    FanAt(cs, k, 2);
    WeldsToAt(ix, ix', vs', Fan(cs), i);
    WeldsToAt(ix, ix', vs', Fan(cs), i + 1);
    WeldsToAt(ix, ix', vs', Fan(cs), i + 2);
  }

  lemma {:induction false} WeldsToAt(ix: seq<nat>, ix': seq<nat>, vs': seq<Corner>, keys: seq<Corner>, i: nat)
    requires WeldsTo(ix, ix', vs', keys) && i < |keys|
    ensures ix'[|ix| + i] < |vs'| && vs'[ix'[|ix| + i]] == keys[i]
  {
  }
}
