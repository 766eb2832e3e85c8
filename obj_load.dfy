/**
 * `ObjModel::Load`: the OBJ line loop and its directive dispatch (`ObjModel.cpp`), as a
 * function of the file contents. `currentObject` and `currentPart` are indices.
 */
module ObjLoad {
  import opened Common
  import opened Crt
  import opened ObjScene
  import opened ObjLines
  import opened ObjFace
  import opened ObjMtl

  /** `currentObject` and `currentPart`. */
  datatype ObjCursor = ObjCursor(Object: Option<nat>, Part: Option<PartRef>)

  const NoCursor := ObjCursor(None, None)

  /** After one line: go on with the new state, or return false with the state reached. */
  datatype LineResult = Continue(Scene: Scene, Cursor: ObjCursor) | Abort(Scene: Scene)

  /** The scene after an `o`/`g` line: one more object, named from column 2, with no part. */
  function NewObject(s: Scene, r: seq<char>): Scene
  {
    s.(Objects := s.Objects + [ObjModelObject(CStr(Drop(r, 2)), [])])
  }

  /** The scene after a `usemtl` line on object `o`: one more part there, starting at the end of the index list. */
  function NewPart(s: Scene, o: nat, r: seq<char>): Scene
    requires o < |s.Objects|
  {
    var obj := s.Objects[o];
    s.(Objects := s.Objects[o := obj.(Parts := obj.Parts + [ObjModelPart(CStr(Drop(r, 7)), |s.Indices|, 0)])])
  }

  /**
   * One line `r` (without its terminator) of the OBJ file `filename`. `mtllib` loads the
   * named material file from the OBJ file's directory and gives false when that fails.
   */
  function ObjLine(s: Scene, cur: ObjCursor, r: seq<char>, filename: seq<char>, files: map<seq<char>, seq<char>>): Outcome<LineResult>
  {
    var c0 := At(r, 0);
    if c0 == 'm' then
      if StrNIEq(CStr(r), "mtllib", 6) then
        var matFile := DirPrefix(filename) + CStr(Drop(r, 7));
        if !FitsPathBuffer(filename) || !FitsPathBuffer(matFile) then Undefined
        else match LoadMaterialsSpec(s.Materials, matFile, files)
          case Undefined => Undefined
          case Defined(None) => Defined(Abort(s))
          case Defined(Some(mats)) => Defined(Continue(s.(Materials := mats), cur))
      else Defined(Continue(s, cur))
    else if c0 == 'v' then
      var c1 := At(r, 1);
      if c1 == ' ' then Defined(Continue(s.(Positions := s.Positions + [CStr(r)]), cur))
      else if c1 == 't' then Defined(Continue(s.(TexCoords := s.TexCoords + [CStr(r)]), cur))
      else if c1 == 'n' then Defined(Continue(s.(Normals := s.Normals + [CStr(r)]), cur))
      else Defined(Continue(s, cur))
    else if c0 == 'f' then
      match FaceSpec(s, cur.Part, CStr(r))
      case Undefined => Undefined
      case Defined(s1) => Defined(Continue(s1, cur))
    else if c0 == 'o' || c0 == 'g' then
      Defined(Continue(NewObject(s, r), cur.(Object := Some(|s.Objects|))))
    else if c0 == 'u' then
      if StrNIEq(CStr(r), "usemtl", 6) then
        if cur.Object.None? || cur.Object.value >= |s.Objects| then Undefined
        else
          var o := cur.Object.value;
          Defined(Continue(NewPart(s, o, r), cur.(Part := Some(PartRef(o, |s.Objects[o].Parts|)))))
      else Defined(Continue(s, cur))
    else Defined(Continue(s, cur))
  }

  /** The line loop from `p` on: the result Load returns and the model it leaves. */
  function LoadFrom(text: seq<char>, p: nat, s: Scene, cur: ObjCursor, filename: seq<char>, files: map<seq<char>, seq<char>>): Outcome<(bool, Scene)>
    decreases |text| - p, 2
  {
    if p >= |text| then Defined((true, s)) else LineThenRest(text, p, s, cur, filename, files)
  }

  /** A line starts at `p`: it ends at `LineEnd(text, p)`. */
  function LineThenRest(text: seq<char>, p: nat, s: Scene, cur: ObjCursor, filename: seq<char>, files: map<seq<char>, seq<char>>): Outcome<(bool, Scene)>
    requires p < |text|
    decreases |text| - p, 1
  {
    CutLineThenRest(text, p, LineEnd(text, p), s, cur, filename, files)
  }

  /** The line `text[p..q]` dispatched, then the loop from the start of the next line. */
  function CutLineThenRest(text: seq<char>, p: nat, q: nat, s: Scene, cur: ObjCursor, filename: seq<char>,
                           files: map<seq<char>, seq<char>>): Outcome<(bool, Scene)>
    requires p <= q < |text|
    decreases |text| - p, 0
  {
    match ObjLine(s, cur, text[p..q], filename, files)
    case Undefined => Undefined
    case Defined(Abort(s1)) => Defined((false, s1))
    case Defined(Continue(s1, c1)) => LoadFrom(text, SkipNewlines(text, q + 1), s1, c1, filename, files)
  }

  /**
   * What `Load`'s switch did with the line `r`: Undefined exactly when the line's effect is,
   * else whether to go on, with the model after the line and, going on, the cursors.
   */
  ghost predicate LineDispatched(s: Scene, cur: ObjCursor, r: seq<char>, filename: seq<char>, files: map<seq<char>, seq<char>>,
                                 res: Outcome<bool>, s1: Scene, c1: ObjCursor)
  {
    var spec := ObjLine(s, cur, r, filename, files);
    && (res.Defined? <==> spec.Defined?)
    && (res.Defined? ==> (res.value <==> spec.value.Continue?) && s1 == spec.value.Scene)
    && (res == Defined(true) ==> c1 == spec.value.Cursor)
  }

  /**
   * A turn of the loop from the line at `p` that gave `res`, model `s1` and cursors `c1`,
   * seen from a loop whose whole result is `total`: a line that stops the loop gives that
   * result, any other leaves the rest of the loop, from the next line's start, with it.
   */
  ghost predicate TurnLeaves(text: seq<char>, p: nat, filename: seq<char>, files: map<seq<char>, seq<char>>,
                             total: Outcome<(bool, Scene)>, res: Outcome<bool>, s1: Scene, c1: ObjCursor)
    requires p < |text|
  {
    if res == Defined(true) then LoadFrom(text, SkipNewlines(text, LineEnd(text, p) + 1), s1, c1, filename, files) == total
    else (res.Defined? <==> total.Defined?) && (res.Defined? ==> res.value == total.value.0 && s1 == total.value.1)
  }

  /** A dispatched line is one turn of the loop. */
  lemma LoadTurn(text: seq<char>, p: nat, s: Scene, cur: ObjCursor, filename: seq<char>, files: map<seq<char>, seq<char>>,
                 total: Outcome<(bool, Scene)>, res: Outcome<bool>, s1: Scene, c1: ObjCursor)
    requires p < |text| && LoadFrom(text, p, s, cur, filename, files) == total
    requires LineDispatched(s, cur, text[p..LineEnd(text, p)], filename, files, res, s1, c1)
    ensures TurnLeaves(text, p, filename, files, total, res, s1, c1)
  {
    assert total == CutLineThenRest(text, p, LineEnd(text, p), s, cur, filename, files);
  }

  /** `Load(filename)`: false when the file cannot be opened, else the line loop from the start. */
  function LoadSpec(s: Scene, filename: seq<char>, files: map<seq<char>, seq<char>>): Outcome<(bool, Scene)>
  {
    if filename !in files then Defined((false, s))
    else LoadFrom(files[filename], 0, s, NoCursor, filename, files)
  }

  /** An `o` or `g` line appends exactly one object named from column 2 and makes it current; nothing else changes. */
  lemma ObjectLineAppends(s: Scene, cur: ObjCursor, r: seq<char>, filename: seq<char>, files: map<seq<char>, seq<char>>)
    requires At(r, 0) == 'o' || At(r, 0) == 'g'
    ensures ObjLine(s, cur, r, filename, files) == Defined(Continue(NewObject(s, r), ObjCursor(Some(|s.Objects|), cur.Part)))
    ensures NewObject(s, r).Objects == s.Objects + [ObjModelObject(CStr(Drop(r, 2)), [])]
    ensures NewObject(s, r).(Objects := s.Objects) == s
  {
  }

  /**
   * A `usemtl` line (any case) appends one part to the current object, with Material from
   * column 7, StartIndex = |Indices| and NumIndices = 0, and makes it the current part;
   * with no current object it dereferences null.
   */
  lemma UsemtlLineAppendsPart(s: Scene, cur: ObjCursor, r: seq<char>, filename: seq<char>, files: map<seq<char>, seq<char>>)
    requires At(r, 0) == 'u' && StrNIEq(CStr(r), "usemtl", 6)
    ensures cur.Object.None? ==> ObjLine(s, cur, r, filename, files) == Undefined
    ensures cur.Object.Some? && cur.Object.value < |s.Objects| ==>
      var o := cur.Object.value;
      var after := NewPart(s, o, r);
      && ObjLine(s, cur, r, filename, files) == Defined(Continue(after, ObjCursor(cur.Object, Some(PartRef(o, |s.Objects[o].Parts|)))))
      && after.Objects[o].Parts == s.Objects[o].Parts + [ObjModelPart(CStr(Drop(r, 7)), |s.Indices|, 0)]
      && after.Objects[o].Name == s.Objects[o].Name
      && |after.Objects| == |s.Objects|
      && (forall q :: 0 <= q < |s.Objects| && q != o ==> after.Objects[q] == s.Objects[q])
      && after.(Objects := s.Objects) == s
  {
  }

  /** `v `, `vt` and `vn` lines append one element to Positions, TexCoords and Normals. */
  lemma VertexDataLineAppends(s: Scene, cur: ObjCursor, r: seq<char>, filename: seq<char>, files: map<seq<char>, seq<char>>)
    requires At(r, 0) == 'v'
    ensures var after := ObjLine(s, cur, r, filename, files);
      && after.Defined? && after.value.Continue? && after.value.Cursor == cur
      && |after.value.Scene.Positions| + |after.value.Scene.TexCoords| + |after.value.Scene.Normals|
         == |s.Positions| + |s.TexCoords| + |s.Normals| + (if At(r, 1) in {' ', 't', 'n'} then 1 else 0)
      && after.value.Scene.(Positions := s.Positions, TexCoords := s.TexCoords, Normals := s.Normals) == s
  {
  }

  /**
   * An `mtllib` line whose material file cannot be opened makes Load return false at once,
   * once both the OBJ path and the material path fit their buffers.
   */
  lemma MissingMaterialFileAborts(s: Scene, cur: ObjCursor, r: seq<char>, filename: seq<char>, files: map<seq<char>, seq<char>>)
    requires At(r, 0) == 'm' && StrNIEq(CStr(r), "mtllib", 6)
    requires DirPrefix(filename) + CStr(Drop(r, 7)) !in files
    ensures var matFile := DirPrefix(filename) + CStr(Drop(r, 7));
      ObjLine(s, cur, r, filename, files)
        == if FitsPathBuffer(filename) && FitsPathBuffer(matFile) then Defined(Abort(s)) else Undefined
  {
  }

  /** An `mtllib` line whose OBJ path or material path overflows its buffer is undefined. */
  lemma LongMaterialPathUndefined(s: Scene, cur: ObjCursor, r: seq<char>, filename: seq<char>, files: map<seq<char>, seq<char>>)
    requires At(r, 0) == 'm' && StrNIEq(CStr(r), "mtllib", 6)
    ensures ObjLine(s, cur, r, filename, files) == Undefined <==>
      var matFile := DirPrefix(filename) + CStr(Drop(r, 7));
      || !FitsPathBuffer(filename) || !FitsPathBuffer(matFile)
      || LoadMaterialsSpec(s.Materials, matFile, files) == Undefined
  {
  }

  /** An OBJ file that cannot be opened: Load returns false and changes nothing. */
  lemma MissingFileFails(s: Scene, filename: seq<char>, files: map<seq<char>, seq<char>>)
    requires filename !in files
    ensures LoadSpec(s, filename, files) == Defined((false, s))
  {
  }

  lemma {:induction false} NewObjectKeepsInv(s: Scene, cur: ObjCursor, r: seq<char>)
    requires SceneInv(s, cur.Object, cur.Part)
    ensures SceneInv(NewObject(s, r), Some(|s.Objects|), cur.Part)
  {
    var after := NewObject(s, r);
    assert after.Objects[..|s.Objects|] == s.Objects;
    assert AllParts(after.Objects) == AllParts(s.Objects);
  }

  lemma {:induction false} NewPartKeepsInv(s: Scene, cur: ObjCursor, r: seq<char>)
    requires SceneInv(s, cur.Object, cur.Part)
    requires cur.Object.Some? && cur.Object.value < |s.Objects|
    ensures var o := cur.Object.value;
      SceneInv(NewPart(s, o, r), cur.Object, Some(PartRef(o, |s.Objects[o].Parts|)))
  {
    var o := cur.Object.value;
    var obj := s.Objects[o];
    var p := ObjModelPart(CStr(Drop(r, 7)), |s.Indices|, 0);
    var after := NewPart(s, o, r);
    AllPartsReplaceLast(s.Objects, o, obj.(Parts := obj.Parts + [p]));
    assert AllParts(after.Objects) == AllParts(s.Objects) + [p];
  }

  /** The cursors after a line: unchanged when the line aborts the load. */
  function CursorAfter(res: LineResult, cur: ObjCursor): ObjCursor
  {
    if res.Continue? then res.Cursor else cur
  }

  /** The invariant only looks at the vertices, indices, weld map and objects. */
  lemma SceneInvIgnoresData(s: Scene, s2: Scene, obj: Option<nat>, part: Option<PartRef>)
    requires SceneInv(s, obj, part)
    requires s2.Vertices == s.Vertices && s2.Indices == s.Indices
    requires s2.IndexMap == s.IndexMap && s2.Objects == s.Objects
    ensures SceneInv(s2, obj, part)
  {
  }

  /** Lines other than faces, objects and parts leave the vertices, indices, weld map, objects and cursors alone. */
  lemma ObjLineDataOnly(s: Scene, cur: ObjCursor, r: seq<char>, filename: seq<char>, files: map<seq<char>, seq<char>>)
    requires At(r, 0) != 'f' && At(r, 0) != 'o' && At(r, 0) != 'g'
    requires At(r, 0) == 'u' ==> !StrNIEq(CStr(r), "usemtl", 6)
    requires ObjLine(s, cur, r, filename, files).Defined?
    ensures var res := ObjLine(s, cur, r, filename, files).value;
      && res.Scene.Vertices == s.Vertices && res.Scene.Indices == s.Indices
      && res.Scene.IndexMap == s.IndexMap && res.Scene.Objects == s.Objects
      && CursorAfter(res, cur) == cur
  {
  }

  /** Every line keeps the importer's invariant (weld map, part tiling, cursors). */
  lemma {:induction false} ObjLineKeepsInv(s: Scene, cur: ObjCursor, r: seq<char>, filename: seq<char>, files: map<seq<char>, seq<char>>)
    requires SceneInv(s, cur.Object, cur.Part)
    requires ObjLine(s, cur, r, filename, files).Defined?
    ensures var res := ObjLine(s, cur, r, filename, files).value;
      SceneInv(res.Scene, CursorAfter(res, cur).Object, CursorAfter(res, cur).Part)
  {
    var res := ObjLine(s, cur, r, filename, files).value;
    var c0 := At(r, 0);
    if c0 == 'f' {
      FaceSpecKeepsInv(s, cur.Object, cur.Part, CStr(r));
    } else if c0 == 'o' || c0 == 'g' {
      NewObjectKeepsInv(s, cur, r);
    } else if c0 == 'u' && StrNIEq(CStr(r), "usemtl", 6) {
      NewPartKeepsInv(s, cur, r);
    } else {
      ObjLineDataOnly(s, cur, r, filename, files);
      SceneInvIgnoresData(s, res.Scene, cur.Object, cur.Part);
    }
  }

  lemma {:induction false} LoadFromKeepsInv(text: seq<char>, p: nat, s: Scene, cur: ObjCursor, filename: seq<char>, files: map<seq<char>, seq<char>>)
    requires SceneInv(s, cur.Object, cur.Part)
    requires LoadFrom(text, p, s, cur, filename, files).Defined?
    ensures exists c: ObjCursor :: SceneInv(LoadFrom(text, p, s, cur, filename, files).value.1, c.Object, c.Part)
    decreases |text| - p
  {
    if p >= |text| {
      assert SceneInv(LoadFrom(text, p, s, cur, filename, files).value.1, cur.Object, cur.Part);
    } else {
      var q := LineEnd(text, p);
      assert LoadFrom(text, p, s, cur, filename, files) == CutLineThenRest(text, p, q, s, cur, filename, files);
      ObjLineKeepsInv(s, cur, text[p..q], filename, files);
      var res := ObjLine(s, cur, text[p..q], filename, files).value;
      if res.Continue? {
        LoadFromKeepsInv(text, SkipNewlines(text, q + 1), res.Scene, res.Cursor, filename, files);
      } else {
        assert SceneInv(LoadFrom(text, p, s, cur, filename, files).value.1, cur.Object, cur.Part);
      }
    }
  }

  /**
   * A defined load into an empty model leaves a well-formed one, whether it returns true or
   * false: every index names a vertex slot, no two slots share a (position, texcoord,
   * normal) triple, and the parts' ranges tile the index list in creation order, the
   * last part ending at |Indices|.
   */
  lemma LoadSpecWellFormed(filename: seq<char>, files: map<seq<char>, seq<char>>)
    requires LoadSpec(EmptyScene, filename, files).Defined?
    ensures var s := LoadSpec(EmptyScene, filename, files).value.1;
      && (forall i :: 0 <= i < |s.Indices| ==> s.Indices[i] < |s.Vertices|)
      && NoDuplicates(s.Vertices)
      && PartsTile(AllParts(s.Objects), |s.Indices|)
  {
    WeldInvEmpty();
    assert SceneInv(EmptyScene, None, None);
    if filename in files {
      LoadFromKeepsInv(files[filename], 0, EmptyScene, NoCursor, filename, files);
    }
    var s := LoadSpec(EmptyScene, filename, files).value.1;
    var c: ObjCursor :| SceneInv(s, c.Object, c.Part);
    WeldInvNoDuplicates(s);
  }
}
