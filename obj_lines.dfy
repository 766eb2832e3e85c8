/**
 * How the OBJ and MTL readers cut their in-memory file into lines, and how they find
 * the directory a referenced file is resolved against (`ObjModel.cpp`).
 */
module ObjLines {
  import opened Common

  predicate IsNewline(c: char) { c == '\n' || c == '\r' }

  /**
   * Where the line scan that starts at `p` stops: the first `\n` or `\r` at or after `p`,
   * or the last byte of the buffer when there is none. That byte is then overwritten by
   * the terminator, so a last line without a newline loses its final character.
   */
  function LineEnd(text: seq<char>, p: nat): (q: nat)
    requires p < |text|
    ensures p <= q < |text|
    ensures forall j :: p <= j < q ==> !IsNewline(text[j])
    ensures IsNewline(text[q]) || q == |text| - 1
    decreases |text| - p
  {
    if IsNewline(text[p]) || p == |text| - 1 then p else LineEnd(text, p + 1)
  }

  /** Only the first newline at or after `p`, or the last byte, satisfies `LineEnd`'s contract. */
  lemma {:induction false} LineEndIsFirstStop(text: seq<char>, p: nat, q: nat)
    requires p <= q < |text|
    requires forall j :: p <= j < q ==> !IsNewline(text[j])
    requires IsNewline(text[q]) || q == |text| - 1
    ensures LineEnd(text, p) == q
    decreases q - p
  {
    if p < q {
      LineEndIsFirstStop(text, p + 1, q);
    }
  }

  /**
   * The start of the next OBJ line after the terminator at `q`: one step, then past any
   * run of `\n` and `\r`.
   */
  function SkipNewlines(text: seq<char>, j: nat): (k: nat)
    requires j <= |text|
    ensures j <= k <= |text|
    ensures forall i :: j <= i < k ==> IsNewline(text[i])
    ensures k < |text| ==> !IsNewline(text[k])
    decreases |text| - j
  {
    if j < |text| && IsNewline(text[j]) then SkipNewlines(text, j + 1) else j
  }

  /** The last index of `c` in `s` (`wcsrchr`). */
  function LastIndexOf(s: seq<char>, c: char): (r: Option<nat>)
    ensures r.Some? ==> r.value < |s| && s[r.value] == c
    ensures r.Some? ==> forall j :: r.value < j < |s| ==> s[j] != c
    ensures r.None? ==> c !in s
  {
    if s == [] then None
    else if s[|s| - 1] == c then Some(|s| - 1)
    else LastIndexOf(s[..|s| - 1], c)
  }

  /** The size, in wide characters, of the buffers the readers build file paths in. */
  const PATH_BUFFER: nat := 1024

  /**
   * `wcscpy_s` or `swprintf_s` into a `PATH_BUFFER` buffer succeeds when the path and its
   * terminator fit; otherwise the runtime's invalid-parameter handler ends the program.
   */
  predicate FitsPathBuffer(path: seq<char>) { |path| < PATH_BUFFER }

  predicate IsSeparator(c: char) { c == '\\' || c == '/' }

  /**
   * The directory of `filename`: the prefix through the later of the last `\` and the
   * last `/`, or empty when there is neither.
   */
  function DirPrefix(filename: seq<char>): (d: seq<char>)
    ensures |d| <= |filename| && d == filename[..|d|]
    ensures d == [] || IsSeparator(d[|d| - 1])
    ensures forall j :: |d| <= j < |filename| ==> !IsSeparator(filename[j])
  {
    var slash1 := LastIndexOf(filename, '\\');
    var slash2 := LastIndexOf(filename, '/');
    var s1 := if slash1.None? then slash2 else slash1;
    var s := if s1.Some? && slash2.Some? && slash2.value > s1.value then slash2 else s1;
    if s.Some? then filename[..s.value + 1] else []
  }

  /** A name without a separator has no directory. */
  lemma DirPrefixWithoutSeparator()
    ensures DirPrefix("scene.obj") == []
  {
    assert LastIndexOf("scene.obj", '\\') == None;
  }

  /** A `/` after the last `\` ends the directory. */
  lemma DirPrefixLaterSlash()
    ensures DirPrefix("a\\b/c.obj") == "a\\b/"
  {
    assert LastIndexOf("a\\b/c.obj", '/') == Some(3);
  }

  /** A `\` after the last `/` ends the directory. */
  lemma DirPrefixLaterBackslash()
    ensures DirPrefix("a/b\\c.obj") == "a/b\\"
  {
    assert LastIndexOf("a/b\\c.obj", '\\') == Some(3);
  }

  /** Taking the directory twice changes nothing. */
  lemma {:induction false} DirPrefixIdempotent(filename: seq<char>)
    ensures DirPrefix(DirPrefix(filename)) == DirPrefix(filename)
  {
    var d := DirPrefix(filename);
    var dd := DirPrefix(d);
    assert dd == d[..|dd|];
  }
}
