/** Trimming, widening, slash normalisation and extension replacement on paths and config lines. */
module StringHelpers {
  import opened Crt

  /** The only characters the trimming helpers treat as white space. */
  predicate IsBlank(c: char) { c == ' ' || c == '\t' }

  /** `TrimLeadingWhitespace`: the suffix that starts at the first non-blank character. */
  function TrimLeadingWhitespace(s: seq<char>): (r: seq<char>)
    ensures |r| <= |s|
    ensures forall i :: 0 <= i < |s| - |r| ==> IsBlank(s[i])
    ensures r != [] ==> !IsBlank(r[0])
  {
    if s != [] && IsBlank(s[0]) then TrimLeadingWhitespace(s[1..]) else s
  }

  /** What `TrimLeadingWhitespace` leaves is a suffix of its input. */
  lemma {:induction false} TrimLeadingIsSuffix(s: seq<char>)
    ensures TrimLeadingWhitespace(s) == s[|s| - |TrimLeadingWhitespace(s)|..]
  {
    if s != [] && IsBlank(s[0]) {
      TrimLeadingIsSuffix(s[1..]);
    }
  }

  /**
   * Where `TrimTrailingWhitespace` writes its terminator: one past the last
   * non-blank character, but never before the second character.
   */
  function TrimmedLength(s: seq<char>): (n: nat)
    requires s != []
    ensures 1 <= n <= |s|
    ensures forall i :: n <= i < |s| ==> IsBlank(s[i])
    ensures n > 1 ==> !IsBlank(s[n - 1])
  {
    if |s| == 1 || !IsBlank(s[|s| - 1]) then |s| else TrimmedLength(s[..|s| - 1])
  }

  /**
   * The string `TrimTrailingWhitespace` leaves. On the empty string the source steps
   * one character before the start and writes the terminator back in place, so the
   * value stays empty.
   */
  function TrimTrailing(s: seq<char>): (r: seq<char>)
  {
    if s == [] then [] else s[..TrimmedLength(s)]
  }

  lemma TrimTrailingSpec(s: seq<char>)
    ensures |TrimTrailing(s)| <= |s| && TrimTrailing(s) == s[..|TrimTrailing(s)|]
    ensures forall i :: |TrimTrailing(s)| <= i < |s| ==> IsBlank(s[i])
    ensures |TrimTrailing(s)| > 1 ==> !IsBlank(TrimTrailing(s)[|TrimTrailing(s)| - 1])
    ensures s != [] && !IsBlank(s[|s| - 1]) ==> TrimTrailing(s) == s
    ensures (s != [] && forall i :: 0 <= i < |s| ==> IsBlank(s[i])) ==> TrimTrailing(s) == s[..1]
  {
  }

  /** Index of the first NUL at or after `from`. */
  function NulAt(b: seq<char>, from: nat): (k: nat)
    requires from <= |b|
    requires '\0' in b[from..]
    ensures from <= k < |b| && b[k] == '\0'
    ensures forall i :: from <= i < k ==> b[i] != '\0'
    decreases |b| - from
  {
    if b[from] == '\0' then from else (assert b[from..] == [b[from]] + b[from + 1..]; NulAt(b, from + 1))
  }

  lemma CStrUpToNul(b: seq<char>, from: nat)
    requires from <= |b|
    requires '\0' in b[from..]
    ensures CStr(b[from..]) == b[from..NulAt(b, from)]
  {
    var k := NulAt(b, from);
    var c := CStr(b[from..]);
    assert forall i :: 0 <= i < |c| ==> c[i] == b[from + i];
    assert |c| < |b[from..]| ==> b[from + |c|] == '\0';
  }

  /** `TrimmedLength` is the only cut with its three properties. */
  lemma TrimmedLengthUnique(s: seq<char>, m: nat)
    requires 1 <= m <= |s|
    requires forall j :: m <= j < |s| ==> IsBlank(s[j])
    requires m == 1 || !IsBlank(s[m - 1])
    ensures TrimmedLength(s) == m
  {
  }

  /**
   * `TrimTrailingWhitespace`: in place on the C string that starts at `line` in `buf`.
   * It walks to the terminator, steps back over blanks (never past the first
   * character) and writes a new terminator after the character it stopped at. On an
   * empty string the step back reads the character before `line`, the scan stops there at
   * once, and the terminator is written over itself; at the start of the buffer that read
   * is out of bounds.
   */
  method TrimTrailingWhitespace(buf: array<char>, line: nat)
    requires line < buf.Length
    requires '\0' in buf[line..]
    requires buf[line] != '\0' || line > 0
    modifies buf
    ensures CStr(old(buf[line..])) == [] ==> buf[..] == old(buf[..])
    ensures CStr(old(buf[line..])) != [] ==>
      buf[..] == old(buf[..])[line + TrimmedLength(CStr(old(buf[line..]))) := '\0']
  {
    var p := EndOfString(buf, line);
    if p == line {
      // the backward scan stops at once at line - 1, as `p > line` fails
      assert CStr(buf[line..]) == [];
      p := p - 1;
      buf[p + 1] := '\0';
    } else {
      TrimBack(buf, line, p);
    }
  }

  /** The rest of `TrimTrailingWhitespace` on a non-empty string whose terminator is at `end`. */
  method TrimBack(buf: array<char>, line: nat, end: nat)
    requires line < end < buf.Length && '\0' in buf[line..] && end == NulAt(buf[..], line)
    modifies buf
    ensures CStr(old(buf[line..])) != []
    ensures buf[..] == old(buf[..])[line + TrimmedLength(CStr(old(buf[line..]))) := '\0']
  {
    ghost var b := buf[..];
    assert b[line..] == buf[line..];
    ghost var s := CStr(b[line..]);
    CStrUpToNul(b, line);
    assert |s| == end - line;
    var p := end - 1;
    assert forall j :: line <= j < line + |s| ==> buf[j] == s[j - line];
    p := BackOverBlanks(buf, line, p);
    assert forall j :: p - line < j < |s| ==> IsBlank(s[j]) by {
      forall j | p - line < j < |s| ensures IsBlank(s[j]) {
        assert buf[line + j] == s[j];
      }
    }
    TrimmedLengthUnique(s, p - line + 1);
    assert buf[..] == b;
    buf[p + 1] := '\0';
    assert buf[..] == b[line + TrimmedLength(s) := '\0'];
  }

  /** `while (*p != 0) ++p;` from `line`: the index of its terminator. */
  method EndOfString(buf: array<char>, line: nat) returns (p: nat)
    requires line <= buf.Length && '\0' in buf[line..]
    ensures p == NulAt(buf[..], line)
  {
    assert buf[..][line..] == buf[line..];
    ghost var k := NulAt(buf[..], line);
    p := line;
    while buf[p] != '\0'
      invariant line <= p <= k
      decreases k - p
    {
      p := p + 1;
    }
  }

  /**
   * `while ((*p == ' ' || *p == '\t') && p > line) --p;` from `last`: the blanks it steps
   * over, and where it stops.
   */
  method BackOverBlanks(buf: array<char>, line: nat, last: nat) returns (p: nat)
    requires line <= last < buf.Length
    ensures line <= p <= last
    ensures forall j :: p < j <= last ==> IsBlank(buf[j])
    ensures p == line || !IsBlank(buf[p])
  {
    p := last;
    while (buf[p] == ' ' || buf[p] == '\t') && p > line
      invariant line <= p <= last
      invariant forall j :: p < j <= last ==> IsBlank(buf[j])
    {
      p := p - 1;
    }
  }

  lemma NulAtUnique(b: seq<char>, from: nat, k: nat)
    requires from <= k < |b| && b[k] == '\0'
    requires forall i :: from <= i < k ==> b[i] != '\0'
    ensures '\0' in b[from..]
    ensures NulAt(b, from) == k
    decreases k - from
  {
    assert b[from..][k - from] == '\0';
    if from < k { NulAtUnique(b, from + 1, k); }
  }

  /** The trimmed C string seen from `line` after `TrimTrailingWhitespace`. */
  lemma TrimTrailingWhitespaceValue(b: seq<char>, line: nat)
    requires line < |b| && b[line] != '\0'
    requires '\0' in b[line..]
    ensures CStr(b[line..]) != []
    ensures line + TrimmedLength(CStr(b[line..])) < |b|
    ensures CStr(b[line + TrimmedLength(CStr(b[line..])) := '\0'][line..]) == TrimTrailing(CStr(b[line..]))
  {
    CStrUpToNul(b, line);
    var s := CStr(b[line..]);
    var n := TrimmedLength(s);
    var b' := b[line + n := '\0'];
    NulAtUnique(b', line, line + n);
    CStrUpToNul(b', line);
    assert b'[line..line + n] == s[..n];
  }

  /**
   * One `char` copied into a `wchar_t` by `ConvertToWide`. The compiler's `char` is
   * signed, so bytes 0x80..0xFF become 0xFF80..0xFFFF.
   */
  function Widen(c: char): (w: char)
    ensures c as int < 0x80 ==> w == c
  {
    if 0x80 <= c as int < 0x100 then (c as int + 0xFF00) as char else c
  }

  /** `ConvertToWide`: same length, i-th code unit widened from the i-th character. */
  function ConvertToWide(s: seq<char>): (r: seq<char>)
    ensures |r| == |s|
    ensures forall i :: 0 <= i < |s| ==> r[i] == Widen(s[i])
  {
    if s == [] then [] else [Widen(s[0])] + ConvertToWide(s[1..])
  }

  lemma ConvertToWideAscii(s: seq<char>)
    requires forall i :: 0 <= i < |s| ==> s[i] as int < 0x80
    ensures ConvertToWide(s) == s
  {
  }

  function Slash(c: char): char { if c == '\\' then '/' else c }

  /** `NormalizeSlashes` as a value: every backslash becomes a forward slash. */
  function NormalizedSlashes(s: seq<char>): (r: seq<char>)
    ensures |r| == |s|
    ensures forall i :: 0 <= i < |s| ==> r[i] == (if s[i] == '\\' then '/' else s[i])
  {
    if s == [] then [] else [Slash(s[0])] + NormalizedSlashes(s[1..])
  }

  /** `NormalizeSlashes`: in place on the path's characters. */
  method NormalizeSlashes(path: array<char>)
    modifies path
    ensures path[..] == NormalizedSlashes(old(path[..]))
  {
    var i := 0;
    while i < path.Length
      invariant 0 <= i <= path.Length
      invariant forall k :: 0 <= k < i ==> path[k] == Slash(old(path[k]))
      invariant forall k :: i <= k < path.Length ==> path[k] == old(path[k])
    {
      if path[i] == '\\' {
        path[i] := '/';
      }
      i := i + 1;
    }
  }

  lemma NormalizedSlashesProperties(s: seq<char>)
    ensures '\\' !in NormalizedSlashes(s)
    ensures NormalizedSlashes(NormalizedSlashes(s)) == NormalizedSlashes(s)
    ensures '\\' !in s ==> NormalizedSlashes(s) == s
  {
  }

  /** `EnsureTrailingSlash`. */
  function EnsureTrailingSlash(path: seq<char>): (r: seq<char>)
    ensures path == [] ==> r == []
    ensures path != [] ==> r != [] && r[|r| - 1] == '/'
    ensures r == path || r == path + ['/']
    ensures path != [] && path[|path| - 1] == '/' ==> r == path
  {
    if |path| > 0 && path[|path| - 1] != '/' then path + ['/'] else path
  }

  lemma EnsureTrailingSlashIdempotent(path: seq<char>)
    ensures EnsureTrailingSlash(EnsureTrailingSlash(path)) == EnsureTrailingSlash(path)
  {
  }

  /**
   * The backward scan of `ReplaceExtension` over `s[..i]`: the index of the last `.`
   * that comes after the last `/`, if there is one.
   */
  function ExtensionDot(s: seq<char>, i: nat): (r: Common.Option<nat>)
    requires i <= |s|
    ensures r.Some? ==> (r.value < i && s[r.value] == '.'
      && forall j :: r.value < j < i ==> s[j] != '/' && s[j] != '.')
    ensures r.None? ==> forall j :: 0 <= j < i && s[j] == '.' ==> exists k :: j < k < i && s[k] == '/'
  {
    if i == 0 then Common.None
    else if s[i - 1] == '/' then Common.None
    else if s[i - 1] == '.' then Common.Some(i - 1)
    else ExtensionDot(s, i - 1)
  }

  /** `ReplaceExtension`. */
  function ReplaceExtension(source: seq<char>, newExt: seq<char>): (r: seq<char>)
    ensures match ExtensionDot(source, |source|)
      case Some(k) => r == source[..k + 1] + newExt
      case None => r == source + ['.'] + newExt
    ensures |r| > |newExt| && r[|r| - |newExt| - 1..] == ['.'] + newExt
  {
    match ExtensionDot(source, |source|)
    case Some(k) => source[..k + 1] + newExt
    case None => source + ['.'] + newExt
  }

  /** With an extension free of `.` and `/`, replacing it a second time changes nothing. */
  lemma ReplaceExtensionIdempotent(source: seq<char>, newExt: seq<char>)
    requires '.' !in newExt && '/' !in newExt
    ensures ReplaceExtension(ReplaceExtension(source, newExt), newExt) == ReplaceExtension(source, newExt)
  {
    var r := ReplaceExtension(source, newExt);
    var d := |r| - |newExt| - 1;
    assert r[d] == '.';
    assert forall j :: d < j < |r| ==> r[j] == newExt[j - d - 1];
    ExtensionDotFinds(r, |r|, d);
    assert r[..d + 1] + newExt == r;
  }

  lemma ExtensionDotFinds(s: seq<char>, i: nat, d: nat)
    requires d < i <= |s| && s[d] == '.'
    requires forall j :: d < j < i ==> s[j] != '/' && s[j] != '.'
    ensures ExtensionDot(s, i) == Common.Some(d)
    decreases i
  {
    if i - 1 != d { ExtensionDotFinds(s, i - 1, d); }
  }

  /** Only `/` stops the scan: a `.` before a backslash still counts as the extension. */
  lemma ReplaceExtensionBackslash()
    ensures ReplaceExtension("a.b\\c", "model") == "a.model"
  {
    ExtensionDotFinds("a.b\\c", 5, 1);
  }
}
