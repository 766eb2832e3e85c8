/**
 * The C runtime behaviour the asset tools rely on, stated over `seq<char>`:
 * NUL-terminated strings, `_strnicmp`, `strtok_s`, `atoll` and `isalnum`.
 */
module Crt {
  import opened Common

  /** The C string that starts at the beginning of `s`: everything before the first NUL. */
  function CStr(s: seq<char>): (r: seq<char>)
    ensures |r| <= |s| && r == s[..|r|]
    ensures '\0' !in r
    ensures |r| < |s| ==> s[|r|] == '\0'
  {
    if s == [] || s[0] == '\0' then [] else [s[0]] + CStr(s[1..])
  }

  /** A string with no NUL is its own C string. */
  lemma {:induction false} CStrOfNulFree(s: seq<char>)
    requires '\0' !in s
    ensures CStr(s) == s
  {
    if s != [] {
      assert '\0' !in s[1..];
      CStrOfNulFree(s[1..]);
    }
  }

  /** A terminator after `a` ends the C string there, whatever follows it. */
  lemma {:induction false} CStrOfTerminated(a: seq<char>, b: seq<char>)
    requires b != [] && b[0] == '\0'
    ensures CStr(a + b) == CStr(a)
  {
    if a != [] {
      assert (a + b)[1..] == a[1..] + b;
      CStrOfTerminated(a[1..], b);
    } else {
      assert a + b == b;
    }
  }

  /** Advancing a `char*` within a C string gives the rest of that C string. */
  lemma {:induction false} CStrSuffix(s: seq<char>, k: nat)
    requires k <= |CStr(s)|
    ensures CStr(s[k..]) == CStr(s)[k..]
  {
    if k > 0 {
      assert s[1..][k - 1..] == s[k..];
      CStrSuffix(s[1..], k - 1);
    }
  }

  /**
   * `strcpy_s` into a buffer of `capacity` characters: the characters up to the first NUL,
   * provided they and the terminator fit; `None` when they do not (the runtime's
   * invalid-parameter handler).
   */
  function StrCpyS(s: seq<char>, capacity: nat): Option<seq<char>>
  {
    if s == [] || s[0] == '\0' then (if capacity > 0 then Some([]) else None)
    else if capacity <= 1 then None
    else match StrCpyS(s[1..], capacity - 1)
      case None => None
      case Some(rest) => Some([s[0]] + rest)
  }

  /** `strcpy_s` succeeds exactly when the C string is shorter than the buffer, and copies it. */
  lemma {:induction false} StrCpySCopies(s: seq<char>, capacity: nat)
    ensures StrCpyS(s, capacity).Some? <==> |CStr(s)| < capacity
    ensures StrCpyS(s, capacity).Some? ==> StrCpyS(s, capacity).value == CStr(s)
  {
    if s != [] && s[0] != '\0' && capacity > 1 {
      StrCpySCopies(s[1..], capacity - 1);
    }
  }

  /** Arithmetic `line + k` within a C string; past the terminator the model reads "". */
  function Drop(s: seq<char>, k: nat): (r: seq<char>)
    ensures k <= |s| ==> r == s[k..]
    ensures k > |s| ==> r == []
  {
    if k <= |s| then s[k..] else []
  }

  /**
   * The character `*(line + k)` of a line whose terminator sits at index `|s|`:
   * reads at the terminator see NUL.
   */
  function At(s: seq<char>, k: nat): (c: char)
    ensures k < |s| ==> c == s[k]
    ensures k >= |s| ==> c == '\0'
  {
    if k < |s| then s[k] else '\0'
  }

  /** `tolower` in the C locale. */
  function AsciiLower(c: char): char
  {
    if 'A' <= c <= 'Z' then (c as int + 32) as char else c
  }

  /**
   * `_strnicmp(s, lit, n) == 0` for the C string `s` and a literal at least `n`
   * characters long: the first `n` characters agree up to case. A shorter `s`
   * compares its terminator with a non-NUL character and so differs.
   */
  predicate StrNIEq(s: seq<char>, lit: seq<char>, n: nat)
    requires n <= |lit|
  {
    n <= |s| && forall i :: 0 <= i < n ==> AsciiLower(s[i]) == AsciiLower(lit[i])
  }

  predicate IsDigit(c: char) { '0' <= c <= '9' }

  /** `isalnum` in the C locale. */
  predicate IsAlnum(c: char) { IsDigit(c) || 'a' <= c <= 'z' || 'A' <= c <= 'Z' }

  /** `isspace` in the C locale. */
  predicate IsSpace(c: char) { c == ' ' || c == '\t' || c == '\n' || c == '\U{B}' || c == '\U{C}' || c == '\r' }

  /** Length of the run of characters of `s` that are not in `delims`. */
  function SpanNot(s: seq<char>, delims: set<char>): (n: nat)
    ensures n <= |s|
    ensures forall i :: 0 <= i < n ==> s[i] !in delims
    ensures n < |s| ==> s[n] in delims
  {
    if s == [] || s[0] in delims then 0 else 1 + SpanNot(s[1..], delims)
  }

  /**
   * The tokens `strtok_s` returns on successive calls: the maximal non-empty runs of
   * characters outside `delims`, in order. Runs of delimiters produce no empty tokens.
   */
  function Tokens(s: seq<char>, delims: set<char>): (r: seq<seq<char>>)
    ensures forall t :: t in r ==> t != [] && forall i :: 0 <= i < |t| ==> t[i] !in delims
    decreases |s|
  {
    if s == [] then []
    else if s[0] in delims then Tokens(s[1..], delims)
    else
      var n := SpanNot(s, delims);
      [s[..n]] + Tokens(s[n..], delims)
  }

  /** Value of the leading decimal digits of `s`. */
  function DigitsValue(s: seq<char>, acc: nat): (v: nat)
    decreases |s|
  {
    if s == [] || !IsDigit(s[0]) then acc
    else DigitsValue(s[1..], acc * 10 + (s[0] as int - '0' as int))
  }

  /**
   * `atoll`: skip white space, read an optional sign and the decimal digits that follow.
   * The model does not saturate on values beyond the `long long` range.
   */
  function Atoll(s: seq<char>): int
    decreases |s|
  {
    if s != [] && IsSpace(s[0]) then Atoll(s[1..])
    else if s != [] && s[0] == '-' then -(DigitsValue(s[1..], 0) as int)
    else if s != [] && s[0] == '+' then DigitsValue(s[1..], 0)
    else DigitsValue(s, 0)
  }

  /** `(uint32_t)atoll(s)`. */
  function AtoU32(s: seq<char>): (r: nat)
    ensures r < U32_LIMIT
  {
    ToU32(Atoll(s))
  }

  lemma {:induction false} TokensNoDelims(s: seq<char>, delims: set<char>, k: nat)
    requires k < |Tokens(s, delims)|
    ensures Tokens(s, delims)[k] != []
    ensures forall i :: 0 <= i < |Tokens(s, delims)[k]| ==> Tokens(s, delims)[k][i] !in delims
  {
    assert Tokens(s, delims)[k] in Tokens(s, delims);
  }

  /** A string with no delimiter and at least one character is a single token. */
  lemma {:induction false} TokensOfUndelimited(s: seq<char>, delims: set<char>)
    requires s != []
    requires forall i :: 0 <= i < |s| ==> s[i] !in delims
    ensures Tokens(s, delims) == [s]
  {
    var n := SpanNot(s, delims);
    assert n == |s| && s[..n] == s && s[n..] == [];
    assert s[0] !in delims;
    assert Tokens(s, delims) == [s[..n]] + Tokens(s[n..], delims);
  }

  lemma {:induction false} DigitsValueOfDigits(d: char)
    requires IsDigit(d)
    ensures DigitsValue([d], 0) == d as int - '0' as int
  {
    assert [d][1..] == [];
  }
}
