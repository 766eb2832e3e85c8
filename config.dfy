/**
 * `ReadConfig` (`Main.cpp`): the config file is read into a buffer, cut into lines in
 * place, each line trimmed and matched against the `SourceRoot:`, `OutputRoot:` and
 * `Model:` directives.
 */
module Config {
  import opened Common
  import opened Crt
  import opened StringHelpers
  import opened AssetTypes
  import opened ObjLines

  /** The three out-parameters of `ReadConfig`. */
  datatype ConfigState = ConfigState(SourceRoot: seq<char>, OutputRoot: seq<char>, Assets: seq<SourceAsset>)

  const NoConfig := ConfigState([], [], [])

  /** Where the line scan from `p` stops: the first `\n` or `\r`, or the end of the buffer. */
  function LineStop(text: seq<char>, p: nat): (q: nat)
    requires p <= |text|
    ensures p <= q <= |text|
    ensures forall j :: p <= j < q ==> !IsNewline(text[j])
    ensures q < |text| ==> IsNewline(text[q])
    decreases |text| - p
  {
    if p == |text| || IsNewline(text[p]) then p else LineStop(text, p + 1)
  }

  /** The characters skipped between config lines. */
  predicate IsGap(c: char) { c == '\n' || c == '\r' || c == ' ' }

  /** The start of the next line: past the run of `\n`, `\r` and spaces from `j`. */
  function SkipGaps(text: seq<char>, j: nat): (k: nat)
    ensures j <= k
    ensures k > j ==> k <= |text|
    ensures forall i :: j <= i < k ==> IsGap(text[i])
    ensures k < |text| ==> !IsGap(text[k])
    decreases |text| - j
  {
    if j < |text| && IsGap(text[j]) then SkipGaps(text, j + 1) else j
  }

  /** The line `raw` after both trims. */
  function Trimmed(raw: seq<char>): seq<char>
  {
    TrimTrailing(TrimLeadingWhitespace(raw))
  }

  /**
   * One config line. The directive is matched without regard to case; the value is the
   * trimmed line from column 12 (roots) or 7 (models), with its leading blanks skipped.
   */
  function ConfigLine(st: ConfigState, raw: seq<char>): ConfigState
  {
    Directive(st, Trimmed(raw))
  }

  /** The directive match on the trimmed line `l`. */
  function Directive(st: ConfigState, l: seq<char>): ConfigState
  {
    if StrNIEq(l, "SourceRoot:", 11) then
      st.(SourceRoot := ConvertToWide(TrimLeadingWhitespace(Drop(l, 12))))
    else if StrNIEq(l, "OutputRoot:", 11) then
      st.(OutputRoot := ConvertToWide(TrimLeadingWhitespace(Drop(l, 12))))
    else if StrNIEq(l, "Model:", 6) then
      st.(Assets := st.Assets + [SourceAssetOf(Model, ConvertToWide(TrimLeadingWhitespace(Drop(l, 7))))])
    else st
  }

  /** The lines from `p` on, each as the C string the loop hands to the directive match. */
  function ConfigLines(text: seq<char>, p: nat): seq<seq<char>>
    decreases |text| - p
  {
    if p >= |text| then []
    else
      var q := LineStop(text, p);
      [CStr(text[p..q])] + ConfigLines(text, SkipGaps(text, q + 1))
  }

  /** The directives of `lines`, applied in order. */
  function ApplyLines(st: ConfigState, lines: seq<seq<char>>): ConfigState
    decreases |lines|
  {
    if lines == [] then st else ApplyLines(ConfigLine(st, lines[0]), lines[1..])
  }

  /** The loop of `ReadConfig` from `p` on. */
  function ConfigFrom(text: seq<char>, p: nat, st: ConfigState): ConfigState
  {
    ApplyLines(st, ConfigLines(text, p))
  }

  lemma ApplyLinesCons(st: ConfigState, raw: seq<char>, rest: seq<seq<char>>)
    ensures ApplyLines(st, [raw] + rest) == ApplyLines(ConfigLine(st, raw), rest)
  {
    assert ([raw] + rest)[1..] == rest;
  }

  /** One line of the loop. */
  lemma ConfigFromStep(text: seq<char>, line: nat, p: nat, st: ConfigState, st': ConfigState, next: nat)
    requires line < |text| && p == LineStop(text, line)
    requires st' == ConfigLine(st, CStr(text[line..p])) && next == SkipGaps(text, p + 1)
    ensures ConfigFrom(text, next, st') == ConfigFrom(text, line, st)
  {
    ConfigLinesStep(text, line);
    ApplyLinesCons(st, CStr(text[line..p]), ConfigLines(text, next));
  }

  lemma ConfigLinesStep(text: seq<char>, line: nat)
    requires line < |text|
    ensures var p := LineStop(text, line);
      ConfigLines(text, line) == [CStr(text[line..p])] + ConfigLines(text, SkipGaps(text, p + 1))
  {
  }

  /** `ReadConfig`: None when the file cannot be opened, else the state after every line. */
  function ReadConfigSpec(filename: seq<char>, files: map<seq<char>, seq<char>>, st: ConfigState): Option<ConfigState>
  {
    if filename !in files then None else Some(ConfigFrom(files[filename], 0, st))
  }

  /**
   * The body of the line loop for the line that starts at `line` and whose terminator is
   * at `p`: trim both ends in the buffer, then match the directives.
   */
  method ConfigLineInBuffer(buffer: array<char>, line: nat, p: nat, st: ConfigState) returns (r: ConfigState)
    requires line <= p < buffer.Length && buffer[p] == '\0'
    modifies buffer
    ensures r == ConfigLine(st, CStr(old(buffer[line..p])))
    ensures forall j :: 0 <= j < buffer.Length && !(line <= j < p) ==> buffer[j] == old(buffer[j])
  {
    var l := TrimLineInBuffer(buffer, line, p);
    r := DirectiveOf(st, l);
  }

  /** Both trims of the line `buffer[line..p]`, the trailing one written into the buffer. */
  method TrimLineInBuffer(buffer: array<char>, line: nat, p: nat) returns (l: seq<char>)
    requires line <= p < buffer.Length && buffer[p] == '\0'
    modifies buffer
    ensures l == Trimmed(CStr(old(buffer[line..p])))
    ensures forall j :: 0 <= j < buffer.Length && !(line <= j < p) ==> buffer[j] == old(buffer[j])
  {
    ghost var b := buffer[..];
    var raw := CStr(buffer[line..p]);
    var start := line + (|raw| - |TrimLeadingWhitespace(raw)|);
    LeadingTrimInBuffer(b, line, p);
    ghost var t := TrimLeadingWhitespace(raw);
    assert raw == CStr(b[line..p]);
    if buffer[start] != '\0' {
      assert CStr(b[start..]) == t;
      TrimTailInBuffer(buffer, start, p);
      assert CStr(buffer[start..]) == TrimTrailing(t);
    } else if start > 0 {
      assert t == [];
      TrimTrailingWhitespace(buffer, start);
      assert buffer[..] == b;
      assert CStr(buffer[start..]) == [];
    } else {
      // an empty line at the start of the buffer: the source's trim reads `buffer[-1]`
      assert t == [];
      assert CStr(buffer[start..]) == [];
    }
    l := CStr(buffer[start..]);
    assert l == Trimmed(raw);
  }

  /** The trailing trim of the string at `start`, whose terminator it writes at or before `p`. */
  method TrimTailInBuffer(buffer: array<char>, start: nat, p: nat)
    requires start <= p < buffer.Length && buffer[p] == '\0' && buffer[start] != '\0'
    requires '\0' in buffer[start..]
    requires start + TrimmedLength(CStr(buffer[start..])) <= p
    modifies buffer
    ensures CStr(buffer[start..]) == TrimTrailing(CStr(old(buffer[start..])))
    ensures forall j :: 0 <= j < buffer.Length && !(start <= j < p) ==> buffer[j] == old(buffer[j])
  {
    ghost var b := buffer[..];
    TrimTrailingWhitespaceValue(b, start);
    ghost var w := start + TrimmedLength(CStr(b[start..]));
    TrimTrailingWhitespace(buffer, start);
    assert buffer[..] == b[w := '\0'];
    assert buffer[start..] == buffer[..][start..];
  }

  /** The directive match, with the asset built by the `SourceAsset` constructor. */
  method DirectiveOf(st: ConfigState, l: seq<char>) returns (r: ConfigState)
    ensures r == Directive(st, l)
  {
    if StrNIEq(l, "SourceRoot:", 11) {
      r := st.(SourceRoot := ConvertToWide(TrimLeadingWhitespace(Drop(l, 12))));
    } else if StrNIEq(l, "OutputRoot:", 11) {
      r := st.(OutputRoot := ConvertToWide(TrimLeadingWhitespace(Drop(l, 12))));
    } else if StrNIEq(l, "Model:", 6) {
      var asset := NewSourceAsset(Model, ConvertToWide(TrimLeadingWhitespace(Drop(l, 7))));
      r := st.(Assets := st.Assets + [asset]);
    } else {
      r := st;
    }
  }

  /**
   * In a buffer whose line `b[line..p]` is terminated at `p`, the `char*` that
   * `TrimLeadingWhitespace` returns sees the trimmed line, and any terminator the
   * trailing trim writes lies within the line.
   */
  lemma LeadingTrimInBuffer(b: seq<char>, line: nat, p: nat)
    requires line <= p < |b| && b[p] == '\0'
    ensures var raw := CStr(b[line..p]);
      var start := line + (|raw| - |TrimLeadingWhitespace(raw)|);
      && start <= p && '\0' in b[start..]
      && CStr(b[start..]) == TrimLeadingWhitespace(raw)
      && (b[start] != '\0' ==> start + TrimmedLength(TrimLeadingWhitespace(raw)) <= p)
      && (b[start] == '\0' ==> TrimLeadingWhitespace(raw) == [])
  {
    var s := b[line..];
    assert s == b[line..p] + b[p..];
    CStrOfTerminated(b[line..p], b[p..]);
    var raw := CStr(b[line..p]);
    assert CStr(s) == raw;
    TrimLeadingIsSuffix(raw);
    var t := TrimLeadingWhitespace(raw);
    var k := |raw| - |t|;
    assert raw[k..] == t;
    CStrSuffix(s, k);
    assert s[k..] == b[line + k..];
    assert CStr(b[line + k..]) == t;
    assert b[line + k..][p - line - k] == '\0';
  }

  /** The scan for the end of the line that starts at `line`. */
  method FindLineStop(buffer: array<char>, text: seq<char>, line: nat) returns (p: nat)
    requires line <= |text| && buffer.Length == |text| + 1 && buffer[|text|] == '\0'
    requires forall j :: line <= j < |text| ==> buffer[j] == text[j]
    ensures p == LineStop(text, line)
  {
    p := line;
    while buffer[p] != '\n' && buffer[p] != '\r' && p < |text|
      invariant line <= p <= |text|
      invariant LineStop(text, p) == LineStop(text, line)
      decreases |text| - p
    {
      p := p + 1;
    }
  }

  /** The skip over `\n`, `\r` and spaces from `q`. */
  method SkipGapsIn(buffer: array<char>, text: seq<char>, q: nat) returns (p: nat)
    requires q <= |text| + 1 && buffer.Length == |text| + 1
    requires forall j :: q <= j < |text| ==> buffer[j] == text[j]
    ensures p == SkipGaps(text, q)
  {
    p := q;
    while p < |text| && (buffer[p] == '\n' || buffer[p] == '\r' || buffer[p] == ' ')
      invariant q <= p <= |text| + 1
      invariant SkipGaps(text, p) == SkipGaps(text, q)
    {
      p := p + 1;
    }
  }

  /** One pass of the loop: find the line's end, terminate it, run it, skip the gap after it. */
  method ConfigLineAt(buffer: array<char>, text: seq<char>, line: nat, st: ConfigState)
    returns (st': ConfigState, next: nat)
    requires line < |text| && buffer.Length == |text| + 1 && buffer[|text|] == '\0'
    requires forall j :: line <= j < |text| ==> buffer[j] == text[j]
    modifies buffer
    ensures ConfigFrom(text, next, st') == ConfigFrom(text, line, st)
    ensures line < next <= |text| + 1 && buffer[|text|] == '\0'
    ensures forall j :: next <= j < |text| ==> buffer[j] == text[j]
  {
    var p := FindLineStop(buffer, text, line);
    if p < |text| {
      buffer[p] := '\0';
    }
    assert forall j :: line <= j < p ==> buffer[j] == text[j];
    assert buffer[line..p] == text[line..p];
    ghost var lineText := text[line..p];
    st' := ConfigLineInBuffer(buffer, line, p, st);
    assert forall j :: p < j < |text| ==> buffer[j] == text[j];
    next := SkipGapsIn(buffer, text, p + 1);
    ConfigFromStep(text, line, p, st, st', next);
  }

  /** The file's bytes followed by one NUL. */
  method TerminatedBuffer(text: seq<char>) returns (buffer: array<char>)
    ensures fresh(buffer) && buffer[..] == text + ['\0']
  {
    buffer := new char[|text| + 1](i => if 0 <= i < |text| then text[i] else '\0');
    assert buffer[..] == text + ['\0'];
  }

  /**
   * `ReadConfig(configFilename, sourceRoot, outputRoot, assets)`. The buffer holds the
   * file followed by one NUL; each line's terminator is written in place before the
   * line is trimmed and matched.
   */
  method ReadConfig(configFilename: seq<char>, files: map<seq<char>, seq<char>>, st0: ConfigState)
    returns (ok: bool, st: ConfigState)
    ensures ok <==> ReadConfigSpec(configFilename, files, st0).Some?
    ensures ok ==> st == ReadConfigSpec(configFilename, files, st0).value
    ensures !ok ==> st == st0
  {
    if configFilename !in files {
      return false, st0;
    }
    var text := files[configFilename];
    var buffer := TerminatedBuffer(text);
    assert buffer[|text|] == '\0';
    st := st0;
    var p := 0;
    while p < |text|
      invariant buffer.Length == |text| + 1 && buffer[|text|] == '\0'
      invariant p <= |text| + 1
      invariant forall j :: p <= j < |text| ==> buffer[j] == text[j]
      invariant ConfigFrom(text, p, st) == ConfigFrom(text, 0, st0)
      decreases |text| + 1 - p
    {
      st, p := ConfigLineAt(buffer, text, p, st);
    }
    ok := true;
  }

  /** Blanks before a line do not change what it does. */
  lemma LeadingBlankIgnored(st: ConfigState, c: char, raw: seq<char>)
    requires IsBlank(c)
    ensures ConfigLine(st, [c] + raw) == ConfigLine(st, raw)
  {
    TrimLeadingPrepend(c, raw);
  }

  lemma TrimLeadingPrepend(c: char, raw: seq<char>)
    requires IsBlank(c)
    ensures TrimLeadingWhitespace([c] + raw) == TrimLeadingWhitespace(raw)
  {
    assert ([c] + raw)[1..] == raw;
  }

  /** Blanks after a line do not change what it does. */
  lemma TrailingBlankIgnored(st: ConfigState, raw: seq<char>, c: char)
    requires IsBlank(c)
    ensures ConfigLine(st, raw + [c]) == ConfigLine(st, raw)
  {
    TrimmedAppendBlank(raw, c);
  }

  /** Both trims together remove a blank appended to the line. */
  lemma {:induction false} TrimmedAppendBlank(raw: seq<char>, c: char)
    requires IsBlank(c)
    ensures Trimmed(raw + [c]) == Trimmed(raw)
  {
    TrimLeadingAppend(raw, c);
    var t := TrimLeadingWhitespace(raw);
    if t != [] {
      var n := TrimmedLength(t);
      assert (t + [c])[..|t|] == t;
      assert TrimmedLength(t + [c]) == n;
      assert (t + [c])[..n] == t[..n];
    }
  }

  /** Appending a blank to a line appends it to the line's leading trim, unless nothing else is left. */
  lemma {:induction false} TrimLeadingAppend(raw: seq<char>, c: char)
    requires IsBlank(c)
    ensures TrimLeadingWhitespace(raw) == [] ==> TrimLeadingWhitespace(raw + [c]) == []
    ensures TrimLeadingWhitespace(raw) != [] ==> TrimLeadingWhitespace(raw + [c]) == TrimLeadingWhitespace(raw) + [c]
    decreases |raw|
  {
    var s := raw + [c];
    if raw == [] {
      assert s[1..] == [];
      assert TrimLeadingWhitespace(s) == TrimLeadingWhitespace([]);
    } else if IsBlank(raw[0]) {
      assert s[1..] == raw[1..] + [c];
      assert TrimLeadingWhitespace(s) == TrimLeadingWhitespace(raw[1..] + [c]);
      assert TrimLeadingWhitespace(raw) == TrimLeadingWhitespace(raw[1..]);
      TrimLeadingAppend(raw[1..], c);
    } else {
      assert TrimLeadingWhitespace(s) == s;
      assert TrimLeadingWhitespace(raw) == raw;
    }
  }

  /** A line whose first non-blank character is `#` (or any non-letter) is ignored. */
  lemma CommentLineIgnored(st: ConfigState, raw: seq<char>)
    requires Trimmed(raw) != [] && !('a' <= Trimmed(raw)[0] <= 'z') && !('A' <= Trimmed(raw)[0] <= 'Z')
    ensures ConfigLine(st, raw) == st
  {
    var l := Trimmed(raw);
    assert AsciiLower(l[0]) != AsciiLower("SourceRoot:"[0]);
    assert AsciiLower(l[0]) != AsciiLower("OutputRoot:"[0]);
    assert AsciiLower(l[0]) != AsciiLower("Model:"[0]);
  }

  /** `b` is `a` followed by models whose paths have no backslash. */
  predicate AppendsModels(a: seq<SourceAsset>, b: seq<SourceAsset>)
  {
    |a| <= |b| && b[..|a|] == a
    && forall i :: |a| <= i < |b| ==> b[i].Type == Model && '\\' !in b[i].Path
  }

  lemma AppendsModelsTransitive(a: seq<SourceAsset>, b: seq<SourceAsset>, c: seq<SourceAsset>)
    requires AppendsModels(a, b) && AppendsModels(b, c)
    ensures AppendsModels(a, c)
  {
    assert c[..|a|] == c[..|b|][..|a|];
  }

  /** One line adds at most one asset, a model with a normalised path, and keeps the others. */
  lemma ConfigLineAppends(st: ConfigState, raw: seq<char>)
    ensures AppendsModels(st.Assets, ConfigLine(st, raw).Assets)
    ensures |ConfigLine(st, raw).Assets| <= |st.Assets| + 1
  {
    var l := Trimmed(raw);
    if !StrNIEq(l, "SourceRoot:", 11) && !StrNIEq(l, "OutputRoot:", 11) && StrNIEq(l, "Model:", 6) {
      var path := ConvertToWide(TrimLeadingWhitespace(Drop(l, 7)));
      NormalizedSlashesProperties(path);
      var r := st.Assets + [SourceAssetOf(Model, path)];
      assert ConfigLine(st, raw).Assets == r;
      assert r[..|st.Assets|] == st.Assets;
    } else {
      assert ConfigLine(st, raw).Assets == st.Assets;
    }
  }

  /** Applying lines only ever appends models to the asset list. */
  lemma {:induction false} ApplyLinesAppendsModels(st: ConfigState, lines: seq<seq<char>>)
    ensures AppendsModels(st.Assets, ApplyLines(st, lines).Assets)
    ensures |ApplyLines(st, lines).Assets| <= |st.Assets| + |lines|
    decreases |lines|
  {
    if lines == [] {
      assert st.Assets[..|st.Assets|] == st.Assets;
    } else {
      var st1 := ConfigLine(st, lines[0]);
      ConfigLineAppends(st, lines[0]);
      ApplyLinesAppendsModels(st1, lines[1..]);
      AppendsModelsTransitive(st.Assets, st1.Assets, ApplyLines(st1, lines[1..]).Assets);
    }
  }

  /**
   * Reading a config file only ever appends to the asset list; every asset it adds is a
   * model whose path has no backslash.
   */
  lemma ConfigFromAppendsModels(text: seq<char>, p: nat, st: ConfigState)
    ensures AppendsModels(st.Assets, ConfigFrom(text, p, st).Assets)
  {
    ApplyLinesAppendsModels(st, ConfigLines(text, p));
  }

  /** A line with no `:` cannot be a root directive. */
  lemma ConfigLineKeepsRoots(st: ConfigState, raw: seq<char>)
    requires ':' !in raw
    ensures ConfigLine(st, raw).SourceRoot == st.SourceRoot
    ensures ConfigLine(st, raw).OutputRoot == st.OutputRoot
  {
    var t := TrimLeadingWhitespace(raw);
    var l := Trimmed(raw);
    TrimLeadingIsSuffix(raw);
    TrimTrailingSpec(t);
    assert |l| > 10 ==> l[10] == raw[|raw| - |t| + 10] && l[10] != ':';
    if StrNIEq(l, "SourceRoot:", 11) || StrNIEq(l, "OutputRoot:", 11) {
      assert false;
    }
  }

  /** Without any `:` left in the file, neither root changes. */
  lemma {:induction false} ApplyLinesKeepsRoots(st: ConfigState, lines: seq<seq<char>>)
    requires forall l :: l in lines ==> ':' !in l
    ensures ApplyLines(st, lines).SourceRoot == st.SourceRoot
    ensures ApplyLines(st, lines).OutputRoot == st.OutputRoot
    decreases |lines|
  {
    if lines != [] {
      assert lines[0] in lines;
      ConfigLineKeepsRoots(st, lines[0]);
      assert forall l :: l in lines[1..] ==> l in lines;
      ApplyLinesKeepsRoots(ConfigLine(st, lines[0]), lines[1..]);
    }
  }

  /** Which directive a config line carries, matched in the order `ReadConfig` matches them. */
  datatype LineKind = SourceRootLine | OutputRootLine | ModelLine | OtherLine

  function KindOf(raw: seq<char>): LineKind
  {
    var l := Trimmed(raw);
    if StrNIEq(l, "SourceRoot:", 11) then SourceRootLine
    else if StrNIEq(l, "OutputRoot:", 11) then OutputRootLine
    else if StrNIEq(l, "Model:", 6) then ModelLine
    else OtherLine
  }

  /** The value of a directive line: the trimmed line from column `k`, leading blanks skipped. */
  function ValueOf(raw: seq<char>, k: nat): seq<char>
  {
    ConvertToWide(TrimLeadingWhitespace(Drop(Trimmed(raw), k)))
  }

  /** The value of the last root line of `kind` in `lines`, or `init` when there is none. */
  function LastRoot(lines: seq<seq<char>>, kind: LineKind, init: seq<char>): seq<char>
    decreases |lines|
  {
    if lines == [] then init
    else if KindOf(lines[|lines| - 1]) == kind then ValueOf(lines[|lines| - 1], 12)
    else LastRoot(lines[..|lines| - 1], kind, init)
  }

  /** The models the `Model:` lines of `lines` name, in file order. */
  function ModelAssets(lines: seq<seq<char>>): seq<SourceAsset>
    decreases |lines|
  {
    if lines == [] then []
    else
      (if KindOf(lines[0]) == ModelLine then [SourceAssetOf(Model, ValueOf(lines[0], 7))] else [])
      + ModelAssets(lines[1..])
  }

  /** One line, by the directive it carries: a root line sets its root, a model line appends. */
  lemma ConfigLineByKind(st: ConfigState, raw: seq<char>)
    ensures ConfigLine(st, raw) == match KindOf(raw)
      case SourceRootLine => st.(SourceRoot := ValueOf(raw, 12))
      case OutputRootLine => st.(OutputRoot := ValueOf(raw, 12))
      case ModelLine => st.(Assets := st.Assets + [SourceAssetOf(Model, ValueOf(raw, 7))])
      case OtherLine => st
  {
  }

  /** Applying one more line after `lines` is one more `ConfigLine`. */
  lemma {:induction false} ApplyLinesSnoc(st: ConfigState, lines: seq<seq<char>>, raw: seq<char>)
    ensures ApplyLines(st, lines + [raw]) == ConfigLine(ApplyLines(st, lines), raw)
    decreases |lines|
  {
    if lines == [] {
      assert ApplyLines(st, [raw]) == ApplyLines(ConfigLine(st, raw), []);
    } else {
      assert (lines + [raw])[0] == lines[0];
      assert (lines + [raw])[1..] == lines[1..] + [raw];
      ApplyLinesSnoc(ConfigLine(st, lines[0]), lines[1..], raw);
    }
  }

  /** Each root is the value of the last line that sets it: a later root line overrides. */
  lemma {:induction false} ApplyLinesRoots(st: ConfigState, lines: seq<seq<char>>)
    ensures ApplyLines(st, lines).SourceRoot == LastRoot(lines, SourceRootLine, st.SourceRoot)
    ensures ApplyLines(st, lines).OutputRoot == LastRoot(lines, OutputRootLine, st.OutputRoot)
    decreases |lines|
  {
    if lines != [] {
      var prefix, last := lines[..|lines| - 1], lines[|lines| - 1];
      assert lines == prefix + [last];
      ApplyLinesSnoc(st, prefix, last);
      ApplyLinesRoots(st, prefix);
      ConfigLineByKind(ApplyLines(st, prefix), last);
    }
  }

  /** The model list is the initial one followed by one model per `Model:` line, in order. */
  lemma {:induction false} ApplyLinesModels(st: ConfigState, lines: seq<seq<char>>)
    ensures ApplyLines(st, lines).Assets == st.Assets + ModelAssets(lines)
    decreases |lines|
  {
    if lines != [] {
      ConfigLineByKind(st, lines[0]);
      ApplyLinesModels(ConfigLine(st, lines[0]), lines[1..]);
    }
  }

  /**
   * Reading a config from `p` on sets each root to the value of its last root line and
   * appends one model per `Model:` line, in file order.
   */
  lemma ConfigFromContents(text: seq<char>, p: nat, st: ConfigState)
    ensures var lines := ConfigLines(text, p);
      ConfigFrom(text, p, st) == ConfigState(
        LastRoot(lines, SourceRootLine, st.SourceRoot),
        LastRoot(lines, OutputRootLine, st.OutputRoot),
        st.Assets + ModelAssets(lines))
  {
    ApplyLinesRoots(st, ConfigLines(text, p));
    ApplyLinesModels(st, ConfigLines(text, p));
  }

  lemma SourceRootLineB()
    ensures KindOf("SourceRoot: b") == SourceRootLine && ValueOf("SourceRoot: b", 12) == "b"
  {
    var l := "SourceRoot: b";
    assert TrimLeadingWhitespace(l) == l;
    TrimTrailingSpec(l);
    assert Trimmed(l) == l;
    assert Drop(l, 12) == "b";
    assert TrimLeadingWhitespace("b") == "b";
    ConvertToWideAscii("b");
  }

  /** Of two `SourceRoot:` lines the later one wins. */
  lemma LaterSourceRootWins()
    ensures ApplyLines(NoConfig, ["SourceRoot: a", "SourceRoot: b"]).SourceRoot == "b"
  {
    var lines := ["SourceRoot: a", "SourceRoot: b"];
    ApplyLinesRoots(NoConfig, lines);
    SourceRootLineB();
    assert lines[|lines| - 1] == "SourceRoot: b";
  }

  /** The line that starts at `p` is the file's characters from `p` on, none a line break. */
  lemma FirstLineFrom(text: seq<char>, p: nat)
    requires p < |text|
    ensures var raw := CStr(text[p..LineStop(text, p)]);
      p + |raw| <= |text| && forall i :: 0 <= i < |raw| ==> raw[i] == text[p + i] && !IsNewline(raw[i])
  {
    var q := LineStop(text, p);
    var raw := CStr(text[p..q]);
    assert raw == text[p..q][..|raw|];
  }

  /** The line that starts at `p` holds `c` only when the file does from `p` on. */
  lemma FirstLineAvoids(text: seq<char>, p: nat, c: char)
    requires p < |text| && forall j :: p <= j < |text| ==> text[j] != c
    ensures c !in CStr(text[p..LineStop(text, p)])
  {
    FirstLineFrom(text, p);
  }

  /** No line from `p` on holds `c` when the first does not and none after it does. */
  lemma ConfigLinesConsAvoid(text: seq<char>, p: nat, c: char)
    requires p < |text| && c !in CStr(text[p..LineStop(text, p)])
    requires forall l :: l in ConfigLines(text, SkipGaps(text, LineStop(text, p) + 1)) ==> c !in l
    ensures forall l :: l in ConfigLines(text, p) ==> c !in l
  {
    var raw, rest := CStr(text[p..LineStop(text, p)]), ConfigLines(text, SkipGaps(text, LineStop(text, p) + 1));
    ConfigLinesStep(text, p);
    forall l | l in ConfigLines(text, p) ensures c !in l {
      assert l == raw || l in rest;
    }
  }

  /** A character that does not occur in the file from `p` on occurs in no line handed to the directive match. */
  lemma {:induction false} ConfigLinesWithin(text: seq<char>, p: nat, c: char)
    requires forall j :: p <= j < |text| ==> text[j] != c
    ensures forall l :: l in ConfigLines(text, p) ==> c !in l
    decreases |text| - p
  {
    if p < |text| {
      var next := SkipGaps(text, LineStop(text, p) + 1);
      FirstLineAvoids(text, p, c);
      ConfigLinesWithin(text, next, c);
      ConfigLinesConsAvoid(text, p, c);
    }
  }

  /** Without a `SourceRoot:` or `OutputRoot:` line (no `:` at all) the roots keep their values. */
  lemma RootsKeptWithoutDirective(text: seq<char>, p: nat, st: ConfigState)
    requires forall j :: p <= j < |text| ==> text[j] != ':'
    ensures ConfigFrom(text, p, st).SourceRoot == st.SourceRoot
    ensures ConfigFrom(text, p, st).OutputRoot == st.OutputRoot
  {
    ConfigLinesWithin(text, p, ':');
    ApplyLinesKeepsRoots(st, ConfigLines(text, p));
  }

  /** A line with neither a line break nor a NUL. */
  predicate NoBreaks(l: seq<char>) { '\n' !in l && '\r' !in l && '\0' !in l }

  /** The line that starts at `p` holds no line break and no NUL. */
  lemma FirstLineNoBreaks(text: seq<char>, p: nat)
    requires p < |text|
    ensures NoBreaks(CStr(text[p..LineStop(text, p)]))
  {
    FirstLineFrom(text, p);
    var raw := CStr(text[p..LineStop(text, p)]);
    forall i | 0 <= i < |raw| ensures raw[i] != '\n' && raw[i] != '\r' {
      assert !IsNewline(raw[i]);
    }
  }

  /** No line from `p` on breaks when the first does not and none after it does. */
  lemma ConfigLinesConsNoBreaks(text: seq<char>, p: nat)
    requires p < |text| && NoBreaks(CStr(text[p..LineStop(text, p)]))
    requires forall l :: l in ConfigLines(text, SkipGaps(text, LineStop(text, p) + 1)) ==> NoBreaks(l)
    ensures forall l :: l in ConfigLines(text, p) ==> NoBreaks(l)
  {
    var raw, rest := CStr(text[p..LineStop(text, p)]), ConfigLines(text, SkipGaps(text, LineStop(text, p) + 1));
    ConfigLinesStep(text, p);
    forall l | l in ConfigLines(text, p) ensures NoBreaks(l) {
      assert l == raw || l in rest;
    }
  }

  /** No line handed to the directive match holds a line break or a NUL. */
  lemma {:induction false} ConfigLinesHaveNoBreaks(text: seq<char>, p: nat)
    ensures forall l :: l in ConfigLines(text, p) ==> NoBreaks(l)
    decreases |text| - p
  {
    if p < |text| {
      var next := SkipGaps(text, LineStop(text, p) + 1);
      FirstLineNoBreaks(text, p);
      ConfigLinesHaveNoBreaks(text, next);
      ConfigLinesConsNoBreaks(text, p);
    }
  }
}
