/** The second text pass, `${vars.<name>}`, with indentation carried into multi-line
    values, and the line an offset falls on. */
module ConfigVars {
  import opened Outcomes
  import opened Text
  import opened Expand

  const VARS_OPEN := "${vars."

  // ---------------------------------------------------------------------
  // Splicing one value
  // ---------------------------------------------------------------------

  /** The part of `s` after its last newline. */
  function LastLine(s: string): (r: string)
    ensures OneLine(r) && |r| <= |s| && s[|s| - |r|..] == r
    ensures |r| < |s| ==> s[|s| - |r| - 1] == '\n'
  {
    if s == "" || s[|s| - 1] == '\n' then "" else LastLine(s[..|s| - 1]) + [s[|s| - 1]]
  }

  predicate Blank(c: char) { c == ' ' || c == '\t' }

  function TakeBlank(s: string): (r: string)
    ensures r <= s && forall c | c in r :: Blank(c)
    ensures r == s <==> forall c | c in s :: Blank(c)
  {
    if s != "" && Blank(s[0]) then [s[0]] + TakeBlank(s[1..]) else ""
  }

  /** `leading_indent_of_last_line`. */
  function LeadingIndent(s: string): (r: string)
    ensures OneLine(r)
  {
    var r := TakeBlank(LastLine(s));
    assert !Blank('\n');
    r
  }

  /** One continuation line; empty lines get no indent. */
  function Indented(line: string, indent: string): string {
    if line == "" then "" else indent + line
  }

  function IndentAll(lines: seq<string>, indent: string): (r: seq<string>)
    ensures |r| == |lines| && forall i | 0 <= i < |lines| :: r[i] == Indented(lines[i], indent)
  {
    seq(|lines|, i requires 0 <= i < |lines| => Indented(lines[i], indent))
  }

  /** The text a value becomes at a placeholder: its first line as it is, the others
      indented. */
  function Splice(value: string, indent: string): string {
    Join(Block(value, indent))
  }

  function Block(value: string, indent: string): (r: seq<string>)
    ensures r != []
  {
    var lines := Split(value);
    [lines[0]] + IndentAll(lines[1..], indent)
  }

  function Unindented(line: string, indent: string): string {
    if line != "" && indent <= line then line[|indent|..] else line
  }

  function UnindentAll(lines: seq<string>, indent: string): (r: seq<string>)
    ensures |r| == |lines| && forall i | 0 <= i < |lines| :: r[i] == Unindented(lines[i], indent)
  {
    seq(|lines|, i requires 0 <= i < |lines| => Unindented(lines[i], indent))
  }

  /** Strip the indent off each non-empty continuation line of a block. */
  function Unsplice(block: string, indent: string): string {
    var lines := Split(block);
    Join([lines[0]] + UnindentAll(lines[1..], indent))
  }

  /** The lines of a spliced block. */
  lemma BlockLines(value: string, indent: string)
    requires OneLine(indent)
    ensures Split(Splice(value, indent)) == Block(value, indent)
  {
    var block := Block(value, indent);
    forall l | l in block ensures OneLine(l) {
      BlockIsOneLines(value, indent, l);
    }
    SplitJoin(block);
  }

  lemma BlockIsOneLines(value: string, indent: string, l: string)
    requires OneLine(indent) && l in Block(value, indent)
    ensures OneLine(l)
  {
    var lines := Split(value);
    JoinSplit(value);
    var i :| 0 <= i < |lines| && Block(value, indent)[i] == l;
    if i > 0 {
      assert lines[i] in lines && l == Indented(lines[i], indent);
    }
  }

  lemma UnindentIndented(lines: seq<string>, indent: string)
    ensures UnindentAll(IndentAll(lines, indent), indent) == lines
  {
    forall i | 0 <= i < |lines|
      ensures Unindented(Indented(lines[i], indent), indent) == lines[i]
    {
    }
  }

  /** Splicing is undone exactly by stripping the indent again. */
  lemma SpliceRoundTrip(value: string, indent: string)
    requires OneLine(indent)
    ensures Unsplice(Splice(value, indent), indent) == value
  {
    var lines, block := Split(value), Block(value, indent);
    BlockLines(value, indent);
    JoinSplit(value);
    UnindentIndented(lines[1..], indent);
    assert block[1..] == IndentAll(lines[1..], indent) && block[0] == lines[0];
    assert [lines[0]] + lines[1..] == lines;
  }

  /** On a line holding only blanks so far, the indent is that whole line, so the block
      lines up under the placeholder and gives the value back. */
  lemma BlankLineIsItsIndent(before: string, value: string, line: string)
    requires line == LastLine(before) && forall c | c in line :: Blank(c)
    ensures LeadingIndent(before) == line
    ensures Unsplice(Splice(value, line), line) == value
    ensures var block := Split(Splice(value, line));
            forall i | 0 < i < |block| && block[i] != "" :: line <= block[i]
  {
    BlockLines(value, line);
    SpliceRoundTrip(value, line);
  }

  // ---------------------------------------------------------------------
  // The pass
  // ---------------------------------------------------------------------

  /** The output after one segment, given what is already written: an indent depends on
      it. */
  function Write(seg: Segment, vars: map<string, string>, written: string): string {
    match seg
    case Literal(text) => written + text
    case Ref(name) => written + if name in vars then Splice(vars[name], LeadingIndent(written)) else ""
  }

  function VarsPass(vars: map<string, string>): Pass {
    Pass(VARS_OPEN, (name: string) => name !in vars, (n: nat, name: string) => ConfigVarNotSet(n, name),
         (seg: Segment, written: string) => Write(seg, vars, written))
  }

  /** What the pass returns. */
  lemma VarsExpansion(s: string, vars: map<string, string>)
    ensures var pass, p := VarsPass(vars), Parse(s, VARS_OPEN);
            IsExpansion(pass, p, 0, "", Expanded(pass, p, 0, ""))
  {
    var p := Parse(s, VARS_OPEN);
    ExpandedMeans(VarsPass(vars), p, 0, "", Expanded(VarsPass(vars), p, 0, ""));
  }

  // What the pass returns, of the text and the table alone -----------------

  /** `indent` is the blanks that open the last line of `written`. */
  predicate OpensLastLine(written: string, indent: string) {
    exists start | 0 <= start <= |written| ::
      && (start > 0 ==> written[start - 1] == '\n') && (forall k | start <= k < |written| :: written[k] != '\n')
      && indent <= written[start..] && (forall c | c in indent :: c == ' ' || c == '\t')
      && (start + |indent| < |written| ==> written[start + |indent|] != ' ' && written[start + |indent|] != '\t')
  }

  /** `text` is `value` as a block: its first line as it is, and each further line after
      `indent`, unless it is empty. */
  predicate IsBlock(text: string, value: string, indent: string) {
    var lines, block := Split(value), Split(text);
    && |block| == |lines| && block[0] == lines[0]
    && forall i | 0 < i < |lines| :: block[i] == if lines[i] == "" then "" else indent + lines[i]
  }

  /** Literal text stays; a placeholder becomes its value, as a block under the blanks that open
      the output line it lands on. */
  ghost predicate VarsPiece(seg: Segment, vars: map<string, string>, before: string, piece: string) {
    match seg
    case Literal(text) => piece == text
    case Ref(name) =>
      name in vars && exists indent: string ::
        OpensLastLine(before, indent) && IsBlock(piece, vars[name], indent) && Unsplice(piece, indent) == vars[name]
  }

  ghost predicate IsVarsOutcome(s: string, vars: map<string, string>, r: Result<string, ExpandError>) {
    var scan := Parse(s, "${vars.");
    match r
    case Ok(out) =>
      && !scan.unclosed
      && exists pieces: seq<string> :: |pieces| == |scan.segs| && out == Concat(pieces)
           && forall k | 0 <= k < |pieces| :: VarsPiece(scan.segs[k], vars, Concat(pieces[..k]), pieces[k])
    case Err(ConfigVarNotSet(offset, name)) =>
      && At(s, offset, "${vars." + name + "}") && name !in vars
      && exists k | 0 <= k < |scan.segs| ::
           && scan.segs[k] == Ref(name) && offset == Offset(scan.segs, "${vars.", k)
           && forall j | 0 <= j < k :: VarsSet(scan.segs[j], vars)
    case Err(Unclosed(offset)) =>
      && At(s, offset, "${vars.") && !Contains(s[offset + 7..], "}")
      && forall j | 0 <= j < |scan.segs| :: VarsSet(scan.segs[j], vars)
    case Err(EnvVarNotSet(_, _)) => false
  }

  predicate VarsSet(seg: Segment, vars: map<string, string>) {
    seg.Literal? || seg.name in vars
  }

  lemma VarsOutcome(s: string, vars: map<string, string>, r: Result<string, ExpandError>)
    requires r == Expanded(VarsPass(vars), Parse(s, VARS_OPEN), 0, "")
    ensures IsVarsOutcome(s, vars, r)
  {
    hide Parse, Expanded, Rendered, Offset, Source, IsVarsOutcome;
    var pass, scan := VarsPass(vars), Parse(s, VARS_OPEN);
    ExpandedMeans(pass, scan, 0, "", r);
    if k: nat :|
      && IsFirstMissing(pass, scan.segs, k)
      && r == Err(pass.error(0 + Offset(scan.segs, pass.open, k), scan.segs[k].name))
    {
      VarsMissing(s, vars, k, Offset(scan.segs, VARS_OPEN, k), scan.segs[k].name);
    } else {
      VarsComplete(s, vars);
    }
  }

  lemma VarsMissing(s: string, vars: map<string, string>, k: nat, offset: nat, name: string)
    requires IsFirstMissing(VarsPass(vars), Parse(s, VARS_OPEN).segs, k)
    requires offset == Offset(Parse(s, VARS_OPEN).segs, VARS_OPEN, k) && Parse(s, VARS_OPEN).segs[k] == Ref(name)
    ensures IsVarsOutcome(s, vars, Err(ConfigVarNotSet(offset, name)))
  {
    hide Parse, Offset, Source;
    var segs := Parse(s, VARS_OPEN).segs;
    OffsetPointsAtPlaceholder(s, VARS_OPEN, k);
    VarsPresent(segs[..k], vars);
    assert forall j | 0 <= j < k :: segs[j] == segs[..k][j];
  }

  lemma VarsComplete(s: string, vars: map<string, string>)
    requires AllPresent(VarsPass(vars), Parse(s, VARS_OPEN).segs)
    ensures var scan := Parse(s, VARS_OPEN);
            IsVarsOutcome(s, vars, if scan.unclosed then Err(Unclosed(|Source(scan.segs, VARS_OPEN)|))
                                   else Ok(Rendered(VarsPass(vars), scan.segs, "")))
  {
    hide Parse, Rendered, Source, VarsPiece;
    var pass, scan := VarsPass(vars), Parse(s, VARS_OPEN);
    VarsPresent(scan.segs, vars);
    if scan.unclosed {
      UnclosedOffset(s, VARS_OPEN);
    } else {
      VarsPieces(scan.segs, vars);
      assert "" + Concat(Pieces(pass, scan.segs, "")) == Concat(Pieces(pass, scan.segs, ""));
    }
  }

  lemma VarsPresent(segs: seq<Segment>, vars: map<string, string>)
    requires AllPresent(VarsPass(vars), segs)
    ensures forall j | 0 <= j < |segs| :: VarsSet(segs[j], vars)
  {
    forall j | 0 <= j < |segs| ensures VarsSet(segs[j], vars) {
      assert !Missing(VarsPass(vars), segs[j]);
    }
  }

  lemma VarsPieces(segs: seq<Segment>, vars: map<string, string>)
    requires AllPresent(VarsPass(vars), segs)
    ensures Appends(VarsPass(vars))
    ensures var pieces := Pieces(VarsPass(vars), segs, "");
            && Rendered(VarsPass(vars), segs, "") == "" + Concat(pieces)
            && forall k | 0 <= k < |pieces| :: VarsPiece(segs[k], vars, Concat(pieces[..k]), pieces[k])
  {
    hide VarsPiece;
    var pass := VarsPass(vars);
    var pieces := Pieces(pass, segs, "");
    PiecesMakeUp(pass, segs, "");
    VarsPresent(segs, vars);
    forall k | 0 <= k < |pieces| ensures VarsPiece(segs[k], vars, Concat(pieces[..k]), pieces[k]) {
      PieceIsWritten(pass, segs, "", k);
      EmptyPlus(Concat(pieces[..k]));
      WrittenPiece(segs[k], vars, Concat(pieces[..k]), pieces[k]);
    }
  }

  lemma WrittenPiece(seg: Segment, vars: map<string, string>, before: string, piece: string)
    requires VarsSet(seg, vars) && Write(seg, vars, before) == before + piece
    ensures VarsPiece(seg, vars, before, piece)
  {
    hide OpensLastLine, IsBlock, LeadingIndent, Splice, Unsplice;
    match seg
    case Literal(text) => SameTail(before, piece, text);
    case Ref(name) =>
      var indent := LeadingIndent(before);
      SameTail(before, piece, Splice(vars[name], indent));
      LeadingIndentOpens(before);
      SplicedIsBlock(vars[name], indent);
  }

  lemma SplicedIsBlock(value: string, indent: string)
    requires OneLine(indent)
    ensures IsBlock(Splice(value, indent), value, indent) && Unsplice(Splice(value, indent), indent) == value
  {
    hide Splice, Unsplice;
    BlockLines(value, indent);
    SpliceRoundTrip(value, indent);
    var lines := Split(value);
    forall i | 0 < i < |lines|
      ensures Block(value, indent)[i] == if lines[i] == "" then "" else indent + lines[i]
    {
      assert Block(value, indent)[i] == IndentAll(lines[1..], indent)[i - 1] == Indented(lines[1..][i - 1], indent);
    }
  }

  lemma LeadingIndentOpens(written: string)
    ensures OpensLastLine(written, LeadingIndent(written))
  {
    var last, indent := LastLine(written), LeadingIndent(written);
    var start := |written| - |last|;
    assert written[start..] == last;
    forall k | start <= k < |written| ensures written[k] != '\n' {
      assert written[k] == last[k - start] && last[k - start] in last;
    }
    TakeBlankStops(last);
    if start + |indent| < |written| {
      assert written[start + |indent|] == last[|indent|];
    }
  }

  lemma {:induction false} TakeBlankStops(s: string)
    ensures |TakeBlank(s)| < |s| ==> !Blank(s[|TakeBlank(s)|])
  {
    if s != "" && Blank(s[0]) {
      TakeBlankStops(s[1..]);
    }
  }

  lemma ThreeParts(a: string, b: string, c: string, d: string)
    ensures a + b + c + d == a + (b + (c + d))
    ensures c == "" ==> a + b + d == a + (b + d)
  {
  }

  /** The inner loop over the value's lines. */
  method SpliceInto(written: string, value: string, indent: string) returns (result: string)
    ensures result == written + Splice(value, indent)
  {
    hide Join, Split;
    var lines := Split(value);
    ghost var block := Block(value, indent);
    result := written + lines[0];
    for i := 1 to |lines|
      invariant result + Tail(block, i) == written + Join(block)
    {
      ghost var before := result;
      result := result + "\n";
      if lines[i] != "" {
        result := result + indent;
      }
      result := result + lines[i];
      ThreeParts(before, "\n", if lines[i] != "" then indent else "", lines[i]);
      assert result == before + ("\n" + block[i]);
      Assoc(before, "\n" + block[i], Tail(block, i + 1));
    }
    assert result + "" == result;
  }

  /** What a declared placeholder adds to what is written before it. */
  method WriteVar(name: string, vars: map<string, string>, before: string) returns (result: string)
    requires name in vars
    ensures result == Write(Ref(name), vars, before)
  {
    result := SpliceInto(before, vars[name], LeadingIndent(before));
  }

  /** Lines `i..` of a block, each after a newline. */
  ghost function Tail(block: seq<string>, i: nat): string
    requires block != [] && i <= |block|
    ensures 0 < i ==> Join(block[i - 1..]) == block[i - 1] + Tail(block, i)
    decreases |block| - i
  {
    if i == |block| then "" else
      assert block[i..][1..] == block[i + 1..];
      assert 0 < i ==> block[i - 1..][1..] == block[i..];
      "\n" + block[i] + Tail(block, i + 1)
  }

  method ExpandConfigVars(s: string, vars: map<string, string>) returns (r: Result<string, ExpandError>)
    ensures r == Expanded(VarsPass(vars), Parse(s, VARS_OPEN), 0, "")
    ensures IsVarsOutcome(s, vars, r)
  {
    var result, rest := "", s;
    ghost var pass := VarsPass(vars);
    ghost var n: nat, all := 0, Expanded(pass, Parse(s, VARS_OPEN), 0, "");
    VarsOutcome(s, vars, all);
    while true
      invariant |rest| <= |s| && n == |s| - |rest|
      invariant Expanded(pass, Parse(rest, VARS_OPEN), n, result) == all
      decreases |rest|
    {
      match CutAt(rest, VARS_OPEN) {
        case NoMore =>
          ReadsEnd(pass, rest, n, result, all, result + rest);
          return Ok(result + rest);
        case NeverClosed(text) =>
          var offset := |s| - |rest| + |text|;
          ReadsUnclosed(pass, rest, n, result, all, text, offset);
          return Err(Unclosed(offset));
        case Placeholder(text, name, tail) =>
          var offset := |s| - |rest| + |text|;
          ghost var m := n + |text| + |VARS_OPEN| + |name| + 1;
          var before := result + text;
          ReadsNext(pass, rest, n, result, all, text, name, tail, offset, m, Write(Ref(name), vars, before));
          if name !in vars {
            return Err(ConfigVarNotSet(offset, name));
          }
          result := WriteVar(name, vars, before);
          rest, n := tail, m;
      }
    }
  }

  // ---------------------------------------------------------------------
  // Error locations
  // ---------------------------------------------------------------------

  /** The line `offset` falls on: newline-free, bounded by newlines or the ends of the
      text, and reaching from before the offset to it. */
  predicate IsLineAt(source: string, offset: nat, start: nat, line: string) {
    && start + |line| <= |source| && source[start..start + |line|] == line && OneLine(line)
    && (start > 0 ==> source[start - 1] == '\n')
    && (start + |line| < |source| ==> source[start + |line|] == '\n')
    && start <= Min(offset, |source|) <= start + |line|
  }

  function Min(a: nat, b: nat): nat { if a < b then a else b }

  ghost function Newlines(source: string, n: nat): set<nat> {
    set i: nat | i < n && i < |source| && source[i] == '\n'
  }

  lemma NewlinesNext(source: string, i: nat)
    requires i < |source|
    ensures |Newlines(source, i + 1)| == |Newlines(source, i)| + if source[i] == '\n' then 1 else 0
  {
    assert Newlines(source, i + 1) == Newlines(source, i) + if source[i] == '\n' then {i} else {};
  }

  lemma NewlinesBefore(source: string, offset: nat)
    ensures |Newlines(source, 0)| == 0
    ensures |Newlines(source, Min(offset, |source|))| ==
            |set i | 0 <= i < |source| && i < offset && source[i] == '\n'|
  {
    assert Newlines(source, 0) == {};
    assert Newlines(source, Min(offset, |source|)) == set i | 0 <= i < |source| && i < offset && source[i] == '\n';
  }

  /** For every offset, including past the end: one plus the newlines before it, and
      the line it falls on. */
  method Locate(source: string, offset: nat) returns (lineNumber: nat, line: string)
    ensures lineNumber == 1 + |set i | 0 <= i < |source| && i < offset && source[i] == '\n'|
    ensures exists start: nat :: IsLineAt(source, offset, start, line)
  {
    hide Newlines;
    NewlinesBefore(source, offset);
    var clamped := Min(offset, |source|);
    lineNumber := 1;
    var lineStart := 0;
    for i := 0 to clamped
      invariant lineStart <= i && lineNumber == 1 + |Newlines(source, i)|
      invariant lineStart > 0 ==> source[lineStart - 1] == '\n'
      invariant forall k | lineStart <= k < i :: source[k] != '\n'
    {
      NewlinesNext(source, i);
      if source[i] == '\n' {
        lineNumber := lineNumber + 1;
        lineStart := i + 1;
      }
    }
    var lineEnd := lineStart;
    while lineEnd < |source| && source[lineEnd] != '\n'
      invariant lineStart <= lineEnd <= |source|
      invariant forall k | lineStart <= k < lineEnd :: source[k] != '\n'
    {
      lineEnd := lineEnd + 1;
    }
    line := source[lineStart..lineEnd];
    assert IsLineAt(source, offset, lineStart, line);
  }

  lemma LineHasNoNewline(source: string, offset: nat, start: nat, line: string)
    requires IsLineAt(source, offset, start, line)
    ensures forall k | start <= k < start + |line| :: source[k] != '\n'
  {
    assert forall k | 0 <= k < |line| :: line[k] in line && line[k] == source[start + k];
    forall k | start <= k < start + |line|
      ensures source[k] != '\n'
    {
      assert source[k] == line[k - start];
    }
  }

  /** A line at an offset is unique, so `Locate` has no freedom. */
  lemma LineAtIsUnique(source: string, offset: nat, a: nat, x: string, b: nat, y: string)
    requires IsLineAt(source, offset, a, x) && IsLineAt(source, offset, b, y)
    ensures a == b && x == y
  {
    LineHasNoNewline(source, offset, a, x);
    LineHasNoNewline(source, offset, b, y);
  }

  /** Newline-free text that stands at the reported offset — the opening `${`, or a whole
      placeholder whose name is on one line — stands on the reported line, at the matching
      column. */
  lemma ReportedLineHoldsPlaceholder(source: string, offset: nat, start: nat, line: string, text: string)
    requires At(source, offset, text) && text != "" && OneLine(text) && IsLineAt(source, offset, start, line)
    ensures start <= offset && At(line, offset - start, text)
  {
    forall k | offset <= k < offset + |text|
      ensures source[k] != '\n'
    {
      assert source[k] == source[offset..offset + |text|][k - offset];
      assert text[k - offset] in text;
    }
    var from, to := offset - start, offset - start + |text|;
    assert offset + |text| <= start + |line|;
    forall k | 0 <= k < |text|
      ensures line[from..to][k] == text[k]
    {
      assert line[from + k] == source[start..start + |line|][from + k] == source[offset + k];
      assert text[k] == source[offset..offset + |text|][k];
    }
  }
}
