/** The two text passes over `coulisse.yaml` before it is parsed: environment
    variables, then the file's own `vars:` table; and the line an error points at. */
module Expand {
  import opened Outcomes
  import opened Text

  datatype ExpandError =
    | ConfigVarNotSet(offset: nat, name: string)
    | EnvVarNotSet(offset: nat, name: string)
    | Unclosed(offset: nat)

  // ---------------------------------------------------------------------
  // The source as segments
  // ---------------------------------------------------------------------

  /** Literal text, or a placeholder `open name }`. */
  datatype Segment = Literal(text: string) | Ref(name: string)

  function SourceOf(seg: Segment, open: string): string {
    match seg
    case Literal(text) => text
    case Ref(name) => open + name + "}"
  }

  function Source(segs: seq<Segment>, open: string): string {
    if segs == [] then "" else SourceOf(segs[0], open) + Source(segs[1..], open)
  }

  /** A scan either reaches the end of the text or stops at a placeholder that is never
      closed. */
  datatype Scan = Scan(segs: seq<Segment>, unclosed: bool)

  /** The next placeholder of `s`: none, never closed, or the text before it, its name
      and the unread rest. */
  datatype Cut = NoMore | NeverClosed(text: string) | Placeholder(text: string, name: string, rest: string)

  function CutAt(s: string, open: string): (c: Cut)
    ensures c.NeverClosed? ==> |c.text| + |open| <= |s|
    ensures c.Placeholder? ==> |s| == |c.text| + |open| + |c.name| + 1 + |c.rest|
  {
    match Find(s, open)
    case None => NoMore
    case Some(start) =>
      var after := s[start + |open|..];
      match Find(after, "}")
      case None => NeverClosed(s[..start])
      case Some(end) => Placeholder(s[..start], after[..end], after[end + 1..])
  }

  /** Leftmost placeholders, each ending at the first `}`; nothing inside is rescanned. */
  function Parse(s: string, open: string): Scan
    decreases |s|
  {
    match CutAt(s, open)
    case NoMore => Scan([Literal(s)], false)
    case NeverClosed(text) => Scan([Literal(text)], true)
    case Placeholder(text, name, rest) =>
      Before(text, name, Parse(rest, open))
  }

  function Before(text: string, name: string, next: Scan): Scan {
    Scan([Literal(text), Ref(name)] + next.segs, next.unclosed)
  }

  lemma Assoc(a: string, b: string, c: string)
    ensures a + (b + c) == a + b + c
  {
  }

  /** What a cut says about the text. */
  lemma CutIsExact(s: string, open: string)
    requires open != ""
    ensures match CutAt(s, open)
            case NoMore => !Contains(s, open)
            case NeverClosed(text) =>
              && s == text + s[|text|..] && !Contains(text, open)
              && At(s[|text|..], 0, open) && !Contains(s[|text|..][|open|..], "}")
            case Placeholder(text, name, rest) =>
              s == text + (open + name + "}") + rest && !Contains(text, open) && !Contains(name, "}")
  {
    hide FindFrom;
    FindIsFirst(s, open);
    if Find(s, open).Some? {
      var start := Find(s, open).value;
      var after := s[start + |open|..];
      FindSplits(s, open);
      assert s[start..][|open|..] == after;
      if Find(after, "}").None? {
        FindIsFirst(after, "}");
      } else {
        FindSplits(after, "}");
        Regroup(s[..start], open, after[..Find(after, "}").value], after[Find(after, "}").value + 1..]);
      }
    }
  }

  lemma Regroup(text: string, open: string, name: string, tail: string)
    ensures text + open + (name + "}" + tail) == text + (open + name + "}") + tail
  {
  }

  lemma SourceAppend(a: seq<Segment>, b: seq<Segment>, open: string)
    ensures Source(a + b, open) == Source(a, open) + Source(b, open)
  {
    if a == [] {
      assert a + b == b;
    } else {
      assert (a + b)[1..] == a[1..] + b;
      SourceAppend(a[1..], b, open);
      Assoc(SourceOf(a[0], open), Source(a[1..], open), Source(b, open));
    }
  }

  lemma SourceOne(seg: Segment, open: string)
    ensures Source([seg], open) == SourceOf(seg, open)
  {
    assert [seg][1..] == [];
    assert Source([seg][1..], open) == "";
  }

  lemma SourceTwo(text: string, name: string, open: string)
    ensures Source([Literal(text), Ref(name)], open) == text + (open + name + "}")
  {
    assert [Literal(text), Ref(name)][1..] == [Ref(name)];
    SourceOne(Ref(name), open);
  }

  /** The placeholder a scan stopped at, to the end of the text; nothing otherwise. */
  function Unread(s: string, open: string): string
    decreases |s|
  {
    match CutAt(s, open)
    case NoMore => ""
    case NeverClosed(text) => s[|text|..]
    case Placeholder(_, _, rest) => Unread(rest, open)
  }

  /** A scan loses nothing: the source is its segments, followed, when a placeholder is
      left open, by that placeholder. */
  lemma {:induction false} ParseIsFaithful(s: string, open: string)
    requires open != ""
    ensures s == Source(Parse(s, open).segs, open) + Unread(s, open)
    decreases |s|
  {
    CutIsExact(s, open);
    match CutAt(s, open)
    case NoMore => SourceOne(Literal(s), open);
    case NeverClosed(text) => SourceOne(Literal(text), open);
    case Placeholder(text, name, tail) =>
      ParseIsFaithful(tail, open);
      PrefixFaithful(text, name, open, Parse(tail, open).segs, Unread(tail, open));
  }

  /** A scan that stops early stops at an opening with no closing brace after it. */
  lemma {:induction false} UnreadIsOpen(s: string, open: string)
    requires open != ""
    ensures if Parse(s, open).unclosed then At(Unread(s, open), 0, open) && !Contains(Unread(s, open)[|open|..], "}")
            else Unread(s, open) == ""
    decreases |s|
  {
    CutIsExact(s, open);
    if CutAt(s, open).Placeholder? {
      UnreadIsOpen(CutAt(s, open).rest, open);
    }
  }

  lemma {:induction false} ParseIsWellFormed(s: string, open: string, seg: Segment)
    requires open != "" && seg in Parse(s, open).segs
    ensures if seg.Literal? then !Contains(seg.text, open) else !Contains(seg.name, "}")
    decreases |s|
  {
    CutIsExact(s, open);
    if CutAt(s, open).Placeholder? {
      var tail := CutAt(s, open).rest;
      if seg in Parse(tail, open).segs {
        ParseIsWellFormed(tail, open, seg);
      }
    }
  }

  lemma PrefixFaithful(text: string, name: string, open: string, segs: seq<Segment>, rest: string)
    ensures text + (open + name + "}") + (Source(segs, open) + rest) ==
            Source([Literal(text), Ref(name)] + segs, open) + rest
  {
    SourceTwo(text, name, open);
    SourceAppend([Literal(text), Ref(name)], segs, open);
    Assoc(text + (open + name + "}"), Source(segs, open), rest);
  }

  /** The position in the source where segment `k` starts. */
  function Offset(segs: seq<Segment>, open: string, k: nat): nat
    requires k <= |segs|
  {
    |Source(segs[..k], open)|
  }

  /** An offset is exact: the placeholder it names stands there, letter for letter. */
  lemma OffsetPointsAtPlaceholder(s: string, open: string, k: nat)
    requires open != "" && k < |Parse(s, open).segs| && Parse(s, open).segs[k].Ref?
    ensures var segs := Parse(s, open).segs;
            At(s, Offset(segs, open, k), SourceOf(segs[k], open))
  {
    ParseIsFaithful(s, open);
    PlacedAt(s, Parse(s, open).segs, Unread(s, open), open, k);
  }

  lemma PlacedAt(s: string, segs: seq<Segment>, rest: string, open: string, k: nat)
    requires k < |segs| && s == Source(segs, open) + rest
    ensures At(s, Offset(segs, open, k), SourceOf(segs[k], open))
  {
    hide SourceOf;
    assert segs == segs[..k] + segs[k..];
    SourceAppend(segs[..k], segs[k..], open);
    InTheMiddle(s, Source(segs[..k], open), SourceOf(segs[k], open), Source(segs[k..][1..], open), rest);
  }

  lemma InTheMiddle(s: string, before: string, here: string, after: string, rest: string)
    requires s == before + (here + after) + rest
    ensures At(s, |before|, here)
  {
  }

  lemma UnclosedOffset(s: string, open: string)
    requires open != "" && Parse(s, open).unclosed
    ensures var n := |Source(Parse(s, open).segs, open)|;
            At(s, n, open) && !Contains(s[n + |open|..], "}")
  {
    hide Parse, Unread, Source;
    ParseIsFaithful(s, open);
    UnreadIsOpen(s, open);
    OpenSuffix(Source(Parse(s, open).segs, open), Unread(s, open), s, open);
  }

  lemma OpenSuffix(before: string, rest: string, s: string, open: string)
    requires s == before + rest && At(rest, 0, open) && !Contains(rest[|open|..], "}")
    ensures At(s, |before|, open) && !Contains(s[|before| + |open|..], "}")
  {
    assert s[|before|..|before| + |open|] == rest[0..|open|];
    assert s[|before| + |open|..] == rest[|open|..];
  }

  // ---------------------------------------------------------------------
  // A pass over the segments
  // ---------------------------------------------------------------------

  /** What a pass looks for, which placeholders it cannot resolve and how it reports one,
      and what it has written after one more segment. */
  datatype Pass = Pass(
    open: string, missing: string -> bool, error: (nat, string) -> ExpandError, write: (Segment, string) -> string)

  function Rendered(pass: Pass, segs: seq<Segment>, written: string): string {
    if segs == [] then written else Rendered(pass, segs[1..], pass.write(segs[0], written))
  }

  predicate Missing(pass: Pass, seg: Segment) {
    seg.Ref? && pass.missing(seg.name)
  }

  predicate AllPresent(pass: Pass, segs: seq<Segment>) {
    forall j | 0 <= j < |segs| :: !Missing(pass, segs[j])
  }

  predicate IsFirstMissing(pass: Pass, segs: seq<Segment>, k: nat) {
    k < |segs| && Missing(pass, segs[k]) && AllPresent(pass, segs[..k])
  }

  /** What the pass must return once `n` characters are read and `written` is their
      expansion: the first missing name, else the unclosed placeholder, else every segment
      written once. */
  ghost predicate IsExpansion(pass: Pass, p: Scan, n: nat, written: string, r: Result<string, ExpandError>) {
    || (exists k: nat ::
          && IsFirstMissing(pass, p.segs, k)
          && r == Err(pass.error(n + Offset(p.segs, pass.open, k), p.segs[k].name)))
    || (AllPresent(pass, p.segs)
        && r == if p.unclosed then Err(Unclosed(n + |Source(p.segs, pass.open)|))
                else Ok(Rendered(pass, p.segs, written)))
  }

  /** The same, one segment at a time. */
  function Expanded(pass: Pass, p: Scan, n: nat, written: string): Result<string, ExpandError>
    decreases |p.segs|
  {
    if p.segs == [] then if p.unclosed then Err(Unclosed(n)) else Ok(written)
    else if Missing(pass, p.segs[0]) then Err(pass.error(n, p.segs[0].name))
    else
      var rest, read := Scan(p.segs[1..], p.unclosed), n + |SourceOf(p.segs[0], pass.open)|;
      Expanded(pass, rest, read, pass.write(p.segs[0], written))
  }

  lemma {:induction false} ExpandedMeans(pass: Pass, p: Scan, n: nat, written: string, r: Result<string, ExpandError>)
    requires r == Expanded(pass, p, n, written)
    ensures IsExpansion(pass, p, n, written, r)
    decreases |p.segs|
  {
    if p.segs == [] {
      assert AllPresent(pass, p.segs);
    } else if Missing(pass, p.segs[0]) {
      assert p.segs[..0] == [];
      assert IsFirstMissing(pass, p.segs, 0);
    } else {
      var rest := Scan(p.segs[1..], p.unclosed);
      var m, more := n + |SourceOf(p.segs[0], pass.open)|, pass.write(p.segs[0], written);
      ExpandedMeans(pass, rest, m, more, r);
      ExpansionBefore(pass, p, n, written, rest, m, more, r);
    }
  }

  lemma ExpansionBefore(
      pass: Pass, p: Scan, n: nat, written: string, rest: Scan, m: nat, more: string, r: Result<string, ExpandError>)
    requires p.segs != [] && !Missing(pass, p.segs[0]) && rest == Scan(p.segs[1..], p.unclosed)
    requires m == n + |SourceOf(p.segs[0], pass.open)| && more == pass.write(p.segs[0], written)
    requires IsExpansion(pass, rest, m, more, r)
    ensures IsExpansion(pass, p, n, written, r)
  {
    hide SourceOf, Offset, Source, Rendered;
    if k: nat :|
      && IsFirstMissing(pass, rest.segs, k)
      && r == Err(pass.error(m + Offset(rest.segs, pass.open, k), rest.segs[k].name))
    {
      MissingBefore(pass, p.segs, n, k);
    } else {
      CompleteBefore(pass, p.segs, written);
    }
  }

  lemma CompleteBefore(pass: Pass, segs: seq<Segment>, written: string)
    requires segs != [] && !Missing(pass, segs[0]) && AllPresent(pass, segs[1..])
    ensures AllPresent(pass, segs)
    ensures |Source(segs, pass.open)| == |SourceOf(segs[0], pass.open)| + |Source(segs[1..], pass.open)|
    ensures Rendered(pass, segs, written) == Rendered(pass, segs[1..], pass.write(segs[0], written))
  {
    AllPresentBefore(pass, segs);
  }

  lemma MissingBefore(pass: Pass, segs: seq<Segment>, n: nat, k: nat)
    requires segs != [] && !Missing(pass, segs[0]) && IsFirstMissing(pass, segs[1..], k)
    ensures var m := n + |SourceOf(segs[0], pass.open)|;
            && IsFirstMissing(pass, segs, k + 1)
            && pass.error(m + Offset(segs[1..], pass.open, k), segs[1..][k].name) ==
               pass.error(n + Offset(segs, pass.open, k + 1), segs[k + 1].name)
  {
    hide SourceOf, Offset;
    FirstMissingBefore(pass, segs, k);
  }

  lemma FirstMissingBefore(pass: Pass, segs: seq<Segment>, k: nat)
    requires segs != [] && !Missing(pass, segs[0]) && IsFirstMissing(pass, segs[1..], k)
    ensures IsFirstMissing(pass, segs, k + 1)
    ensures Offset(segs, pass.open, k + 1) == |SourceOf(segs[0], pass.open)| + Offset(segs[1..], pass.open, k)
  {
    var front, tail := segs[..k + 1], segs[1..][..k];
    assert front[1..] == tail;
    forall j | 0 <= j < |front| ensures !Missing(pass, front[j]) {
      if j > 0 {
        assert front[j] == tail[j - 1];
      }
    }
  }

  lemma AllPresentBefore(pass: Pass, segs: seq<Segment>)
    requires segs != [] && !Missing(pass, segs[0]) && AllPresent(pass, segs[1..])
    ensures AllPresent(pass, segs)
  {
    forall j | 0 <= j < |segs| ensures !Missing(pass, segs[j]) {
      if j > 0 {
        assert segs[j] == segs[1..][j - 1];
      }
    }
  }

  // What a pass writes, piece by piece --------------------------------------

  /** A pass only ever appends. */
  ghost predicate Appends(pass: Pass) {
    forall seg: Segment, written: string :: written <= pass.write(seg, written)
  }

  /** What each segment adds to what is written before it. */
  ghost function Pieces(pass: Pass, segs: seq<Segment>, written: string): (pieces: seq<string>)
    requires Appends(pass)
    ensures |pieces| == |segs|
  {
    if segs == [] then []
    else
      var more := pass.write(segs[0], written);
      [more[|written|..]] + Pieces(pass, segs[1..], more)
  }

  lemma {:induction false} PiecesMakeUp(pass: Pass, segs: seq<Segment>, written: string)
    requires Appends(pass)
    ensures Rendered(pass, segs, written) == written + Concat(Pieces(pass, segs, written))
  {
    if segs == [] {
      assert written + "" == written;
    } else {
      var more := pass.write(segs[0], written);
      PiecesMakeUp(pass, segs[1..], more);
      assert more == written + more[|written|..];
      assert Pieces(pass, segs, written)[1..] == Pieces(pass, segs[1..], more);
      Assoc(written, more[|written|..], Concat(Pieces(pass, segs[1..], more)));
    }
  }

  /** Piece `k` is what the pass writes for segment `k` after the pieces before it. */
  lemma {:induction false} PieceIsWritten(pass: Pass, segs: seq<Segment>, written: string, k: nat)
    requires Appends(pass) && k < |segs|
    ensures var pieces := Pieces(pass, segs, written);
            var before := written + Concat(pieces[..k]);
            pass.write(segs[k], before) == before + pieces[k]
  {
    var pieces, more := Pieces(pass, segs, written), pass.write(segs[0], written);
    assert more == written + pieces[0];
    if k == 0 {
      assert written + Concat(pieces[..0]) == written;
    } else {
      PieceIsWritten(pass, segs[1..], more, k - 1);
      assert pieces[..k][1..] == Pieces(pass, segs[1..], more)[..k - 1];
      Assoc(written, pieces[0], Concat(pieces[..k][1..]));
    }
  }

  // One turn of a pass's loop: `all` is the whole result, of which `rest` is still to come.

  lemma ReadsNext(
      pass: Pass, rest: string, n: nat, written: string, all: Result<string, ExpandError>,
      text: string, name: string, tail: string, offset: nat, m: nat, more: string)
    requires Expanded(pass, Parse(rest, pass.open), n, written) == all && offset == n + |text|
    requires CutAt(rest, pass.open) == Placeholder(text, name, tail)
    requires m == n + |text| + |pass.open| + |name| + 1
    requires more == pass.write(Ref(name), pass.write(Literal(text), written))
    ensures if pass.missing(name) then all == Err(pass.error(offset, name))
            else Expanded(pass, Parse(tail, pass.open), m, more) == all
  {
    ExpandedNext(pass, Parse(rest, pass.open), text, name, Parse(tail, pass.open), n, written, m, more);
  }

  lemma ReadsEnd(pass: Pass, rest: string, n: nat, written: string, all: Result<string, ExpandError>, done: string)
    requires Expanded(pass, Parse(rest, pass.open), n, written) == all
    requires CutAt(rest, pass.open) == NoMore && done == pass.write(Literal(rest), written)
    ensures all == Ok(done)
  {
    ExpandedLast(pass, rest, false, n, written);
  }

  lemma ReadsUnclosed(
      pass: Pass, rest: string, n: nat, written: string, all: Result<string, ExpandError>, text: string, offset: nat)
    requires Expanded(pass, Parse(rest, pass.open), n, written) == all
    requires CutAt(rest, pass.open) == NeverClosed(text) && offset == n + |text|
    ensures all == Err(Unclosed(offset))
  {
    ExpandedLast(pass, text, true, n, written);
  }

  lemma ExpandedNext(
      pass: Pass, left: Scan, text: string, name: string, next: Scan, n: nat, written: string, m: nat, more: string)
    requires left == Before(text, name, next)
    requires m == n + |text| + |pass.open| + |name| + 1
    requires more == pass.write(Ref(name), pass.write(Literal(text), written))
    ensures Expanded(pass, left, n, written) ==
            if pass.missing(name) then Err(pass.error(n + |text|, name)) else Expanded(pass, next, m, more)
  {
    var middle := Scan([Ref(name)] + next.segs, next.unclosed);
    assert left.segs[1..] == middle.segs && middle.segs[1..] == next.segs;
    assert Expanded(pass, left, n, written) == Expanded(pass, middle, n + |text|, pass.write(Literal(text), written));
  }

  lemma ExpandedLast(pass: Pass, text: string, unclosed: bool, n: nat, written: string)
    ensures Expanded(pass, Scan([Literal(text)], unclosed), n, written) ==
            if unclosed then Err(Unclosed(n + |text|)) else Ok(pass.write(Literal(text), written))
  {
    assert [Literal(text)][1..] == [];
  }

  // ---------------------------------------------------------------------
  // Environment variables
  // ---------------------------------------------------------------------

  const ENV_OPEN := "${"

  type Lookup = string -> Option<string>

  /** Left for the second pass. */
  predicate Kept(seg: Segment) {
    seg.Ref? && "vars." <= seg.name
  }

  predicate Unset(seg: Segment, lookup: Lookup) {
    seg.Ref? && !Kept(seg) && lookup(seg.name).None?
  }

  function Meaning(seg: Segment, lookup: Lookup): string {
    if seg.Ref? && !Kept(seg) then lookup(seg.name).GetOr("") else SourceOf(seg, ENV_OPEN)
  }

  function EnvPass(lookup: Lookup): Pass {
    Pass(ENV_OPEN, (name: string) => Unset(Ref(name), lookup), (n: nat, name: string) => EnvVarNotSet(n, name),
         (seg: Segment, written: string) => written + Meaning(seg, lookup))
  }

  function Render(segs: seq<Segment>, lookup: Lookup): string {
    if segs == [] then "" else Meaning(segs[0], lookup) + Render(segs[1..], lookup)
  }

  /** The output is the meanings of the segments, concatenated. */
  lemma {:induction false} RenderedIsRender(segs: seq<Segment>, lookup: Lookup, written: string)
    ensures Rendered(EnvPass(lookup), segs, written) == written + Render(segs, lookup)
  {
    if segs == [] {
      assert written + "" == written;
    } else {
      RenderedIsRender(segs[1..], lookup, written + Meaning(segs[0], lookup));
      Assoc(written, Meaning(segs[0], lookup), Render(segs[1..], lookup));
    }
  }

  /** What the environment pass returns. */
  lemma EnvExpansion(s: string, lookup: Lookup)
    ensures var pass, p := EnvPass(lookup), Parse(s, ENV_OPEN);
            IsExpansion(pass, p, 0, "", Expanded(pass, p, 0, ""))
    ensures Rendered(EnvPass(lookup), Parse(s, ENV_OPEN).segs, "") == Render(Parse(s, ENV_OPEN).segs, lookup)
  {
    var p := Parse(s, ENV_OPEN);
    ExpandedMeans(EnvPass(lookup), p, 0, "", Expanded(EnvPass(lookup), p, 0, ""));
    RenderedIsRender(p.segs, lookup, "");
    EmptyPlus(Render(p.segs, lookup));
  }

  lemma EmptyPlus(s: string)
    ensures "" + s == s
  {
  }

  /** The text one placeholder turns into, `None` when its variable is not set. */
  function EnvValue(name: string, lookup: Lookup): (r: Option<string>)
    ensures r.None? <==> Unset(Ref(name), lookup)
    ensures r.Some? ==> r.value == Meaning(Ref(name), lookup)
  {
    if "vars." <= name then Some("${" + name + "}") else lookup(name)
  }

  /** The result, of the text and the lookup alone. A value for each placeholder, in its place;
      or the first placeholder whose variable is not set, where it stands; or an opening that is
      never closed, after variables that all are. */
  ghost predicate IsEnvOutcome(s: string, lookup: Lookup, r: Result<string, ExpandError>) {
    var scan := Parse(s, "${");
    match r
    case Ok(out) =>
      && !scan.unclosed
      && exists pieces: seq<string> :: |pieces| == |scan.segs| && out == Concat(pieces)
           && forall k | 0 <= k < |pieces| :: EnvPiece(scan.segs[k], lookup, pieces[k])
    case Err(EnvVarNotSet(offset, name)) =>
      && At(s, offset, "${" + name + "}") && !("vars." <= name) && lookup(name).None?
      && exists k | 0 <= k < |scan.segs| ::
           && scan.segs[k] == Ref(name) && offset == Offset(scan.segs, "${", k)
           && forall j | 0 <= j < k :: EnvSet(scan.segs[j], lookup)
    case Err(Unclosed(offset)) =>
      && At(s, offset, "${") && !Contains(s[offset + 2..], "}")
      && forall j | 0 <= j < |scan.segs| :: EnvSet(scan.segs[j], lookup)
    case Err(ConfigVarNotSet(_, _)) => false
  }

  predicate EnvSet(seg: Segment, lookup: Lookup) {
    seg.Literal? || "vars." <= seg.name || lookup(seg.name).Some?
  }

  /** Literal text stays, a `vars.` placeholder is left as it is, any other becomes its value. */
  predicate EnvPiece(seg: Segment, lookup: Lookup, piece: string) {
    match seg
    case Literal(text) => piece == text
    case Ref(name) => if "vars." <= name then piece == "${" + name + "}" else lookup(name) == Some(piece)
  }

  lemma EnvOutcome(s: string, lookup: Lookup, r: Result<string, ExpandError>)
    requires r == Expanded(EnvPass(lookup), Parse(s, ENV_OPEN), 0, "")
    ensures IsEnvOutcome(s, lookup, r)
  {
    hide Parse, Expanded, Rendered, Offset, Source, IsEnvOutcome;
    var pass, scan := EnvPass(lookup), Parse(s, ENV_OPEN);
    ExpandedMeans(pass, scan, 0, "", r);
    if k: nat :|
      && IsFirstMissing(pass, scan.segs, k)
      && r == Err(pass.error(0 + Offset(scan.segs, pass.open, k), scan.segs[k].name))
    {
      EnvMissing(s, lookup, k, Offset(scan.segs, ENV_OPEN, k), scan.segs[k].name);
    } else {
      EnvComplete(s, lookup);
    }
  }

  lemma EnvMissing(s: string, lookup: Lookup, k: nat, offset: nat, name: string)
    requires IsFirstMissing(EnvPass(lookup), Parse(s, ENV_OPEN).segs, k)
    requires offset == Offset(Parse(s, ENV_OPEN).segs, ENV_OPEN, k) && Parse(s, ENV_OPEN).segs[k] == Ref(name)
    ensures IsEnvOutcome(s, lookup, Err(EnvVarNotSet(offset, name)))
  {
    hide Parse, Offset, Source;
    var segs := Parse(s, ENV_OPEN).segs;
    OffsetPointsAtPlaceholder(s, ENV_OPEN, k);
    EnvPresent(segs[..k], lookup);
    assert forall j | 0 <= j < k :: segs[j] == segs[..k][j];
  }

  lemma EnvComplete(s: string, lookup: Lookup)
    requires AllPresent(EnvPass(lookup), Parse(s, ENV_OPEN).segs)
    ensures var scan := Parse(s, ENV_OPEN);
            IsEnvOutcome(s, lookup, if scan.unclosed then Err(Unclosed(|Source(scan.segs, ENV_OPEN)|))
                                    else Ok(Rendered(EnvPass(lookup), scan.segs, "")))
  {
    hide Parse, Rendered, Source;
    var pass, scan := EnvPass(lookup), Parse(s, ENV_OPEN);
    EnvPresent(scan.segs, lookup);
    if scan.unclosed {
      UnclosedOffset(s, ENV_OPEN);
    } else {
      EnvPieces(scan.segs, lookup);
      assert "" + Concat(Pieces(pass, scan.segs, "")) == Concat(Pieces(pass, scan.segs, ""));
    }
  }

  lemma EnvPresent(segs: seq<Segment>, lookup: Lookup)
    requires AllPresent(EnvPass(lookup), segs)
    ensures forall j | 0 <= j < |segs| :: EnvSet(segs[j], lookup)
  {
    forall j | 0 <= j < |segs| ensures EnvSet(segs[j], lookup) {
      assert !Missing(EnvPass(lookup), segs[j]);
    }
  }

  lemma EnvPieces(segs: seq<Segment>, lookup: Lookup)
    requires AllPresent(EnvPass(lookup), segs)
    ensures Appends(EnvPass(lookup))
    ensures var pieces := Pieces(EnvPass(lookup), segs, "");
            && Rendered(EnvPass(lookup), segs, "") == "" + Concat(pieces)
            && forall k | 0 <= k < |pieces| :: EnvPiece(segs[k], lookup, pieces[k])
  {
    var pass := EnvPass(lookup);
    var pieces := Pieces(pass, segs, "");
    PiecesMakeUp(pass, segs, "");
    EnvPresent(segs, lookup);
    forall k | 0 <= k < |pieces| ensures EnvPiece(segs[k], lookup, pieces[k]) {
      PieceIsWritten(pass, segs, "", k);
      SameTail("" + Concat(pieces[..k]), Meaning(segs[k], lookup), pieces[k]);
    }
  }

  lemma SameTail(before: string, a: string, b: string)
    requires before + a == before + b
    ensures a == b
  {
    assert (before + a)[|before|..] == a && (before + b)[|before|..] == b;
  }

  /** One placeholder per turn; a substituted value goes straight to the result and is
      never read again. */
  method ExpandEnvVars(s: string, lookup: Lookup) returns (r: Result<string, ExpandError>)
    ensures r == Expanded(EnvPass(lookup), Parse(s, ENV_OPEN), 0, "")
    ensures IsEnvOutcome(s, lookup, r)
  {
    var result, rest := "", s;
    ghost var pass := EnvPass(lookup);
    ghost var n: nat, all := 0, Expanded(pass, Parse(s, ENV_OPEN), 0, "");
    EnvOutcome(s, lookup, all);
    while true
      invariant |rest| <= |s| && n == |s| - |rest|
      invariant Expanded(pass, Parse(rest, ENV_OPEN), n, result) == all
      decreases |rest|
    {
      match CutAt(rest, ENV_OPEN) {
        case NoMore =>
          ReadsEnd(pass, rest, n, result, all, result + rest);
          return Ok(result + rest);
        case NeverClosed(text) =>
          var offset := |s| - |rest| + |text|;
          ReadsUnclosed(pass, rest, n, result, all, text, offset);
          return Err(Unclosed(offset));
        case Placeholder(text, name, tail) =>
          var offset := |s| - |rest| + |text|;
          ghost var m := n + |text| + |ENV_OPEN| + |name| + 1;
          var value := EnvValue(name, lookup);
          ghost var more := result + text + Meaning(Ref(name), lookup);
          ReadsNext(pass, rest, n, result, all, text, name, tail, offset, m, more);
          if value.None? {
            return Err(EnvVarNotSet(offset, name));
          }
          result := result + text + value.value;
          rest, n := tail, m;
      }
    }
  }
}
