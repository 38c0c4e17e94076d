/** Which `${` are left after the environment pass. */
module KeptPlaceholders {
  import opened Outcomes
  import opened Text
  import opened Expand

  /** Position `x` of the output is where a kept `${vars.…}` placeholder starts. */
  predicate StartsKept(segs: seq<Segment>, lookup: Lookup, x: int) {
    segs != [] &&
    var n := |Meaning(segs[0], lookup)|;
    (Kept(segs[0]) && x == 0) || (x >= n && StartsKept(segs[1..], lookup, x - n))
  }

  /** Does the output of `segs` start with `{`, when no value contains one: empty values
      and empty literals are skipped. */
  predicate LeadsWithBrace(segs: seq<Segment>, lookup: Lookup) {
    segs != [] &&
    match segs[0]
    case Literal(text) => if text == "" then LeadsWithBrace(segs[1..], lookup) else text[0] == '{'
    case Ref(_) => !Kept(segs[0]) && Meaning(segs[0], lookup) == "" && LeadsWithBrace(segs[1..], lookup)
  }

  /** No kept name holds another `${`, and no `$` meets a `{` across variables that are
      set to nothing. */
  predicate Tidy(segs: seq<Segment>, lookup: Lookup) {
    segs != [] ==>
      && Tidy(segs[1..], lookup)
      && match segs[0]
         case Literal(text) => !(text != "" && text[|text| - 1] == '$' && LeadsWithBrace(segs[1..], lookup))
         case Ref(name) => Kept(segs[0]) ==> !Contains(name, "${")
  }

  /** What a scan guarantees, and the assumption that no value brings in `$` or `{`. */
  predicate Plain(segs: seq<Segment>, lookup: Lookup) {
    forall seg | seg in segs ::
      match seg
      case Literal(text) => !Contains(text, "${")
      case Ref(name) => Kept(seg) || ('$' !in Meaning(seg, lookup) && '{' !in Meaning(seg, lookup))
  }

  ghost predicate OnlyKept(segs: seq<Segment>, lookup: Lookup) {
    forall x: nat | At(Render(segs, lookup), x, "${") :: StartsKept(segs, lookup, x)
  }

  lemma AtOpening(s: string, x: int)
    ensures At(s, x, "${") <==> 0 <= x && x + 2 <= |s| && s[x] == '$' && s[x + 1] == '{'
  {
    if 0 <= x && x + 2 <= |s| {
      assert s[x..x + 2] == [s[x], s[x + 1]];
    }
  }

  /** Where an opening can be in `a + b`: inside `a`, across the seam, or inside `b`. */
  lemma AtConcat(a: string, b: string, x: nat)
    ensures At(a + b, x, "${") <==>
            || (x + 2 <= |a| && At(a, x, "${"))
            || (x + 1 == |a| && a[x] == '$' && b != "" && b[0] == '{')
            || (x >= |a| && At(b, x - |a|, "${"))
  {
    AtOpening(a + b, x);
    AtOpening(a, x);
    AtOpening(b, x - |a|);
  }

  lemma {:induction false} LeadsWithBraceIff(segs: seq<Segment>, lookup: Lookup)
    requires Plain(segs, lookup)
    ensures LeadsWithBrace(segs, lookup) <==> Render(segs, lookup) != "" && Render(segs, lookup)[0] == '{'
  {
    if segs != [] {
      LeadsWithBraceIff(segs[1..], lookup);
      var piece := Meaning(segs[0], lookup);
      if piece == "" {
        assert Render(segs, lookup) == Render(segs[1..], lookup);
      } else {
        assert Render(segs, lookup)[0] == piece[0];
        if segs[0].Ref? && !Kept(segs[0]) {
          assert piece[0] in piece;
        }
      }
    }
  }

  /** Inside a kept placeholder, an opening beyond the first is one inside its name. */
  lemma InsideKept(name: string, x: nat)
    ensures At("${" + name + "}", x, "${") <==> x == 0 || (x >= 2 && At(name, x - 2, "${"))
  {
    var s := "${" + name + "}";
    AtOpening(s, x);
    AtOpening(name, x - 2);
  }

  /** What the first segment's own text contributes. */
  lemma OwnOpenings(segs: seq<Segment>, lookup: Lookup, x: nat)
    requires segs != [] && Plain(segs, lookup)
    ensures var piece := Meaning(segs[0], lookup);
            At(piece, x, "${") <==> Kept(segs[0]) && (x == 0 || (x >= 2 && At(segs[0].name, x - 2, "${")))
  {
    var piece := Meaning(segs[0], lookup);
    AtOpening(piece, x);
    match segs[0]
    case Literal(text) => assert !Contains(text, "${") && (x <= |text| ==> !At(text, x, "${"));
    case Ref(name) =>
      if Kept(segs[0]) {
        InsideKept(name, x);
      }
  }

  /** An opening past the first segment belongs to the rest. */
  lemma RestOpenings(segs: seq<Segment>, lookup: Lookup, y: nat)
    requires segs != []
    ensures At(Render(segs[1..], lookup), y, "${") ==> At(Render(segs, lookup), y + |Meaning(segs[0], lookup)|, "${")
    ensures StartsKept(segs, lookup, y + |Meaning(segs[0], lookup)|) <==> StartsKept(segs[1..], lookup, y)
  {
    AtConcat(Meaning(segs[0], lookup), Render(segs[1..], lookup), y + |Meaning(segs[0], lookup)|);
  }

  lemma OnlyKeptTail(segs: seq<Segment>, lookup: Lookup)
    requires segs != [] && OnlyKept(segs, lookup)
    ensures OnlyKept(segs[1..], lookup)
  {
    forall y: nat | At(Render(segs[1..], lookup), y, "${")
      ensures StartsKept(segs[1..], lookup, y)
    {
      RestOpenings(segs, lookup, y);
    }
  }

  /** A stray opening shows up as soon as the first segment is untidy. */
  lemma UntidyHeadShows(segs: seq<Segment>, lookup: Lookup)
    requires segs != [] && Plain(segs, lookup) && Tidy(segs[1..], lookup) && !Tidy(segs, lookup)
    ensures !OnlyKept(segs, lookup)
  {
    var piece, rest := Meaning(segs[0], lookup), Render(segs[1..], lookup);
    var x: nat;
    if segs[0].Literal? {
      LeadsWithBraceIff(segs[1..], lookup);
      x := |piece| - 1;
    } else {
      var i :| 0 <= i <= |segs[0].name| && At(segs[0].name, i, "${");
      x := i + 2;
      OwnOpenings(segs, lookup, x);
    }
    AtConcat(piece, rest, x);
    assert At(Render(segs, lookup), x, "${") && !StartsKept(segs, lookup, x);
  }

  lemma TidyHeadIsFine(segs: seq<Segment>, lookup: Lookup, x: nat)
    requires segs != [] && Plain(segs, lookup) && Tidy(segs, lookup) && OnlyKept(segs[1..], lookup)
    requires At(Render(segs, lookup), x, "${")
    ensures StartsKept(segs, lookup, x)
  {
    var piece, rest := Meaning(segs[0], lookup), Render(segs[1..], lookup);
    AtConcat(piece, rest, x);
    if x >= |piece| {
      RestOpenings(segs, lookup, x - |piece|);
    } else if x + 2 <= |piece| {
      OwnOpenings(segs, lookup, x);
    } else {
      LeadsWithBraceIff(segs[1..], lookup);
      SeamIsLiteral(segs, lookup);
    }
  }

  /** Only a literal can end in `$`. */
  lemma SeamIsLiteral(segs: seq<Segment>, lookup: Lookup)
    requires segs != [] && Plain(segs, lookup)
    requires var piece := Meaning(segs[0], lookup); piece != "" && piece[|piece| - 1] == '$'
    ensures segs[0].Literal?
  {
    var piece := Meaning(segs[0], lookup);
    if segs[0].Ref? && !Kept(segs[0]) {
      assert piece[|piece| - 1] in piece;
    }
  }

  /** When no value contains `$` or `{`, every `${` in the output starts a kept
      placeholder exactly when the segments are tidy. */
  lemma {:induction false} OnlyKeptIffTidy(segs: seq<Segment>, lookup: Lookup)
    requires Plain(segs, lookup)
    ensures OnlyKept(segs, lookup) <==> Tidy(segs, lookup)
  {
    if segs == [] {
      forall x: nat ensures !At("", x, "${") { AtOpening("", x); }
    } else {
      OnlyKeptIffTidy(segs[1..], lookup);
      if OnlyKept(segs, lookup) {
        OnlyKeptTail(segs, lookup);
        if !Tidy(segs, lookup) {
          UntidyHeadShows(segs, lookup);
        }
      }
      if Tidy(segs, lookup) {
        forall x: nat | At(Render(segs, lookup), x, "${")
          ensures StartsKept(segs, lookup, x)
        {
          TidyHeadIsFine(segs, lookup, x);
        }
      }
    }
  }

  /** The environment pass on a whole file: with such values and every variable set, the
      output's openings are the kept placeholders if and only if the source is tidy. */
  lemma EnvPassLeavesOnlyKept(s: string, lookup: Lookup, out: string)
    requires forall name | lookup(name).Some? :: '$' !in lookup(name).value && '{' !in lookup(name).value
    requires IsExpansion(EnvPass(lookup), Parse(s, ENV_OPEN), 0, "", Ok(out))
    ensures var segs := Parse(s, ENV_OPEN).segs;
            (forall x: nat | At(out, x, "${") :: StartsKept(segs, lookup, x)) <==> Tidy(segs, lookup)
  {
    var segs := Parse(s, ENV_OPEN).segs;
    forall seg | seg in segs
      ensures seg.Literal? ==> !Contains(seg.text, "${")
    {
      ParseIsWellFormed(s, ENV_OPEN, seg);
    }
    OnlyKeptIffTidy(segs, lookup);
    EnvOutput(Parse(s, ENV_OPEN), lookup, Ok(out));
  }

  lemma EnvOutput(p: Scan, lookup: Lookup, r: Result<string, ExpandError>)
    requires IsExpansion(EnvPass(lookup), p, 0, "", r)
    ensures r.Ok? ==> r.value == Render(p.segs, lookup)
  {
    RenderedIsRender(p.segs, lookup, "");
    EmptyPlus(Render(p.segs, lookup));
  }

  /** What a kept placeholder looks like in the output. */
  lemma {:induction false} KeptReadsVars(segs: seq<Segment>, lookup: Lookup, x: nat)
    requires StartsKept(segs, lookup, x)
    ensures At(Render(segs, lookup), x, "${vars.")
  {
    var piece, rest := Meaning(segs[0], lookup), Render(segs[1..], lookup);
    if Kept(segs[0]) && x == 0 {
      ReadsVars(segs[0].name, rest);
    } else {
      KeptReadsVars(segs[1..], lookup, x - |piece|);
      AtShifted(piece, rest, x, "${vars.");
    }
  }

  lemma ReadsVars(name: string, rest: string)
    requires "vars." <= name
    ensures At("${" + name + "}" + rest, 0, "${vars.")
  {
    assert name[..5] == "vars.";
    assert ("${" + name + "}" + rest)[0..7] == "${" + name[..5];
  }

  lemma AtShifted(before: string, s: string, x: nat, pat: string)
    requires x >= |before| && At(s, x - |before|, pat)
    ensures At(before + s, x, pat)
  {
    var y := x - |before|;
    assert (before + s)[x..x + |pat|] == s[y..y + |pat|];
  }

  /** A literal is followed by a placeholder or nothing. */
  predicate Alternating(segs: seq<Segment>) {
    forall i | 0 <= i < |segs| - 1 :: segs[i].Literal? ==> segs[i + 1].Ref?
  }

  lemma {:induction false} ParseAlternates(s: string, open: string)
    ensures var segs := Parse(s, open).segs;
            Alternating(segs) && segs != [] && segs[0].Literal?
    decreases |s|
  {
    if CutAt(s, open).Placeholder? {
      ParseAlternates(CutAt(s, open).rest, open);
    }
  }

  lemma {:induction false} NonEmptyValuesAreTidy(segs: seq<Segment>, lookup: Lookup)
    requires Plain(segs, lookup) && Alternating(segs)
    requires forall seg | seg in segs && seg.Ref? ::
               if Kept(seg) then !Contains(seg.name, "${") else Meaning(seg, lookup) != ""
    ensures Tidy(segs, lookup)
  {
    if segs != [] {
      NonEmptyValuesAreTidy(segs[1..], lookup);
    }
  }

  /** Non-empty values without `$` or `{`, and names without a nested opening, suffice: then
      every opening left in the output starts a kept placeholder. */
  lemma NonEmptyValuesLeaveOnlyKept(s: string, lookup: Lookup, out: string)
    requires forall name | lookup(name).Some? ::
               var v := lookup(name).value; v != "" && '$' !in v && '{' !in v
    requires forall seg | seg in Parse(s, ENV_OPEN).segs && Kept(seg) :: !Contains(seg.name, "${")
    requires IsExpansion(EnvPass(lookup), Parse(s, ENV_OPEN), 0, "", Ok(out))
    ensures forall x: nat | At(out, x, "${") :: StartsKept(Parse(s, ENV_OPEN).segs, lookup, x)
  {
    hide Parse, Tidy, Alternating, StartsKept;
    var segs := Parse(s, ENV_OPEN).segs;
    forall seg | seg in segs
      ensures seg.Literal? ==> !Contains(seg.text, "${")
      ensures seg.Ref? && !Kept(seg) ==> Meaning(seg, lookup) != ""
    {
      ParseIsWellFormed(s, ENV_OPEN, seg);
      var k :| 0 <= k < |segs| && segs[k] == seg;
      assert !Missing(EnvPass(lookup), segs[k]);
    }
    ParseAlternates(s, ENV_OPEN);
    NonEmptyValuesAreTidy(segs, lookup);
    EnvPassLeavesOnlyKept(s, lookup, out);
  }

  // The two ways to leave a stray opening ---------------------------------

  lemma CutByParts(s: string, before: string, rest: string, name: string, after: string)
    requires Find(s, ENV_OPEN) == Some(|before|) && s[..|before|] == before && s[|before| + 2..] == rest
    requires Find(rest, "}") == Some(|name|) && rest[..|name|] == name && rest[|name| + 1..] == after
    ensures CutAt(s, ENV_OPEN) == Placeholder(before, name, after)
  {
  }

  lemma ParseOfCut(s: string, before: string, name: string, after: string)
    requires CutAt(s, ENV_OPEN) == Placeholder(before, name, after) && CutAt(after, ENV_OPEN) == NoMore
    ensures Parse(s, ENV_OPEN) == Scan([Literal(before), Ref(name), Literal(after)], false)
  {
    assert Parse(after, ENV_OPEN) == Scan([Literal(after)], false);
  }

  /** The scan of text with one closed placeholder in it. */
  lemma OnePlaceholder(s: string, before: string, name: string, after: string)
    requires s == before + "${" + (name + "}" + after)
    requires !Contains(before + "$", "${") && !Contains(after, "${") && !Contains(name, "}")
    ensures Parse(s, ENV_OPEN) == Scan([Literal(before), Ref(name), Literal(after)], false)
  {
    var rest := name + "}" + after;
    assert "${"[..1] == "$" && "}"[..0] == "" && name + "" == name;
    FirstAt(s, before, "${", rest);
    FirstAt(rest, name, "}", after);
    CutByParts(s, before, rest, name, after);
    FindIsFirst(after, "${");
    ParseOfCut(s, before, name, after);
  }

  /** The first occurrence of a pattern of one or two characters. */
  lemma FirstAt(s: string, before: string, pat: string, after: string)
    requires 1 <= |pat| <= 2 && s == before + pat + after && !Contains(before + pat[..|pat| - 1], pat)
    ensures Find(s, pat) == Some(|before|)
  {
    FindIsFirst(s, pat);
    assert At(s, |before|, pat);
    var front := before + pat[..|pat| - 1];
    forall k | 0 <= k < |before| ensures !At(s, k, pat) {
      assert s[k..k + |pat|] == front[k..k + |pat|];
      assert !At(front, k, pat);
    }
  }

  lemma EmptyIsUntidy(name: string, lookup: Lookup)
    requires !Kept(Ref(name)) && Meaning(Ref(name), lookup) == ""
    ensures !Tidy([Literal("$"), Ref(name), Literal("{")], lookup)
  {
    var segs := [Literal("$"), Ref(name), Literal("{")];
    assert segs[1..] == [Ref(name), Literal("{")] && segs[1..][1..] == [Literal("{")];
    assert LeadsWithBrace(segs[1..][1..], lookup);
  }

  lemma NoBrace(name: string)
    requires '}' !in name
    ensures !Contains(name, "}")
  {
    forall k | 0 <= k <= |name| ensures !At(name, k, "}") {
      assert k < |name| ==> name[k..k + 1] == [name[k]];
    }
  }

  /** `"$${X}{"` with `X` empty: the output is a lone `"${"`. */
  lemma EmptyValueMakesAnOpening(s: string, name: string, lookup: Lookup)
    requires name == "X" && s == "$${X}{" && lookup(name) == Some("")
    ensures Parse(s, ENV_OPEN) == Scan([Literal("$"), Ref(name), Literal("{")], false)
    ensures !Tidy(Parse(s, ENV_OPEN).segs, lookup)
    ensures Expanded(EnvPass(lookup), Parse(s, ENV_OPEN), 0, "") == Ok("${")
  {
    hide Tidy, Parse, Expanded, FindFrom;
    assert name[0] != 'v';
    ShortHasNoOpening("$" + "$");
    ShortHasNoOpening("{");
    NoBrace(name);
    OnePlaceholder(s, "$", name, "{");
    EmptyIsUntidy(name, lookup);
    ThreeExpand("$", name, "{", lookup, "${");
  }

  lemma ShortHasNoOpening(s: string)
    requires |s| <= 2 && (|s| == 2 ==> s[1] != '{')
    ensures !Contains(s, "${")
  {
    forall k | 0 <= k <= |s| ensures !At(s, k, "${") {
      AtOpening(s, k);
    }
  }

  lemma ThreeExpand(before: string, name: string, after: string, lookup: Lookup, out: string)
    requires !Unset(Ref(name), lookup) && out == before + Meaning(Ref(name), lookup) + after
    ensures Expanded(EnvPass(lookup), Scan([Literal(before), Ref(name), Literal(after)], false), 0, "") ==
            Ok(out)
  {
    var pass, left := EnvPass(lookup), Scan([Literal(before), Ref(name), Literal(after)], false);
    var next := Scan([Literal(after)], false);
    assert left == Before(before, name, next);
    var read, more := |before| + |ENV_OPEN| + |name| + 1, before + Meaning(Ref(name), lookup);
    EmptyPlus(before);
    ExpandedNext(pass, left, before, name, next, 0, "", read, more);
    ExpandedLast(pass, after, false, read, more);
  }

  lemma NestedIsKept(name: string, lookup: Lookup)
    requires "vars." <= name && Contains(name, "${")
    ensures !Tidy([Literal(""), Ref(name), Literal("")], lookup)
    ensures Meaning(Ref(name), lookup) == "${" + name + "}"
  {
    var segs := [Literal(""), Ref(name), Literal("")];
    assert segs[1..] == [Ref(name), Literal("")];
    assert !Tidy(segs[1..], lookup);
  }

  /** `"${vars.a${b}"` is left as it is, with a second opening in the kept name. */
  lemma NestedNameKeepsAnOpening(s: string, lookup: Lookup)
    requires s == "${vars.a${b}"
    ensures Parse(s, ENV_OPEN) == Scan([Literal(""), Ref("vars.a${b"), Literal("")], false)
    ensures !Tidy(Parse(s, ENV_OPEN).segs, lookup)
    ensures Expanded(EnvPass(lookup), Parse(s, ENV_OPEN), 0, "") == Ok(s)
  {
    hide Tidy, Parse, Expanded, FindFrom;
    var name := "vars.a${b";
    assert name[..5] == "vars." && name[6..8] == "${";
    assert At(name, 6, "${");
    NoBrace(name);
    ShortHasNoOpening("" + "$");
    ShortHasNoOpening("");
    OnePlaceholder(s, "", name, "");
    NestedIsKept(name, lookup);
    ThreeExpand("", name, "", lookup, s);
  }
}
