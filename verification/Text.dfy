/** String searching and splitting, on strings whose characters stand for UTF-8 bytes. */
module Text {
  import opened Outcomes

  predicate At(s: string, i: int, pat: string) {
    0 <= i <= i + |pat| <= |s| && s[i..i + |pat|] == pat
  }

  predicate Contains(s: string, pat: string) {
    exists i | 0 <= i <= |s| :: At(s, i, pat)
  }

  /** `str::find` from position `i`: the first occurrence. */
  function FindFrom(s: string, pat: string, i: nat): (r: Option<nat>)
    requires i <= |s|
    ensures r.Some? ==> i <= r.value && r.value + |pat| <= |s|
    decreases |s| - i
  {
    if At(s, i, pat) then Some(i)
    else if i == |s| then None
    else FindFrom(s, pat, i + 1)
  }

  function Find(s: string, pat: string): (r: Option<nat>)
    ensures r.Some? ==> r.value + |pat| <= |s|
  {
    FindFrom(s, pat, 0)
  }

  lemma {:induction false} FindFromIsFirst(s: string, pat: string, i: nat)
    requires i <= |s|
    ensures var r := FindFrom(s, pat, i);
            && (r.Some? ==> At(s, r.value, pat))
            && forall k | i <= k < (if r.Some? then r.value else |s| + 1) :: !At(s, k, pat)
    decreases |s| - i
  {
    if !At(s, i, pat) && i < |s| {
      FindFromIsFirst(s, pat, i + 1);
    }
  }

  lemma FindIsFirst(s: string, pat: string)
    ensures var r := Find(s, pat);
            && (r.Some? ==> At(s, r.value, pat) && forall k | 0 <= k < r.value :: !At(s, k, pat))
            && (r.None? <==> !Contains(s, pat))
  {
    FindFromIsFirst(s, pat, 0);
  }

  /** What a hit splits a string into; nothing before it contains the pattern. */
  lemma FindSplits(s: string, pat: string)
    requires pat != "" && Find(s, pat).Some?
    ensures var i := Find(s, pat).value;
            s == s[..i] + pat + s[i + |pat|..] && !Contains(s[..i], pat)
  {
    var i := Find(s, pat).value;
    FindIsFirst(s, pat);
    forall k | 0 <= k <= i
      ensures !At(s[..i], k, pat)
    {
      if At(s[..i], k, pat) {
        assert s[k..k + |pat|] == s[..i][k..k + |pat|];
        assert At(s, k, pat);
      }
    }
  }

  function Concat(pieces: seq<string>): string {
    if pieces == [] then "" else pieces[0] + Concat(pieces[1..])
  }

  /** What `trim` removes, as far as ASCII goes. */
  predicate IsSpace(c: char)
    ensures IsSpace(c) <==> c as int in {9, 10, 11, 12, 13, 32}
  {
    c == ' ' || '\t' <= c <= '\r'
  }

  /** Nothing is left after `trim`. */
  predicate IsBlank(s: string) {
    forall c | c in s :: IsSpace(c)
  }

  // Lines ---------------------------------------------------------------

  /** `split('\n')`. */
  function Split(s: string): (lines: seq<string>)
    ensures lines != []
  {
    if s == "" then [""]
    else
      var rest := Split(s[1..]);
      if s[0] == '\n' then [""] + rest else [[s[0]] + rest[0]] + rest[1..]
  }

  function Join(lines: seq<string>): string
    requires lines != []
  {
    if |lines| == 1 then lines[0] else lines[0] + "\n" + Join(lines[1..])
  }

  predicate OneLine(s: string) { '\n' !in s }

  lemma {:induction false} JoinSplit(s: string)
    ensures Join(Split(s)) == s
    ensures forall l | l in Split(s) :: OneLine(l)
  {
    if s != "" {
      JoinSplit(s[1..]);
      var rest := Split(s[1..]);
      if s[0] == '\n' {
        assert ([""] + rest)[1..] == rest;
      } else {
        var lines := [[s[0]] + rest[0]] + rest[1..];
        assert lines[1..] == rest[1..];
        assert Join(lines) == [s[0]] + Join(rest);
        assert OneLine(rest[0]);
        forall l | l in lines ensures OneLine(l) {
          assert l == lines[0] || l in rest;
        }
      }
    }
  }

  lemma {:induction false} SplitLine(l: string)
    requires OneLine(l)
    ensures Split(l) == [l]
  {
    if l != "" {
      SplitLine(l[1..]);
      assert l == [l[0]] + l[1..];
    }
  }

  lemma {:induction false} SplitFirst(l: string, rest: string)
    requires OneLine(l)
    ensures Split(l + "\n" + rest) == [l] + Split(rest)
  {
    var s := l + "\n" + rest;
    if l == "" {
      assert s[1..] == rest;
    } else {
      SplitFirst(l[1..], rest);
      assert s[1..] == l[1..] + "\n" + rest;
      assert l == [l[0]] + l[1..];
    }
  }

  lemma {:induction false} SplitJoin(lines: seq<string>)
    requires lines != [] && forall l | l in lines :: OneLine(l)
    ensures Split(Join(lines)) == lines
  {
    if |lines| == 1 {
      SplitLine(lines[0]);
    } else {
      SplitJoin(lines[1..]);
      SplitFirst(lines[0], Join(lines[1..]));
    }
  }
}
