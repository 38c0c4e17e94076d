/** `mcp::sanitize`: rewriting MCP tool names into what LLM providers accept. */
module Sanitize {

  const MAX_NAME_LEN: nat := 128

  type u32 = n: int | 0 <= n < 0x1_0000_0000

  /** The provider alphabet, `[a-zA-Z0-9_-]`. */
  predicate Allowed(c: char) {
    'a' <= c <= 'z' || 'A' <= c <= 'Z' || '0' <= c <= '9' || c == '_' || c == '-'
  }

  predicate Compliant(name: string) {
    forall i | 0 <= i < |name| :: Allowed(name[i])
  }

  function SanitizeName(raw: string): (r: string)
    ensures Compliant(r) && |r| <= MAX_NAME_LEN
    ensures r == raw <==> Compliant(raw) && |raw| <= MAX_NAME_LEN
    ensures Compliant(raw) && |raw| > MAX_NAME_LEN ==> r == raw[..MAX_NAME_LEN]
    ensures |r| == if |raw| <= 128 then |raw| else 128
    ensures forall i | 0 <= i < |r| ::
              r[i] == if 'a' <= raw[i] <= 'z' || 'A' <= raw[i] <= 'Z' || '0' <= raw[i] <= '9' || raw[i] in {'_', '-'}
                      then raw[i] else '_'
  {
    var out := seq(|raw|, i requires 0 <= i < |raw| => if Allowed(raw[i]) then raw[i] else '_');
    if |out| > MAX_NAME_LEN then out[..MAX_NAME_LEN] else out
  }

  // Suffixes ------------------------------------------------------------

  function Digit(d: nat): char
    requires d < 10
  {
    ('0' as int + d) as char
  }

  function Decimal(n: nat): (s: string)
    ensures s != [] && forall i | 0 <= i < |s| :: '0' <= s[i] <= '9'
  {
    if n < 10 then [Digit(n)] else Decimal(n / 10) + [Digit(n % 10)]
  }

  lemma LastDigit(n: nat)
    ensures var s := Decimal(n);
            && s[|s| - 1] == Digit(n % 10) && (|s| == 1 <==> n < 10)
            && (n >= 10 ==> s[..|s| - 1] == Decimal(n / 10))
  {
  }

  lemma {:induction false} DecimalInjective(m: nat, n: nat)
    ensures Decimal(m) == Decimal(n) ==> m == n
  {
    if Decimal(m) == Decimal(n) {
      LastDigit(m);
      LastDigit(n);
      if m >= 10 && n >= 10 {
        DecimalInjective(m / 10, n / 10);
      }
    }
  }

  /** The number a run of digits reads as. */
  function Value(s: string): int {
    if s == "" then 0 else 10 * Value(s[..|s| - 1]) + (s[|s| - 1] as int - '0' as int)
  }

  /** Decimal printing reads back, without leading zeros. */
  lemma {:induction false} DecimalReadsBack(n: nat)
    ensures Value(Decimal(n)) == n && (n > 0 ==> Decimal(n)[0] != '0') && Decimal(0) == "0"
  {
    LastDigit(n);
    if n >= 10 {
      DecimalReadsBack(n / 10);
    } else {
      assert Decimal(n)[..0] == "";
    }
  }

  /** `format!("{candidate}_{n}")`. */
  function Suffixed(candidate: string, n: nat): string {
    candidate + "_" + Decimal(n)
  }

  lemma SuffixesDiffer(candidate: string, m: nat, n: nat)
    ensures Suffixed(candidate, m) == Suffixed(candidate, n) ==> m == n
    ensures Suffixed(candidate, n) != candidate
  {
    var k := |candidate| + 1;
    assert Suffixed(candidate, m)[k..] == Decimal(m) && Suffixed(candidate, n)[k..] == Decimal(n);
    DecimalInjective(m, n);
  }

  /** The name `dedupe` must return: the candidate itself, or its first free suffix. */
  ghost predicate IsUnique(candidate: string, taken: set<string>, r: string) {
    && r !in taken
    && if candidate !in taken then r == candidate
       else exists n: nat :: IsFirstFree(candidate, taken, n) && r == Suffixed(candidate, n)
  }

  predicate IsFirstFree(candidate: string, taken: set<string>, n: nat) {
    && n >= 2 && Suffixed(candidate, n) !in taken
    && forall k | 2 <= k < n :: Suffixed(candidate, k) in taken
  }

  lemma UniqueIsUnique(candidate: string, taken: set<string>, a: string, b: string)
    requires IsUnique(candidate, taken, a) && IsUnique(candidate, taken, b)
    ensures a == b
  {
  }

  /** The search terminates by pigeonhole: the suffixes tried so far are distinct
      members of `taken`. The `u32` counter therefore never overflows. */
  method Dedupe(candidate: string, taken: set<string>) returns (unique: string, taken': set<string>)
    requires |taken| < 0xFFFF_FFFF
    ensures IsUnique(candidate, taken, unique)
    ensures taken' == taken + {unique}
  {
    if candidate !in taken {
      return candidate, taken + {candidate};
    }
    var n: u32 := 2;
    ghost var tried := {candidate};
    while true
      invariant 2 <= n && tried <= taken && |tried| == n - 1
      invariant forall s | s in tried :: s == candidate || exists k: nat :: 2 <= k < n && s == Suffixed(candidate, k)
      invariant forall k: nat | 2 <= k < n :: Suffixed(candidate, k) in taken
      decreases |taken| - |tried|
    {
      Subset(tried, taken);
      var suffixed := Suffixed(candidate, n);
      if suffixed !in taken {
        assert IsFirstFree(candidate, taken, n);
        return suffixed, taken + {suffixed};
      }
      forall k: nat | 2 <= k <= n {
        SuffixesDiffer(candidate, k, n);
      }
      tried := tried + {suffixed};
      Subset(tried, taken);
      n := n + 1;
    }
  }

  lemma {:induction false} Subset(a: set<string>, b: set<string>)
    requires a <= b
    ensures |a| <= |b|
  {
    assert b == a + (b - a);
  }

  // The whole list ------------------------------------------------------

  function Names(names: seq<string>): (r: set<string>)
    ensures |r| <= |names|
  {
    if names == [] then {} else Names(names[..|names| - 1]) + {names[|names| - 1]}
  }

  lemma {:induction false} NamesHolds(names: seq<string>, s: string)
    ensures s in Names(names) <==> s in names
  {
    if names != [] {
      NamesHolds(names[..|names| - 1], s);
      assert names == names[..|names| - 1] + [names[|names| - 1]];
    }
  }

  /** Every name is the unique form of its sanitised original among those before it. */
  ghost predicate IsApplied(names: seq<string>, outs: seq<string>) {
    |outs| == |names| &&
    forall i | 0 <= i < |outs| :: IsUnique(SanitizeName(names[i]), Names(outs[..i]), outs[i])
  }

  /** An exposed tool: untouched, or wrapped under a sanitised name. Calls always reach
      `inner`, which keeps the name the MCP server knows. */
  datatype Tool = Tool(name: string, id: nat)
  datatype Exposed = Unwrapped(inner: Tool) | SanitizedTool(inner: Tool, sanitizedName: string) {
    function Name(): string {
      if Unwrapped? then inner.name else sanitizedName
    }
  }

  function ToolNames(tools: seq<Tool>): (r: seq<string>)
    ensures |r| == |tools| && forall i | 0 <= i < |r| :: r[i] == tools[i].name
  {
    seq(|tools|, i requires 0 <= i < |tools| => tools[i].name)
  }

  function ExposedNames(tools: seq<Exposed>): (r: seq<string>)
    ensures |r| == |tools| && forall i | 0 <= i < |r| :: r[i] == tools[i].Name()
  {
    seq(|tools|, i requires 0 <= i < |tools| => tools[i].Name())
  }

  /** A tool under its unique name; an unchanged name needs no wrapper. */
  function Expose(tool: Tool, unique: string): (r: Exposed)
    ensures r.inner == tool && r.Name() == unique && (r.Unwrapped? <==> unique == tool.name)
  {
    if unique == tool.name then Unwrapped(tool) else SanitizedTool(tool, unique)
  }

  predicate Wraps(tools: seq<Tool>, out: seq<Exposed>) {
    |out| == |tools| && forall i | 0 <= i < |out| :: out[i] == Expose(tools[i], out[i].Name())
  }

  /** Count and order are kept, a tool is wrapped exactly when its name changes, and calls
      always reach the tool itself. */
  method Apply(tools: seq<Tool>) returns (out: seq<Exposed>)
    requires |tools| <= 0xFFFF_FFFF
    ensures Wraps(tools, out)
    ensures IsApplied(ToolNames(tools), ExposedNames(out))
  {
    var taken: set<string> := {};
    out := [];
    for i := 0 to |tools|
      invariant Wraps(tools[..i], out)
      invariant taken == Names(ExposedNames(out))
      invariant IsApplied(ToolNames(tools[..i]), ExposedNames(out))
    {
      var original := tools[i].name;
      var unique, taken' := Dedupe(SanitizeName(original), taken);
      AppliedNext(ToolNames(tools[..i]), ExposedNames(out), original, unique);
      NextTool(tools, i, out, unique);
      var exposed := Expose(tools[i], unique);
      out := out + [exposed];
      taken := taken';
    }
    assert tools[..|tools|] == tools;
  }

  lemma NextTool(tools: seq<Tool>, i: nat, out: seq<Exposed>, unique: string)
    requires i < |tools| && Wraps(tools[..i], out)
    ensures var more := out + [Expose(tools[i], unique)];
            && Wraps(tools[..i + 1], more)
            && ToolNames(tools[..i + 1]) == ToolNames(tools[..i]) + [tools[i].name]
            && ExposedNames(more) == ExposedNames(out) + [unique]
            && Names(ExposedNames(more)) == Names(ExposedNames(out)) + {unique}
  {
    var names := ExposedNames(out);
    assert (names + [unique])[..i] == names;
    assert ExposedNames(out + [Expose(tools[i], unique)]) == names + [unique];
  }

  lemma AppliedNext(names: seq<string>, outs: seq<string>, name: string, r: string)
    requires IsApplied(names, outs) && IsUnique(SanitizeName(name), Names(outs), r)
    ensures IsApplied(names + [name], outs + [r])
  {
    var more := outs + [r];
    assert forall i | 0 <= i < |outs| :: more[..i] == outs[..i] && (names + [name])[i] == names[i];
    assert more[..|outs|] == outs;
  }

  lemma UniqueIsCompliant(candidate: string, taken: set<string>, r: string)
    requires IsUnique(candidate, taken, r) && Compliant(candidate)
    ensures Compliant(r)
  {
    if candidate in taken {
      var n: nat :| IsFirstFree(candidate, taken, n) && r == Suffixed(candidate, n);
      forall i | 0 <= i < |r| ensures Allowed(r[i]) {
        if i > |candidate| {
          assert r[i] == Decimal(n)[i - |candidate| - 1];
        }
      }
    }
  }

  /** The names offered to the provider are pairwise distinct and in its alphabet. */
  lemma AppliedNamesAreGood(names: seq<string>, outs: seq<string>, i: nat, j: nat)
    requires IsApplied(names, outs) && i < j < |outs|
    ensures outs[i] != outs[j] && Compliant(outs[i]) && Compliant(outs[j])
  {
    NamesHolds(outs[..j], outs[i]);
    assert outs[..j][i] == outs[i];
    UniqueIsCompliant(SanitizeName(names[i]), Names(outs[..i]), outs[i]);
    UniqueIsCompliant(SanitizeName(names[j]), Names(outs[..j]), outs[j]);
  }

  /** An output that overflows 128 characters is its candidate with a suffix. */
  lemma LongMeansSuffixed(names: seq<string>, outs: seq<string>, i: nat) returns (n: nat)
    requires IsApplied(names, outs) && i < |outs| && |outs[i]| > MAX_NAME_LEN
    ensures outs[i] == Suffixed(SanitizeName(names[i]), n) && Compliant(outs[i])
    ensures SanitizeName(outs[i]) == outs[i][..MAX_NAME_LEN]
  {
    var candidate, taken := SanitizeName(names[i]), Names(outs[..i]);
    UniqueIsCompliant(candidate, taken, outs[i]);
    n :| IsFirstFree(candidate, taken, n) && outs[i] == Suffixed(candidate, n);
  }

  /** The provider's pattern, `^[a-zA-Z0-9_-]{1,128}$`. */
  predicate Accepted(name: string) {
    Compliant(name) && 1 <= |name| <= MAX_NAME_LEN
  }

  /** An offered name meets the pattern exactly when its candidate was free and the tool's own
      name is not empty, or the candidate leaves room for the separator and the first free
      counter `n`. */
  lemma NameFitsIff(names: seq<string>, outs: seq<string>, i: nat) returns (n: nat)
    requires IsApplied(names, outs) && i < |outs|
    ensures var candidate, taken := SanitizeName(names[i]), Names(outs[..i]);
            && (candidate in taken ==> IsFirstFree(candidate, taken, n))
            && (Accepted(outs[i]) <==>
                  if candidate !in taken then names[i] != ""
                  else |candidate| + 1 + |Decimal(n)| <= MAX_NAME_LEN)
  {
    var candidate, taken := SanitizeName(names[i]), Names(outs[..i]);
    UniqueIsCompliant(candidate, taken, outs[i]);
    n := 0;
    if candidate in taken {
      n :| IsFirstFree(candidate, taken, n) && outs[i] == Suffixed(candidate, n);
    }
  }

  /** A tool without a name is offered without one. */
  lemma EmptyNameIsOffered()
    ensures IsApplied([""], [""]) && !Accepted("")
  {
    assert SanitizeName("") == "" && [""][..0] == [];
    assert Names([]) == {};
  }

  /** Two tools with the same compliant name of 128 characters: the second is offered under
      130. */
  lemma SuffixOverflows(a: string)
    requires Compliant(a) && |a| == MAX_NAME_LEN
    ensures IsApplied([a, a], [a, Suffixed(a, 2)]) && |Suffixed(a, 2)| == MAX_NAME_LEN + 2
    ensures Suffixed(a, 2) == a + "_2" && MAX_NAME_LEN == 128
  {
    var outs := [a, Suffixed(a, 2)];
    assert SanitizeName(a) == a;
    assert outs[..0] == [] && outs[..1] == [a] && [a][..0] == [];
    assert Names(outs[..1]) == {a};
    SuffixesDiffer(a, 2, 2);
    assert IsFirstFree(a, {a}, 2);
  }

  /** A second pass keeps this name: it is short enough, or was cut at exactly 128
      before its suffix went on. */
  predicate Settles(names: seq<string>, outs: seq<string>, i: nat)
    requires |names| == |outs| && i < |outs|
  {
    |outs[i]| <= MAX_NAME_LEN || |SanitizeName(names[i])| == MAX_NAME_LEN
  }

  lemma SettledNameKept(names: seq<string>, outs: seq<string>, i: nat)
    requires IsApplied(names, outs) && i < |outs| && Settles(names, outs, i)
    ensures IsUnique(SanitizeName(outs[i]), Names(outs[..i]), outs[i])
  {
    if |outs[i]| <= MAX_NAME_LEN {
      UniqueIsCompliant(SanitizeName(names[i]), Names(outs[..i]), outs[i]);
    } else {
      var n := LongMeansSuffixed(names, outs, i);
      assert outs[i][..MAX_NAME_LEN] == SanitizeName(names[i]);
    }
  }

  lemma UnsettledNameChanges(names: seq<string>, outs: seq<string>, again: seq<string>, i: nat)
    requires IsApplied(names, outs) && IsApplied(outs, again)
    requires i < |outs| && !Settles(names, outs, i)
    ensures again[i] != outs[i]
  {
    hide Decimal, Names;
    var n := LongMeansSuffixed(names, outs, i);
    var candidate := SanitizeName(names[i]);
    assert outs[i][MAX_NAME_LEN] == Decimal(n)[MAX_NAME_LEN - |candidate| - 1];
    if |again[i]| > MAX_NAME_LEN {
      var m := LongMeansSuffixed(outs, again, i);
      assert again[i][MAX_NAME_LEN] == '_';
    }
  }

  lemma SettledStep(names: seq<string>, outs: seq<string>, again: seq<string>, i: nat)
    requires IsApplied(names, outs) && IsApplied(outs, again)
    requires i < |outs| && Settles(names, outs, i) && again[..i] == outs[..i]
    ensures again[i] == outs[i]
  {
    SettledNameKept(names, outs, i);
    UniqueIsUnique(SanitizeName(outs[i]), Names(outs[..i]), outs[i], again[i]);
  }

  lemma FirstDifference(a: seq<string>, b: seq<string>) returns (i: nat)
    requires |a| == |b| && a != b
    ensures i < |a| && a[i] != b[i] && a[..i] == b[..i]
  {
    i := 0;
    while a[i] == b[i]
      invariant i < |a| && a[..i] == b[..i]
      decreases |a| - i
    {
      assert a[..i + 1] == b[..i + 1];
      assert a[..|a|] == a && b[..|b|] == b;
      i := i + 1;
    }
  }

  /** Applying the pass to its own output changes nothing exactly when every name
      settles; a name that overflowed from a shorter candidate is cut differently. */
  lemma IdempotentIff(names: seq<string>, outs: seq<string>, again: seq<string>)
    requires IsApplied(names, outs) && IsApplied(outs, again)
    ensures again == outs <==> forall i | 0 <= i < |outs| :: Settles(names, outs, i)
  {
    if forall i | 0 <= i < |outs| :: Settles(names, outs, i) {
      if again != outs {
        var i := FirstDifference(again, outs);
        SettledStep(names, outs, again, i);
      }
    } else {
      var i :| 0 <= i < |outs| && !Settles(names, outs, i);
      UnsettledNameChanges(names, outs, again, i);
    }
  }
}
