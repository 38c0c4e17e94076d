/** `Secrets`: the generated key file, printed on first boot and parsed on every later
    one. Whitespace is ASCII. */
module Secrets {
  import opened Outcomes
  import opened Text

  /** The two variable names, in the file and in the environment. */
  datatype Vars = Vars(vault: string, hmac: string)

  const VARS := Vars("COULISSE_VAULT_KEY", "COULISSE_HMAC_KEY")

  /** All the file format needs of a name. */
  predicate IsVar(name: string) {
    name != "" && '=' !in name && name[0] != '#' && !IsSpace(name[0]) && !IsSpace(name[|name| - 1])
  }

  predicate GoodVars(vars: Vars) {
    IsVar(vars.vault) && IsVar(vars.hmac) && vars.vault != vars.hmac
  }

  lemma VarsAreGood()
    ensures GoodVars(VARS)
  {
    assert VARS.vault[9] != VARS.hmac[9];
  }

  datatype Keys = Keys(vault: string, hmac: string)
  datatype SecretsError = Malformed | WriteFailed

  // ---------------------------------------------------------------------
  // Trimming
  // ---------------------------------------------------------------------

  predicate IsQuote(c: char) { c == '"' }

  function DropStart(s: string, drop: char -> bool): string {
    if s != "" && drop(s[0]) then DropStart(s[1..], drop) else s
  }

  function DropEnd(s: string, drop: char -> bool): string {
    if s != "" && drop(s[|s| - 1]) then DropEnd(s[..|s| - 1], drop) else s
  }

  /** `trim_matches`; `trim` is the same for whitespace. */
  function TrimMatches(s: string, drop: char -> bool): string { DropStart(DropEnd(s, drop), drop) }

  function Trim(s: string): string { TrimMatches(s, IsSpace) }

  function Unquote(s: string): string { TrimMatches(s, IsQuote) }

  /** A key that reads back as written: one line, no edge whitespace, no edge quotes. */
  predicate Clean(key: string) {
    && OneLine(key)
    && (key != "" ==>
          && !IsSpace(key[0]) && !IsSpace(key[|key| - 1])
          && key[0] != '"' && key[|key| - 1] != '"')
  }

  lemma {:induction false} DropStartShrinks(s: string, drop: char -> bool)
    ensures |DropStart(s, drop)| <= |s|
    ensures |DropStart(s, drop)| == |s| <==> s == "" || !drop(s[0])
    decreases |s|
  {
    if s != "" && drop(s[0]) {
      DropStartShrinks(s[1..], drop);
    }
  }

  lemma {:induction false} DropEndShrinks(s: string, drop: char -> bool)
    ensures |DropEnd(s, drop)| <= |s|
    ensures |DropEnd(s, drop)| == |s| <==> s == "" || !drop(s[|s| - 1])
    decreases |s|
  {
    if s != "" && drop(s[|s| - 1]) {
      DropEndShrinks(s[..|s| - 1], drop);
    }
  }

  /** Neither edge is dropped. */
  predicate Trimmed(s: string, drop: char -> bool) {
    s == "" || (!drop(s[0]) && !drop(s[|s| - 1]))
  }

  lemma TrimKeepsIff(s: string, drop: char -> bool)
    ensures |TrimMatches(s, drop)| <= |s|
    ensures |TrimMatches(s, drop)| == |s| ==> Trimmed(s, drop)
    ensures Trimmed(s, drop) ==> TrimMatches(s, drop) == s
  {
    DropEndShrinks(s, drop);
    DropStartShrinks(DropEnd(s, drop), drop);
  }

  /** What is cut off at either end is dropped characters only, and no more of them are left
      at the edges. */
  lemma TrimIs(s: string, drop: char -> bool) returns (i: nat, j: nat)
    ensures i <= j <= |s| && TrimMatches(s, drop) == s[i..j] && Trimmed(s[i..j], drop)
    ensures forall k | 0 <= k < |s| && !(i <= k < j) :: drop(s[k])
  {
    hide DropStart, DropEnd;
    j := EndIs(s, drop);
    i := StartIs(s[..j], drop);
    assert s[..j][i..] == s[i..j];
  }

  lemma {:induction false} EndIs(s: string, drop: char -> bool) returns (j: nat)
    ensures j <= |s| && DropEnd(s, drop) == s[..j] && (j == 0 || !drop(s[j - 1]))
    ensures forall k | j <= k < |s| :: drop(s[k])
    decreases |s|
  {
    if s != "" && drop(s[|s| - 1]) {
      j := EndIs(s[..|s| - 1], drop);
      assert s[..|s| - 1][..j] == s[..j];
    } else {
      j := |s|;
    }
  }

  lemma {:induction false} StartIs(s: string, drop: char -> bool) returns (i: nat)
    ensures i <= |s| && DropStart(s, drop) == s[i..] && (i == |s| || !drop(s[i]))
    ensures forall k | 0 <= k < i :: drop(s[k])
    decreases |s|
  {
    if s != "" && drop(s[0]) {
      i := StartIs(s[1..], drop);
      i := i + 1;
    } else {
      i := 0;
    }
  }

  /** Blank is what nothing is left of. */
  lemma BlankIff(s: string)
    ensures IsBlank(s) <==> Trim(s) == ""
  {
    var i, j := TrimIs(s, IsSpace);
    if IsBlank(s) && i < j {
      assert s[i..j][0] == s[i] && s[i] in s;
    }
  }

  /** Trimming and unquoting give a one-line key back exactly when it is clean. */
  lemma CleanIff(key: string)
    requires OneLine(key)
    ensures Unquote(Trim(key)) == key <==> Clean(key)
  {
    TrimKeepsIff(key, IsSpace);
    TrimKeepsIff(Trim(key), IsQuote);
    TrimKeepsIff(key, IsQuote);
    assert Clean(key) <==> Trimmed(key, IsSpace) && Trimmed(key, IsQuote);
  }

  lemma {:induction false} DropEndKeeps(prefix: string, v: string, drop: char -> bool)
    requires prefix != "" && !drop(prefix[|prefix| - 1])
    ensures DropEnd(prefix + v, drop) == prefix + DropEnd(v, drop)
    decreases |v|
  {
    if v == "" {
      assert prefix + v == prefix;
    } else if drop(v[|v| - 1]) {
      assert (prefix + v)[..|prefix + v| - 1] == prefix + v[..|v| - 1];
      DropEndKeeps(prefix, v[..|v| - 1], drop);
    }
  }

  lemma {:induction false} DropEndTwice(s: string, drop: char -> bool)
    ensures DropEnd(DropEnd(s, drop), drop) == DropEnd(s, drop)
    decreases |s|
  {
    if s != "" && drop(s[|s| - 1]) {
      DropEndTwice(s[..|s| - 1], drop);
    }
  }

  lemma {:induction false} DropStartIsOneLine(s: string, drop: char -> bool)
    requires OneLine(s)
    ensures OneLine(DropStart(s, drop))
    decreases |s|
  {
    if s != "" && drop(s[0]) {
      DropStartIsOneLine(s[1..], drop);
    }
  }

  lemma {:induction false} DropEndIsOneLine(s: string, drop: char -> bool)
    requires OneLine(s)
    ensures OneLine(DropEnd(s, drop))
    decreases |s|
  {
    if s != "" && drop(s[|s| - 1]) {
      DropEndIsOneLine(s[..|s| - 1], drop);
    }
  }

  lemma TrimIsOneLine(s: string, drop: char -> bool)
    requires OneLine(s)
    ensures OneLine(TrimMatches(s, drop))
  {
    DropEndIsOneLine(s, drop);
    DropStartIsOneLine(DropEnd(s, drop), drop);
  }

  // ---------------------------------------------------------------------
  // The file
  // ---------------------------------------------------------------------

  /** `lines()`: a final newline opens no line, and a carriage return before a newline
      goes with it. */
  function Lines(s: string): seq<string> {
    var pieces := Split(s);
    var n := if pieces[|pieces| - 1] == "" then |pieces| - 1 else |pieces|;
    seq(n, i requires 0 <= i < n => StripCr(pieces[i]))
  }

  function StripCr(line: string): string {
    if line != "" && line[|line| - 1] == '\r' then line[..|line| - 1] else line
  }

  /** A trimmed `KEY=value` line, or nothing for blanks, comments and lines without
      `=`. */
  function KeyValue(line: string): Option<(string, string)> {
    if line == "" || line[0] == '#' then None
    else
      match Find(line, "=")
      case None => None
      case Some(i) => Some((Trim(line[..i]), Unquote(Trim(line[i + 1..]))))
  }

  function ParseLine(raw: string): Option<(string, string)> {
    KeyValue(Trim(raw))
  }

  function Update(found: Option<string>, entry: Entry, key: string): Option<string> {
    if entry.Some? && entry.value.0 == key then Some(entry.value.1) else found
  }

  type Entry = Option<(string, string)>

  function Entries(lines: seq<string>): (r: seq<Entry>)
    ensures |r| == |lines|
  {
    seq(|lines|, i requires 0 <= i < |lines| => ParseLine(lines[i]))
  }

  /** The last value given for `key`. */
  function LastValue(entries: seq<Entry>, key: string): Option<string> {
    if entries == [] then None
    else Update(LastValue(entries[..|entries| - 1], key), entries[|entries| - 1], key)
  }

  lemma LastValueNext(entries: seq<Entry>, e: Entry, key: string)
    ensures LastValue(entries + [e], key) == Update(LastValue(entries, key), e, key)
  {
    assert (entries + [e])[..|entries|] == entries;
  }

  lemma LastValueUpTo(entries: seq<Entry>, i: nat, key: string)
    requires i < |entries|
    ensures LastValue(entries[..i + 1], key) == Update(LastValue(entries[..i], key), entries[i], key)
  {
    assert entries[..i + 1] == entries[..i] + [entries[i]];
    LastValueNext(entries[..i], entries[i], key);
  }

  /** Line `i` gives `key` the value `v`, and no later line gives it another. */
  ghost predicate LastGiven(contents: string, key: string, v: string, i: nat) {
    var lines := Lines(contents);
    && i < |lines| && ParseLine(lines[i]) == Some((key, v))
    && forall j | i < j < |lines| :: ParseLine(lines[j]).Some? ==> ParseLine(lines[j]).value.0 != key
  }

  predicate NotGiven(contents: string, key: string) {
    forall l | l in Lines(contents) :: ParseLine(l).Some? ==> ParseLine(l).value.0 != key
  }

  /** Where the last value stands, if there is one. */
  lemma {:induction false} LastValueIs(entries: seq<Entry>, key: string) returns (i: int)
    ensures -1 <= i < |entries| && LastValue(entries, key).Some? == (i >= 0)
    ensures i >= 0 ==> entries[i] == Some((key, LastValue(entries, key).value))
    ensures forall j | i < j < |entries| :: entries[j].Some? ==> entries[j].value.0 != key
  {
    if entries == [] {
      i := -1;
    } else {
      var last := |entries| - 1;
      if entries[last].Some? && entries[last].value.0 == key {
        i := last;
      } else {
        i := LastValueIs(entries[..last], key);
        assert forall j | 0 <= j < last :: entries[j] == entries[..last][j];
      }
    }
  }

  lemma ValueGiven(contents: string, key: string)
    ensures var v := LastValue(Entries(Lines(contents)), key);
            if v.None? then NotGiven(contents, key) else exists i: nat :: LastGiven(contents, key, v.value, i)
  {
    var lines, entries := Lines(contents), Entries(Lines(contents));
    var i := LastValueIs(entries, key);
    forall j | i < j < |lines| ensures ParseLine(lines[j]).Some? ==> ParseLine(lines[j]).value.0 != key {
      assert entries[j] == ParseLine(lines[j]);
    }
    if i >= 0 {
      assert LastGiven(contents, key, LastValue(entries, key).value, i);
    }
  }

  /** What a line gives: both sides of its first `=`, trimmed, the value without the quotes
      around it. A comment gives nothing. */
  lemma LineGivesIff(raw: string, key: string, v: string)
    ensures ParseLine(raw) == Some((key, v)) <==> exists left, right :: Sides(Trim(raw), key, v, left, right)
  {
    hide TrimMatches;
    if ParseLine(raw) == Some((key, v)) {
      LineSplits(Trim(raw), key, v);
    }
    forall left, right | Sides(Trim(raw), key, v, left, right) ensures ParseLine(raw) == Some((key, v)) {
      SidesParse(Trim(raw), key, v, left, right);
    }
  }

  predicate Sides(line: string, key: string, v: string, left: string, right: string) {
    && line == left + "=" + right && '=' !in left && line[0] != '#'
    && key == Trim(left) && v == Unquote(Trim(right))
  }

  lemma LineSplits(line: string, key: string, v: string)
    requires KeyValue(line) == Some((key, v))
    ensures exists left, right :: Sides(line, key, v, left, right)
  {
    hide TrimMatches;
    var i := Find(line, "=").value;
    FindSplits(line, "=");
    NoEqualsBefore(line, i);
    assert Sides(line, key, v, line[..i], line[i + 1..]);
  }

  lemma SidesParse(line: string, key: string, v: string, left: string, right: string)
    requires Sides(line, key, v, left, right)
    ensures KeyValue(line) == Some((key, v))
  {
    hide TrimMatches;
    FindFirst(left, right, 0);
    Around(left, right);
    KeyValueAt(line, |left|, left, right);
  }

  lemma NoEqualsBefore(line: string, i: nat)
    requires Find(line, "=") == Some(i)
    ensures '=' !in line[..i]
  {
    FindIsFirst(line, "=");
    forall k | 0 <= k < i ensures line[k] != '=' {
      assert !At(line, k, "=") && line[k..k + 1] == [line[k]];
    }
  }

  function KeysOf(vars: Vars, entries: seq<Entry>): Result<Keys, SecretsError> {
    var vault, hmac := LastValue(entries, vars.vault), LastValue(entries, vars.hmac);
    if vault.Some? && hmac.Some? then Ok(Keys(vault.value, hmac.value)) else Err(Malformed)
  }

  function Parsed(vars: Vars, contents: string): Result<Keys, SecretsError> {
    KeysOf(vars, Entries(Lines(contents)))
  }

  method ParseFile(vars: Vars, contents: string) returns (r: Result<Keys, SecretsError>)
    requires GoodVars(vars)
    ensures r == Parsed(vars, contents)
    ensures r.Ok? ==>
              && (exists i: nat :: LastGiven(contents, vars.vault, r.value.vault, i))
              && (exists i: nat :: LastGiven(contents, vars.hmac, r.value.hmac, i))
    ensures r.Err? ==> r.error == Malformed && (NotGiven(contents, vars.vault) || NotGiven(contents, vars.hmac))
  {
    hide ParseLine, LastGiven, NotGiven, Lines;
    ValueGiven(contents, vars.vault);
    ValueGiven(contents, vars.hmac);
    var vault: Option<string>, hmac: Option<string> := None, None;
    var lines := Lines(contents);
    ghost var entries := Entries(lines);
    for i := 0 to |lines|
      invariant vault == LastValue(entries[..i], vars.vault) && hmac == LastValue(entries[..i], vars.hmac)
    {
      LastValueUpTo(entries, i, vars.vault);
      LastValueUpTo(entries, i, vars.hmac);
      var entry := ParseLine(lines[i]);
      if entry.Some? {
        if entry.value.0 == vars.vault {
          vault := Some(entry.value.1);
        } else if entry.value.0 == vars.hmac {
          hmac := Some(entry.value.1);
        }
      }
    }
    assert entries[..|lines|] == entries;
    return if vault.Some? && hmac.Some? then Ok(Keys(vault.value, hmac.value)) else Err(Malformed);
  }

  /** `write_file`'s body: comment lines, then the two keys. */
  function Body(vars: Vars, header: seq<string>, keys: Keys): string {
    Unlines(BodyLines(vars, header, keys))
  }

  function BodyLines(vars: Vars, header: seq<string>, keys: Keys): seq<string> {
    header + [vars.vault + "=" + keys.vault] + [vars.hmac + "=" + keys.hmac]
  }

  function Unlines(lines: seq<string>): string {
    if lines == [] then "" else lines[0] + "\n" + Unlines(lines[1..])
  }

  predicate IsHeader(header: seq<string>) {
    forall l | l in header :: OneLine(l) && l != "" && l[0] == '#'
  }

  // ---------------------------------------------------------------------
  // The round trip
  // ---------------------------------------------------------------------

  lemma {:induction false} SplitUnlines(lines: seq<string>)
    requires forall l | l in lines :: OneLine(l)
    ensures Split(Unlines(lines)) == lines + [""]
  {
    if lines != [] {
      SplitUnlines(lines[1..]);
      SplitFirst(lines[0], Unlines(lines[1..]));
    }
  }

  lemma StripCrThenTrim(line: string)
    ensures Trim(StripCr(line)) == Trim(line)
  {
  }

  lemma {:induction false} FindFirst(prefix: string, v: string, i: nat)
    requires '=' !in prefix && i <= |prefix|
    ensures FindFrom(prefix + "=" + v, "=", i) == Some(|prefix|)
    decreases |prefix| - i
  {
    var s := prefix + "=" + v;
    assert s[i..i + 1] == [s[i]];
    if i < |prefix| {
      FindFirst(prefix, v, i + 1);
    }
  }

  /** A written key line parses to its variable and the trimmed, unquoted value. */
  lemma KeyLineParses(name: string, v: string)
    requires IsVar(name)
    ensures ParseLine(name + "=" + v) == Some((name, Unquote(Trim(v))))
  {
    var line, end := name + "=" + v, DropEnd(v, IsSpace);
    DropEndKeeps(name + "=", v, IsSpace);
    assert Trim(line) == name + "=" + end by {
      assert (name + "=" + end)[0] == name[0];
    }
    DropEndTwice(v, IsSpace);
    TrimmedLineParses(name, end);
  }

  lemma TrimmedLineParses(name: string, v: string)
    requires IsVar(name)
    ensures KeyValue(name + "=" + v) == Some((name, Unquote(Trim(v))))
  {
    FindFirst(name, v, 0);
    Around(name, v);
    KeyValueAt(name + "=" + v, |name|, name, v);
    TrimName(name);
  }

  lemma Around(name: string, v: string)
    ensures var line := name + "=" + v;
            |line| > |name| && line[..|name|] == name && line[|name| + 1..] == v && (name != "" ==> line[0] == name[0])
  {
  }

  lemma TrimName(name: string)
    requires IsVar(name)
    ensures Trim(name) == name
  {
    TrimKeepsIff(name, IsSpace);
  }

  lemma KeyValueAt(line: string, i: nat, key: string, v: string)
    requires i < |line| && Find(line, "=") == Some(i) && line[0] != '#' && line[..i] == key && line[i + 1..] == v
    ensures KeyValue(line) == Some((Trim(key), Unquote(Trim(v))))
  {
  }

  /** Stripping carriage returns line by line changes no entry. */
  lemma EntriesStripped(lines: seq<string>, stripped: seq<string>)
    requires |stripped| == |lines| && forall i | 0 <= i < |lines| :: stripped[i] == StripCr(lines[i])
    ensures Entries(stripped) == Entries(lines)
  {
    forall i | 0 <= i < |lines| ensures Entries(stripped)[i] == Entries(lines)[i] {
      StripCrThenTrim(lines[i]);
    }
  }

  lemma EntriesOfBody(vars: Vars, header: seq<string>, keys: Keys)
    requires IsHeader(header) && OneLine(keys.vault) && OneLine(keys.hmac)
    requires OneLine(vars.vault) && OneLine(vars.hmac)
    ensures Entries(Lines(Body(vars, header, keys))) == Entries(BodyLines(vars, header, keys))
  {
    var lines := BodyLines(vars, header, keys);
    SplitUnlines(lines);
    EntriesStripped(lines, Lines(Body(vars, header, keys)));
  }

  lemma BodyValues(vars: Vars, header: seq<string>, keys: Keys)
    requires GoodVars(vars) && IsHeader(header) && OneLine(keys.vault) && OneLine(keys.hmac)
    requires OneLine(vars.vault) && OneLine(vars.hmac)
    ensures Parsed(vars, Body(vars, header, keys)) == Ok(Keys(Unquote(Trim(keys.vault)), Unquote(Trim(keys.hmac))))
  {
    hide KeyValue, ParseLine, TrimMatches, Unlines, Split;
    EntriesOfBody(vars, header, keys);
    KeyLineParses(vars.vault, keys.vault);
    KeyLineParses(vars.hmac, keys.hmac);
    var first, second := Some((vars.vault, Unquote(Trim(keys.vault)))), Some((vars.hmac, Unquote(Trim(keys.hmac))));
    assert Entries(BodyLines(vars, header, keys)) == Entries(header) + [first] + [second];
    TwoKeys(vars, Entries(header), first, second);
  }

  lemma TwoKeys(vars: Vars, entries: seq<Entry>, first: Entry, second: Entry)
    requires vars.vault != vars.hmac && first.Some? && second.Some?
    requires first.value.0 == vars.vault && second.value.0 == vars.hmac
    ensures KeysOf(vars, entries + [first] + [second]) == Ok(Keys(first.value.1, second.value.1))
  {
    LastValueNext(entries + [first], second, vars.vault);
    LastValueNext(entries, first, vars.vault);
    LastValueNext(entries + [first], second, vars.hmac);
  }

  /** No parsed value spans lines. */
  lemma {:induction false} ValuesAreOneLine(entries: seq<Entry>, key: string)
    requires forall e | e in entries :: e.Some? ==> OneLine(e.value.1)
    ensures LastValue(entries, key).Some? ==> OneLine(LastValue(entries, key).value)
  {
    if entries != [] {
      ValuesAreOneLine(entries[..|entries| - 1], key);
      assert entries[|entries| - 1] in entries;
    }
  }

  lemma LineValueIsOneLine(raw: string)
    requires OneLine(raw)
    ensures ParseLine(raw).Some? ==> OneLine(ParseLine(raw).value.1)
  {
    var line := Trim(raw);
    TrimIsOneLine(raw, IsSpace);
    if KeyValue(line).Some? {
      var v := line[Find(line, "=").value + 1..];
      TrimIsOneLine(v, IsSpace);
      TrimIsOneLine(Trim(v), IsQuote);
    }
  }

  lemma LineIsOneLine(contents: string, l: string)
    requires l in Lines(contents)
    ensures OneLine(l)
  {
    var lines, pieces := Lines(contents), Split(contents);
    JoinSplit(contents);
    var i :| 0 <= i < |lines| && lines[i] == l;
    assert pieces[i] in pieces;
  }

  lemma ParsedIsOneLine(vars: Vars, contents: string)
    ensures Parsed(vars, contents).Ok? ==>
              OneLine(Parsed(vars, contents).value.vault) && OneLine(Parsed(vars, contents).value.hmac)
  {
    var lines, entries := Lines(contents), Entries(Lines(contents));
    forall e | e in entries ensures e.Some? ==> OneLine(e.value.1) {
      var i :| 0 <= i < |entries| && entries[i] == e;
      LineIsOneLine(contents, lines[i]);
      LineValueIsOneLine(lines[i]);
    }
    ValuesAreOneLine(entries, vars.vault);
    ValuesAreOneLine(entries, vars.hmac);
  }

  /** What is written reads back unchanged exactly when both keys are clean. Padding `=`
      signs are no obstacle. */
  lemma RoundTripIff(vars: Vars, header: seq<string>, keys: Keys)
    requires GoodVars(vars) && OneLine(vars.vault) && OneLine(vars.hmac) && IsHeader(header)
    ensures Parsed(vars, Body(vars, header, keys)) == Ok(keys) <==> Clean(keys.vault) && Clean(keys.hmac)
  {
    if OneLine(keys.vault) && OneLine(keys.hmac) {
      BodyValues(vars, header, keys);
      CleanIff(keys.vault);
      CleanIff(keys.hmac);
    } else {
      ParsedIsOneLine(vars, Body(vars, header, keys));
    }
  }

  // ---------------------------------------------------------------------
  // Generated keys
  // ---------------------------------------------------------------------

  type byte = b: int | 0 <= b < 256

  /** The standard base64 alphabet (section 4 of RFC 4648). */
  function Sextet(d: nat): char
    requires d < 64
  {
    if d < 26 then ('A' as int + d) as char
    else if d < 52 then ('a' as int + (d - 26)) as char
    else if d < 62 then ('0' as int + (d - 52)) as char
    else if d == 62 then '+' else '/'
  }

  /** Three bytes as four digits of six bits. */
  function Sextets(a: byte, b: byte, c: byte): (d: seq<nat>)
    ensures |d| == 4 && d[0] < 64 && d[1] < 64 && d[2] < 64 && d[3] < 64
  {
    [a / 4, a % 4 * 16 + b / 16, b % 16 * 4 + c / 64, c % 64]
  }

  /** Base64 with padding: four characters for every three bytes begun. */
  function Base64(bytes: seq<byte>): string
    decreases |bytes|
  {
    if bytes == [] then ""
    else
      var a := bytes[0];
      var b := if |bytes| > 1 then bytes[1] else 0;
      var c := if |bytes| > 2 then bytes[2] else 0;
      var tail := if |bytes| > 3 then bytes[3..] else [];
      var d := Sextets(a, b, c);
      [Sextet(d[0]), Sextet(d[1]),
       if |bytes| > 1 then Sextet(d[2]) else '=',
       if |bytes| > 2 then Sextet(d[3]) else '='] + Base64(tail)
  }

  predicate IsBase64(c: char) {
    'A' <= c <= 'Z' || 'a' <= c <= 'z' || '0' <= c <= '9' || c == '+' || c == '/' || c == '='
  }

  lemma {:induction false} Base64Alphabet(bytes: seq<byte>)
    ensures forall c | c in Base64(bytes) :: IsBase64(c)
    decreases |bytes|
  {
    if bytes != [] {
      Base64Alphabet(if |bytes| > 3 then bytes[3..] else []);
    }
  }

  /** Base64 text is one line without edge whitespace or quotes. */
  lemma Base64IsClean(bytes: seq<byte>)
    ensures Clean(Base64(bytes))
  {
    var key := Base64(bytes);
    Base64Alphabet(bytes);
    if key != "" {
      assert IsBase64(key[0]) && IsBase64(key[|key| - 1]);
    }
  }

  /** `generate`, from the random bytes of the two keys. */
  function Generate(vault: seq<byte>, hmac: seq<byte>): Keys {
    Keys(Base64(vault), Base64(hmac))
  }

  /** What a character of the alphabet stands for. */
  function Digit(c: char): Option<nat> {
    if 'A' <= c <= 'Z' then Some(c as int - 'A' as int)
    else if 'a' <= c <= 'z' then Some(26 + c as int - 'a' as int)
    else if '0' <= c <= '9' then Some(52 + c as int - '0' as int)
    else if c == '+' then Some(62)
    else if c == '/' then Some(63)
    else None
  }

  // The three bytes of four digits.

  function First(p: nat, q: nat): byte { (p * 4 + q / 16) % 256 }
  function Second(q: nat, r: nat): byte { (q % 16 * 16 + r / 4) % 256 }
  function Third(r: nat, t: nat): byte { (r % 4 * 64 + t) % 256 }

  /** The decoder: groups of four digits, the last padded with one `=` or two, the bits
      nobody reads zero. */
  function Decode(s: string): Option<seq<byte>>
    decreases |s|
  {
    if s == "" then Some([])
    else if |s| < 4 || Digit(s[0]).None? || Digit(s[1]).None? then None
    else
      var p, q := Digit(s[0]).value, Digit(s[1]).value;
      if s[2..] == "==" then (if q % 16 == 0 then Some([First(p, q)]) else None)
      else if Digit(s[2]).None? then None
      else
        var r := Digit(s[2]).value;
        if s[3..] == "=" then (if r % 4 == 0 then Some([First(p, q), Second(q, r)]) else None)
        else if Digit(s[3]).None? || Decode(s[4..]).None? then None
        else Some([First(p, q), Second(q, r), Third(r, Digit(s[3]).value)] + Decode(s[4..]).value)
  }

  lemma DigitReadsSextet(d: nat)
    requires d < 64
    ensures Digit(Sextet(d)) == Some(d) && Sextet(d) != '='
  {
  }

  /** Three bytes cut into four digits, and put together again. */
  lemma GroupDecodes(a: byte, b: byte, c: byte)
    ensures var d := Sextets(a, b, c);
            && First(d[0], d[1]) == a && Second(d[1], d[2]) == b && Third(d[2], d[3]) == c
            && (b == 0 ==> d[1] % 16 == 0) && (c == 0 ==> d[2] % 4 == 0)
  {
    hide First, Second, Third;
    FirstReads(a, b);
    SecondReads(a, b, c);
    ThirdReads(b, c);
  }

  lemma FirstReads(a: byte, b: byte)
    ensures First(a / 4, a % 4 * 16 + b / 16) == a
  {
    assert (a % 4 * 16 + b / 16) / 16 == a % 4;
  }

  lemma SecondReads(a: byte, b: byte, c: byte)
    ensures Second(a % 4 * 16 + b / 16, b % 16 * 4 + c / 64) == b
  {
    assert (a % 4 * 16 + b / 16) % 16 == b / 16;
    assert (b % 16 * 4 + c / 64) / 4 == b % 16;
  }

  lemma ThirdReads(b: byte, c: byte)
    ensures Third(b % 16 * 4 + c / 64, c % 64) == c
  {
    assert (b % 16 * 4 + c / 64) % 4 == c / 64;
  }

  lemma DecodeOne(s: string, p: nat, q: nat)
    requires |s| == 4 && Digit(s[0]) == Some(p) && Digit(s[1]) == Some(q) && s[2] == '=' && s[3] == '='
    requires q % 16 == 0
    ensures Decode(s) == Some([First(p, q)])
  {
    hide Digit, First;
    assert s[2..] == "==";
  }

  lemma DecodeTwo(s: string, p: nat, q: nat, r: nat)
    requires |s| == 4 && Digit(s[0]) == Some(p) && Digit(s[1]) == Some(q) && Digit(s[2]) == Some(r) && s[3] == '='
    requires s[2] != '=' && r % 4 == 0
    ensures Decode(s) == Some([First(p, q), Second(q, r)])
  {
    hide Digit, First, Second;
    assert s[2..][0] != '=' && s[3..] == "=";
  }

  lemma DecodeThree(s: string, p: nat, q: nat, r: nat, t: nat)
    requires |s| >= 4 && Digit(s[0]) == Some(p) && Digit(s[1]) == Some(q) && Digit(s[2]) == Some(r)
    requires Digit(s[3]) == Some(t) && s[2] != '=' && s[3] != '=' && Decode(s[4..]).Some?
    ensures Decode(s) == Some([First(p, q), Second(q, r), Third(r, t)] + Decode(s[4..]).value)
  {
    hide Digit, First, Second, Third;
    assert s[2..][0] != '=' && s[3..][0] != '=';
  }

  lemma GroupReads(bytes: seq<byte>, tail: seq<byte>)
    requires bytes != [] && tail == (if |bytes| > 3 then bytes[3..] else []) && Decode(Base64(tail)) == Some(tail)
    ensures Decode(Base64(bytes)) == Some(bytes)
  {
    hide Sextet, Sextets, Digit, First, Second, Third, Decode;
    var a := bytes[0];
    var b := if |bytes| > 1 then bytes[1] else 0;
    var c := if |bytes| > 2 then bytes[2] else 0;
    var d := Sextets(a, b, c);
    GroupDecodes(a, b, c);
    DigitReadsSextet(d[0]);
    DigitReadsSextet(d[1]);
    DigitReadsSextet(d[2]);
    DigitReadsSextet(d[3]);
    var s := Base64(bytes);
    assert s[4..] == Base64(tail);
    if |bytes| == 1 {
      DecodeOne(s, d[0], d[1]);
      assert bytes == [a];
    } else if |bytes| == 2 {
      DecodeTwo(s, d[0], d[1], d[2]);
      assert bytes == [a, b];
    } else {
      DecodeThree(s, d[0], d[1], d[2], d[3]);
      assert bytes == [a, b, c] + tail;
    }
  }

  /** Nothing is lost in the encoding. */
  lemma {:induction false} DecodesBack(bytes: seq<byte>)
    ensures Decode(Base64(bytes)) == Some(bytes)
    decreases |bytes|
  {
    if bytes != [] {
      var tail := if |bytes| > 3 then bytes[3..] else [];
      DecodesBack(tail);
      GroupReads(bytes, tail);
    }
  }

  /** The keys are the encodings of their own random bytes. */
  lemma GeneratedKeysDecode(vault: seq<byte>, hmac: seq<byte>)
    ensures Decode(Generate(vault, hmac).vault) == Some(vault)
    ensures Decode(Generate(vault, hmac).hmac) == Some(hmac)
  {
    DecodesBack(vault);
    DecodesBack(hmac);
  }

  /** Generated keys read back from the file as they were written. */
  lemma GeneratedKeysReadBack(header: seq<string>, vault: seq<byte>, hmac: seq<byte>)
    requires IsHeader(header)
    ensures Parsed(VARS, Body(VARS, header, Generate(vault, hmac))) == Ok(Generate(vault, hmac))
  {
    VarsAreGood();
    Base64IsClean(vault);
    Base64IsClean(hmac);
    RoundTripIff(VARS, header, Generate(vault, hmac));
  }

  // ---------------------------------------------------------------------
  // A write that fails half way
  // ---------------------------------------------------------------------

  lemma {:induction false} NotInDropEnd(s: string, drop: char -> bool, c: char)
    requires c !in s
    ensures c !in DropEnd(s, drop)
    decreases |s|
  {
    if s != "" && drop(s[|s| - 1]) {
      NotInDropEnd(s[..|s| - 1], drop, c);
    }
  }

  lemma {:induction false} NotInDropStart(s: string, drop: char -> bool, c: char)
    requires c !in s
    ensures c !in DropStart(s, drop)
    decreases |s|
  {
    if s != "" && drop(s[0]) {
      NotInDropStart(s[1..], drop, c);
    }
  }

  /** A line without `=` says nothing. */
  lemma NoEqualsNoEntry(line: string)
    requires '=' !in line
    ensures ParseLine(line) == None
  {
    var trimmed := Trim(line);
    NotInDropEnd(line, IsSpace, '=');
    NotInDropStart(DropEnd(line, IsSpace), IsSpace, '=');
    forall i | 0 <= i <= |trimmed|
      ensures !At(trimmed, i, "=")
    {
      assert i < |trimmed| ==> trimmed[i..i + 1] == [trimmed[i]];
    }
    FindIsFirst(trimmed, "=");
  }

  /** Neither does a comment, whole or cut. */
  lemma CommentNoEntry(line: string)
    requires line != "" ==> line[0] == '#'
    ensures ParseLine(line) == None
  {
    if line != "" {
      DropEndKeeps(line[..1], line[1..], IsSpace);
      assert line[..1] + line[1..] == line;
    }
  }

  /** A key line, whole or cut: nothing up to its `=`, and then what is there of the value. */
  lemma CutKeyLine(name: string, v: string, n: nat)
    requires IsVar(name) && n <= |name| + 1 + |v|
    ensures ParseLine((name + "=" + v)[..n]) ==
            if n <= |name| then None else Some((name, Unquote(Trim(v[..n - |name| - 1]))))
  {
    var line := name + "=" + v;
    if n <= |name| {
      assert line[..n] == name[..n];
      NoEqualsNoEntry(line[..n]);
    } else {
      assert line[..n] == name + "=" + v[..n - |name| - 1];
      KeyLineParses(name, v[..n - |name| - 1]);
    }
  }

  lemma {:induction false} SplitUnlinesThen(lines: seq<string>, p: string)
    requires (forall l | l in lines :: OneLine(l)) && OneLine(p)
    ensures Split(Unlines(lines) + p) == lines + [p]
  {
    if lines == [] {
      SplitLine(p);
      assert Unlines(lines) + p == p;
    } else {
      SplitUnlinesThen(lines[1..], p);
      SplitFirst(lines[0], Unlines(lines[1..]) + p);
      assert Unlines(lines) + p == lines[0] + "\n" + (Unlines(lines[1..]) + p);
    }
  }

  lemma {:induction false} UnlinesAppend(a: seq<string>, b: seq<string>)
    ensures Unlines(a + b) == Unlines(a) + Unlines(b)
  {
    if a == [] {
      assert a + b == b;
    } else {
      UnlinesAppend(a[1..], b);
      assert (a + b)[1..] == a[1..] + b;
    }
  }

  /** Where a cut falls: after `i` whole lines and `n` characters of the next. */
  lemma {:induction false} CutLine(lines: seq<string>, k: nat) returns (i: nat, n: nat)
    requires k < |Unlines(lines)|
    ensures i < |lines| && n <= |lines[i]| && k == |Unlines(lines[..i])| + n
    ensures Unlines(lines)[..k] == Unlines(lines[..i]) + lines[i][..n]
  {
    var first := lines[0];
    if k <= |first| {
      i, n := 0, k;
      assert Unlines(lines)[..k] == first[..k];
    } else {
      var rest, j := lines[1..], k - |first| - 1;
      i, n := CutLine(rest, j);
      assert lines[..i + 1] == [first] + rest[..i];
      assert Unlines(lines) == first + "\n" + Unlines(rest);
      assert Unlines(lines)[..k] == first + "\n" + Unlines(rest)[..j];
      i := i + 1;
    }
  }

  /** What a file that ends in the middle of a line gives. */
  lemma EntriesOfCut(lines: seq<string>, p: string, key: string)
    requires (forall l | l in lines :: OneLine(l)) && OneLine(p)
    ensures LastValue(Entries(Lines(Unlines(lines) + p)), key) == LastValue(Entries(lines) + [ParseLine(p)], key)
  {
    hide Unlines, Split, ParseLine, LastValue;
    var contents := Unlines(lines) + p;
    SplitUnlinesThen(lines, p);
    LastValueNext(Entries(lines), ParseLine(p), key);
    if p == "" {
      EntriesStripped(lines, Lines(contents));
      CommentNoEntry("");
    } else {
      EntriesStripped(lines + [p], Lines(contents));
      assert Entries(lines + [p]) == Entries(lines) + [ParseLine(p)];
    }
  }

  lemma {:induction false} NoValue(entries: seq<Entry>, key: string)
    requires forall e | e in entries :: e.Some? ==> e.value.0 != key
    ensures LastValue(entries, key) == None
  {
    if entries != [] {
      NoValue(entries[..|entries| - 1], key);
      assert entries[|entries| - 1] in entries;
    }
  }

  lemma HeaderSaysNothing(header: seq<string>)
    requires IsHeader(header)
    ensures forall e | e in Entries(header) :: e == None
  {
    forall i | 0 <= i < |header| ensures Entries(header)[i] == None {
      CommentNoEntry(header[i]);
    }
  }

  /** What the file reads as when it was cut within line `i` of the body, after `n` of its
      characters. */
  function CutValue(vars: Vars, header: seq<string>, keys: Keys, i: nat, n: nat): Result<Keys, SecretsError> {
    if i == |header| + 1 && n > |vars.hmac| && n - |vars.hmac| - 1 <= |keys.hmac|
    then Ok(Keys(Unquote(Trim(keys.vault)), Unquote(Trim(keys.hmac[..n - |vars.hmac| - 1]))))
    else Err(Malformed)
  }

  lemma CutBeforeHmac(vars: Vars, header: seq<string>, keys: Keys, i: nat, n: nat)
    requires GoodVars(vars) && IsHeader(header)
    requires i <= |header| && n <= |BodyLines(vars, header, keys)[i]|
    ensures var lines := BodyLines(vars, header, keys);
            LastValue(Entries(lines[..i]) + [ParseLine(lines[i][..n])], vars.hmac) == None
  {
    var lines := BodyLines(vars, header, keys);
    var entry := ParseLine(lines[i][..n]);
    HeaderSaysNothing(header[..i]);
    assert lines[..i] == header[..i];
    if i < |header| {
      assert lines[i] == header[i] && header[i] in header;
      CommentNoEntry(header[i][..n]);
    } else {
      CutKeyLine(vars.vault, keys.vault, n);
    }
    NoValue(Entries(lines[..i]) + [entry], vars.hmac);
  }

  lemma CutWithinHmac(vars: Vars, header: seq<string>, keys: Keys, n: nat)
    requires GoodVars(vars) && IsHeader(header) && n <= |vars.hmac| + 1 + |keys.hmac|
    ensures var lines, i := BodyLines(vars, header, keys), |header| + 1;
            KeysOf(vars, Entries(lines[..i]) + [ParseLine(lines[i][..n])]) == CutValue(vars, header, keys, i, n)
  {
    var lines, i := BodyLines(vars, header, keys), |header| + 1;
    var last := ParseLine(lines[i][..n]);
    KeyLineParses(vars.vault, keys.vault);
    CutKeyLine(vars.hmac, keys.hmac, n);
    var first := Some((vars.vault, Unquote(Trim(keys.vault))));
    assert Entries(lines[..i]) == Entries(header) + [first];
    if last.Some? {
      TwoKeys(vars, Entries(header), first, last);
    } else {
      HeaderSaysNothing(header);
      NoValue(Entries(header) + [first] + [last], vars.hmac);
    }
  }

  lemma BodyIsOneLine(vars: Vars, header: seq<string>, keys: Keys, i: nat, n: nat)
    requires IsHeader(header) && OneLine(keys.vault) && OneLine(keys.hmac)
    requires OneLine(vars.vault) && OneLine(vars.hmac)
    requires i < |header| + 2 && n <= |BodyLines(vars, header, keys)[i]|
    ensures (forall l | l in BodyLines(vars, header, keys)[..i] :: OneLine(l))
    ensures OneLine(BodyLines(vars, header, keys)[i][..n])
  {
    var lines := BodyLines(vars, header, keys);
    assert forall l | l in lines :: OneLine(l);
    assert forall l | l in lines[..i] :: l in lines;
    assert lines[i] in lines && forall c | c in lines[i][..n] :: c in lines[i];
  }

  /** Where the second key's value starts. */
  function HmacStart(vars: Vars, header: seq<string>, keys: Keys): int {
    |Body(vars, header, keys)| - 1 - |keys.hmac|
  }

  lemma CutPosition(vars: Vars, header: seq<string>, keys: Keys, i: nat, n: nat)
    requires i < |header| + 2 && n <= |BodyLines(vars, header, keys)[i]|
    ensures var start, k := HmacStart(vars, header, keys), |Unlines(BodyLines(vars, header, keys)[..i])| + n;
            if i <= |header| then k < start else k - start == n - |vars.hmac| - 1
  {
    var lines := BodyLines(vars, header, keys);
    var front, second := lines[..|header| + 1], lines[|header| + 1];
    assert lines == front + [second];
    UnlinesAppend(front, [second]);
    assert Unlines([second]) == second + "\n";
    if i <= |header| {
      var rest := lines[i..|header| + 1];
      assert front == lines[..i] + rest;
      UnlinesAppend(lines[..i], rest);
      assert rest[0] == lines[i];
    }
  }

  /** Every proper cut of the written file: up to the `=` of the second key it is malformed,
      and from there on it reads as the first key with however much of the second there is. */
  lemma CutReads(vars: Vars, header: seq<string>, keys: Keys, k: nat)
    requires GoodVars(vars) && OneLine(vars.vault) && OneLine(vars.hmac) && IsHeader(header)
    requires OneLine(keys.vault) && OneLine(keys.hmac) && k < |Body(vars, header, keys)|
    ensures var start := HmacStart(vars, header, keys);
            Parsed(vars, Body(vars, header, keys)[..k]) ==
            if k < start then Err(Malformed)
            else Ok(Keys(Unquote(Trim(keys.vault)), Unquote(Trim(keys.hmac[..k - start]))))
  {
    var lines := BodyLines(vars, header, keys);
    var i, n := CutLine(lines, k);
    BodyIsOneLine(vars, header, keys, i, n);
    EntriesOfCut(lines[..i], lines[i][..n], vars.vault);
    EntriesOfCut(lines[..i], lines[i][..n], vars.hmac);
    CutPosition(vars, header, keys, i, n);
    if i <= |header| {
      CutBeforeHmac(vars, header, keys, i, n);
    } else {
      CutWithinHmac(vars, header, keys, n);
    }
  }

  /** A cut file of generated keys is malformed, or gives the first key and a prefix of the
      second. */
  lemma CutOfGenerated(header: seq<string>, vault: seq<byte>, hmac: seq<byte>, k: nat)
    requires IsHeader(header) && k < |Body(VARS, header, Generate(vault, hmac))|
    ensures var keys, start := Generate(vault, hmac), HmacStart(VARS, header, Generate(vault, hmac));
            Parsed(VARS, Body(VARS, header, keys)[..k]) ==
            if k < start then Err(Malformed) else Ok(Keys(keys.vault, keys.hmac[..k - start]))
  {
    hide Parsed, Trimmed, DropEnd, DropStart, Body, Base64, IsHeader;
    var keys, start := Generate(vault, hmac), HmacStart(VARS, header, Generate(vault, hmac));
    VarsAreGood();
    Base64IsClean(vault);
    Base64IsClean(hmac);
    CutReads(VARS, header, keys, k);
    CleanIff(keys.vault);
    if k >= start {
      Base64PrefixIsClean(hmac, k - start);
      CleanIff(keys.hmac[..k - start]);
    }
  }

  lemma Base64PrefixIsClean(bytes: seq<byte>, n: nat)
    requires n <= |Base64(bytes)|
    ensures Clean(Base64(bytes)[..n])
  {
    var key := Base64(bytes)[..n];
    Base64Alphabet(bytes);
    assert forall c | c in key :: c in Base64(bytes);
    if key != "" {
      assert IsBase64(key[0]) && IsBase64(key[|key| - 1]);
    }
  }

  /** How writing the file ends: done, no file created, or cut short after `length`
      characters — the file stays. */
  datatype WriteOutcome = Written | NotCreated | CutShort(length: nat)

  /** `resolve`: a full environment wins, then the file, then keys generated from `vault` and
      `hmac`, written out so that the next boot reads the same ones. `file` is the secrets
      file's contents, if it exists. */
  method Resolve(
      env: Option<string>, envHmac: Option<string>, file: Option<string>,
      vault: seq<byte>, hmac: seq<byte>, header: seq<string>, outcome: WriteOutcome)
    returns (r: Result<Keys, SecretsError>, written: Option<string>)
    requires IsHeader(header)
    requires outcome.CutShort? ==> outcome.length < |Body(VARS, header, Generate(vault, hmac))|
    ensures env.Some? && envHmac.Some? ==> r == Ok(Keys(env.value, envHmac.value)) && written == file
    ensures (env.None? || envHmac.None?) && file.Some? ==> r == Parsed(VARS, file.value) && written == file
    ensures (env.None? || envHmac.None?) && file.None? ==>
              var keys := Generate(vault, hmac);
              match outcome
              case Written => r == Ok(keys) && written.Some? && Parsed(VARS, written.value) == r
              case NotCreated => r == Err(WriteFailed) && written == None
              case CutShort(k) =>
                && r == Err(WriteFailed) && written == Some(Body(VARS, header, keys)[..k])
                && (Parsed(VARS, written.value) == Err(Malformed) ||
                    (exists h :: h <= keys.hmac && Parsed(VARS, written.value) == Ok(Keys(keys.vault, h))))
  {
    VarsAreGood();
    if env.Some? && envHmac.Some? {
      return Ok(Keys(env.value, envHmac.value)), file;
    }
    if file.Some? {
      r := ParseFile(VARS, file.value);
      return r, file;
    }
    var generated := Generate(vault, hmac);
    match outcome {
      case NotCreated => return Err(WriteFailed), None;
      case CutShort(k) =>
        CutOfGenerated(header, vault, hmac, k);
        return Err(WriteFailed), Some(Body(VARS, header, generated)[..k]);
      case Written =>
        GeneratedKeysReadBack(header, vault, hmac);
        return Ok(generated), Some(Body(VARS, header, generated));
    }
  }
}
