/** `agents::merge`: YAML entries and database rows resolved into one effective list.
    The experiment and judge crates carry the same merge over their own config type. */
module Merge {
  import opened Outcomes
  import opened Lex

  /** A named config; `body` stands for every other field. */
  datatype Entry = Entry(name: string, body: string)

  /** One `dynamic_agents` row: active with a config, or a tombstone. */
  datatype Row = Row(name: string, config: Option<Entry>, disabled: bool, createdAt: int, updatedAt: int)

  datatype Source = Dynamic | Override | Yaml
  datatype MergedAgent = MergedAgent(config: Entry, source: Source)

  datatype MergeReport = MergeReport(dynamicCount: nat, overrideCount: nat, tombstoneCount: nat, yamlCount: nat) {
    function Sum(): nat { dynamicCount + overrideCount + tombstoneCount + yamlCount }
  }

  datatype AdminSource = AdminDynamic | AdminOverride | Tombstoned | AdminYaml
  datatype AdminAgent = AdminAgent(config: Option<Entry>, name: string, source: AdminSource, yamlBacked: bool)

  // ---------------------------------------------------------------------
  // The rule, one name at a time
  // ---------------------------------------------------------------------

  function NameOfEntry(e: Entry): string { e.name }
  function NameOfRow(r: Row): string { r.name }
  function NameOfMerged(m: MergedAgent): string { m.config.name }
  function NameOfAdmin(a: AdminAgent): string { a.name }

  function EntryNames(entries: seq<Entry>): seq<string> { NamesBy(entries, NameOfEntry) }
  function RowNames(rows: seq<Row>): seq<string> { NamesBy(rows, NameOfRow) }
  function MergedNames(merged: seq<MergedAgent>): seq<string> { NamesBy(merged, NameOfMerged) }
  function AdminNames(view: seq<AdminAgent>): seq<string> { NamesBy(view, NameOfAdmin) }

  /** Row names are a primary key, a row is a tombstone exactly when it has no config, and a
      config carries its row's name. */
  predicate RowsWellFormed(db: seq<Row>) {
    && Distinct(RowNames(db))
    && forall row | row in db ::
         (row.disabled <==> row.config.None?) && (row.config.Some? ==> row.config.value.name == row.name)
  }

  /** What a merge is given: unique YAML names and well-formed rows. */
  predicate WellFormed(yaml: seq<Entry>, db: seq<Row>) {
    Distinct(EntryNames(yaml)) && RowsWellFormed(db)
  }

  /** The last row of that name wins a hash-map collect. */
  function FindRow(db: seq<Row>, name: string): (r: Option<Row>)
    ensures r.None? <==> name !in RowNames(db)
    ensures r.Some? ==> r.value in db && r.value.name == name
  {
    if db == [] then None
    else if db[|db| - 1].name == name then assert RowNames(db)[|db| - 1] == name; Some(db[|db| - 1])
    else
      assert RowNames(db) == RowNames(db[..|db| - 1]) + [db[|db| - 1].name];
      FindRow(db[..|db| - 1], name)
  }

  function FindEntry(yaml: seq<Entry>, name: string): (r: Option<Entry>)
    ensures r.None? <==> name !in EntryNames(yaml)
    ensures r.Some? ==> r.value in yaml && r.value.name == name
  {
    if yaml == [] then None
    else if yaml[|yaml| - 1].name == name then assert EntryNames(yaml)[|yaml| - 1] == name; Some(yaml[|yaml| - 1])
    else
      assert EntryNames(yaml) == EntryNames(yaml[..|yaml| - 1]) + [yaml[|yaml| - 1].name];
      FindEntry(yaml[..|yaml| - 1], name)
  }

  /** Which of the four kinds a known name is. */
  datatype Kind = IsDynamic | IsOverride | IsTombstone | IsYaml

  function KindOf(yaml: seq<Entry>, db: seq<Row>, name: string): Kind {
    match FindRow(db, name)
    case None => IsYaml
    case Some(row) =>
      if row.disabled then IsTombstone
      else if name in EntryNames(yaml) then IsOverride
      else IsDynamic
  }

  /** The map override: a database row wins over YAML, a tombstone hides it. */
  function Effective(yaml: seq<Entry>, db: seq<Row>, name: string): Option<MergedAgent> {
    match FindRow(db, name)
    case None =>
      (match FindEntry(yaml, name)
       case None => None
       case Some(entry) => Some(MergedAgent(entry, Yaml)))
    case Some(row) =>
      if row.disabled || row.config.None? then None
      else Some(MergedAgent(row.config.value, if name in EntryNames(yaml) then Override else Dynamic))
  }

  /** Every name either side knows. */
  function Known(yaml: seq<Entry>, db: seq<Row>): set<string> {
    ToSet(EntryNames(yaml)) + ToSet(RowNames(db))
  }

  /** `merged` is exactly the effective agents among `names`, each once. */
  ghost predicate Resolves(yaml: seq<Entry>, db: seq<Row>, names: set<string>, merged: seq<MergedAgent>) {
    && Distinct(MergedNames(merged))
    && (forall m | m in merged :: m.config.name in names && Effective(yaml, db, m.config.name) == Some(m))
    && (forall n | n in names && Effective(yaml, db, n).Some? :: Effective(yaml, db, n).value in merged)
  }

  function Counting(report: MergeReport, kind: Kind): nat {
    match kind
    case IsDynamic => report.dynamicCount
    case IsOverride => report.overrideCount
    case IsTombstone => report.tombstoneCount
    case IsYaml => report.yamlCount
  }

  function OfKind(yaml: seq<Entry>, db: seq<Row>, names: set<string>, kind: Kind): set<string> {
    set n | n in names && KindOf(yaml, db, n) == kind
  }

  ghost predicate Counts(yaml: seq<Entry>, db: seq<Row>, names: set<string>, report: MergeReport) {
    forall kind: Kind :: Counting(report, kind) == |OfKind(yaml, db, names, kind)|
  }

  function Bump(report: MergeReport, kind: Kind): MergeReport {
    match kind
    case IsDynamic => report.(dynamicCount := report.dynamicCount + 1)
    case IsOverride => report.(overrideCount := report.overrideCount + 1)
    case IsTombstone => report.(tombstoneCount := report.tombstoneCount + 1)
    case IsYaml => report.(yamlCount := report.yamlCount + 1)
  }

  lemma CountNext(yaml: seq<Entry>, db: seq<Row>, names: set<string>, name: string, kind: Kind)
    requires name !in names
    ensures |OfKind(yaml, db, names + {name}, kind)| ==
            |OfKind(yaml, db, names, kind)| + if KindOf(yaml, db, name) == kind then 1 else 0
  {
    hide KindOf;
    var before := OfKind(yaml, db, names, kind);
    assert OfKind(yaml, db, names + {name}, kind) ==
           if KindOf(yaml, db, name) == kind then before + {name} else before;
  }

  /** One more name goes into exactly one count. */
  lemma CountsNext(yaml: seq<Entry>, db: seq<Row>, names: set<string>, report: MergeReport, name: string)
    requires Counts(yaml, db, names, report) && name !in names
    ensures Counts(yaml, db, names + {name}, Bump(report, KindOf(yaml, db, name)))
  {
    hide KindOf, OfKind;
    forall kind: Kind
      ensures Counting(Bump(report, KindOf(yaml, db, name)), kind) == |OfKind(yaml, db, names + {name}, kind)|
    {
      CountNext(yaml, db, names, name, kind);
      assert Counting(report, kind) == |OfKind(yaml, db, names, kind)|;
    }
  }

  lemma ResolvesNext(yaml: seq<Entry>, db: seq<Row>, names: set<string>, merged: seq<MergedAgent>, name: string)
    requires Resolves(yaml, db, names, merged) && name !in names && WellFormed(yaml, db)
    ensures var e := Effective(yaml, db, name);
            Resolves(yaml, db, names + {name}, if e.Some? then merged + [e.value] else merged)
  {
    var e := Effective(yaml, db, name);
    if e.Some? {
      assert e.value.config.name == name;
      var more := merged + [e.value];
      forall i, j | 0 <= i < j < |more|
        ensures MergedNames(more)[i] != MergedNames(more)[j]
      {
        assert more[i] in merged;
        if j < |merged| {
          assert MergedNames(merged)[i] == more[i].config.name && MergedNames(merged)[j] == more[j].config.name;
        }
      }
    }
  }

  lemma NamesNext(names: seq<string>, i: nat)
    requires i < |names| && Distinct(names)
    ensures ToSet(names[..i + 1]) == ToSet(names[..i]) + {names[i]} && names[i] !in ToSet(names[..i])
  {
    SeenNext(names, i);
    DistinctIff(names);
  }

  lemma UniqueRow(db: seq<Row>, i: nat)
    requires i < |db| && Distinct(RowNames(db))
    ensures FindRow(db, db[i].name) == Some(db[i])
  {
    var names := RowNames(db);
    assert names[i] in names;
    var row := FindRow(db, db[i].name).value;
    SameNameSameRow(db, row, i);
  }

  lemma SameNameSameRow(db: seq<Row>, row: Row, i: nat)
    requires i < |db| && Distinct(RowNames(db)) && row in db && row.name == db[i].name
    ensures row == db[i]
  {
    var j :| 0 <= j < |db| && db[j] == row;
    assert RowNames(db)[j] == RowNames(db)[i];
  }

  lemma UniqueEntry(yaml: seq<Entry>, i: nat)
    requires i < |yaml| && Distinct(EntryNames(yaml))
    ensures FindEntry(yaml, yaml[i].name) == Some(yaml[i])
  {
    assert EntryNames(yaml)[i] in EntryNames(yaml);
    var entry := FindEntry(yaml, yaml[i].name).value;
    var j :| 0 <= j < |yaml| && yaml[j] == entry;
    assert EntryNames(yaml)[j] == EntryNames(yaml)[i];
  }

  // ---------------------------------------------------------------------
  // `merge`
  // ---------------------------------------------------------------------

  method Merge(yaml: seq<Entry>, db: seq<Row>) returns (merged: seq<MergedAgent>, report: MergeReport)
    requires WellFormed(yaml, db)
    ensures Ascending(MergedNames(merged))
    ensures Resolves(yaml, db, Known(yaml, db), merged)
    ensures Counts(yaml, db, Known(yaml, db), report)
    ensures forall m :: m in merged <==> IsMerged(yaml, db, m)
    ensures IsTally(yaml, db, report)
  {
    hide Resolves, Counts;
    merged, report := MergeYaml(yaml, db);
    merged, report := MergeRows(yaml, db, merged, report);
    merged := SortMerged(yaml, db, merged);
    MergedMeans(yaml, db, merged);
    CountsTally(yaml, db, report);
  }

  method SortMerged(yaml: seq<Entry>, db: seq<Row>, unsorted: seq<MergedAgent>) returns (merged: seq<MergedAgent>)
    requires Resolves(yaml, db, Known(yaml, db), unsorted)
    ensures Resolves(yaml, db, Known(yaml, db), merged) && Ascending(MergedNames(merged))
  {
    merged := SortBy(unsorted, NameOfMerged);
    AscendingIsDistinct(MergedNames(merged));
  }

  /** What the list holds: each entry no row names, as YAML, and each live row's config, as
      an override where YAML has that name too. */
  ghost predicate IsMerged(yaml: seq<Entry>, db: seq<Row>, m: MergedAgent) {
    || (m.source.Yaml? && m.config in yaml && forall row | row in db :: row.name != m.config.name)
    || exists row | row in db ::
         && !row.disabled && row.config == Some(m.config)
         && m.source == if exists e | e in yaml :: e.name == row.name then Override else Dynamic
  }

  /** What is counted: entries no row names, rows that hide, live rows over YAML or alone. */
  ghost predicate IsTally(yaml: seq<Entry>, db: seq<Row>, report: MergeReport) {
    var names := ToSet(EntryNames(yaml));
    && report.yamlCount == |names - ToSet(RowNames(db))|
    && report.tombstoneCount == |set row | row in db && row.disabled :: row.name|
    && report.overrideCount == |set row | row in db && !row.disabled && row.name in names :: row.name|
    && report.dynamicCount == |set row | row in db && !row.disabled && row.name !in names :: row.name|
  }

  lemma NamedIff(yaml: seq<Entry>, name: string)
    ensures name in EntryNames(yaml) <==> exists e | e in yaml :: e.name == name
  {
    if name in EntryNames(yaml) {
      assert FindEntry(yaml, name).Some?;
    }
    if e :| e in yaml && e.name == name {
      var i :| 0 <= i < |yaml| && yaml[i] == e;
      assert EntryNames(yaml)[i] == name;
    }
  }

  lemma RowNamedIff(db: seq<Row>, name: string)
    ensures name in RowNames(db) <==> exists row | row in db :: row.name == name
  {
    if name in RowNames(db) {
      assert FindRow(db, name).Some?;
    }
    if row :| row in db && row.name == name {
      var i :| 0 <= i < |db| && db[i] == row;
      assert RowNames(db)[i] == name;
    }
  }

  lemma FoundRow(db: seq<Row>, row: Row)
    requires Distinct(RowNames(db)) && row in db
    ensures FindRow(db, row.name) == Some(row) && row.name in RowNames(db)
  {
    var i :| 0 <= i < |db| && db[i] == row;
    UniqueRow(db, i);
  }

  lemma FoundEntry(yaml: seq<Entry>, e: Entry)
    requires Distinct(EntryNames(yaml)) && e in yaml
    ensures FindEntry(yaml, e.name) == Some(e) && e.name in EntryNames(yaml)
  {
    var i :| 0 <= i < |yaml| && yaml[i] == e;
    UniqueEntry(yaml, i);
  }

  /** An agent is effective under its name exactly when it is one of those. */
  lemma EffectiveIff(yaml: seq<Entry>, db: seq<Row>, m: MergedAgent)
    requires WellFormed(yaml, db)
    ensures Effective(yaml, db, m.config.name) == Some(m) <==> IsMerged(yaml, db, m)
  {
    var name := m.config.name;
    RowNamedIff(db, name);
    NamedIff(yaml, name);
    if Effective(yaml, db, name) == Some(m) && name in RowNames(db) {
      var row := FindRow(db, name).value;
      assert row in db && row.config == Some(m.config);
    }
    if IsMerged(yaml, db, m) && name !in RowNames(db) {
      FoundEntry(yaml, m.config);
    }
    if row :| row in db && !row.disabled && row.config == Some(m.config) {
      FoundRow(db, row);
    }
  }

  lemma MergedMeans(yaml: seq<Entry>, db: seq<Row>, merged: seq<MergedAgent>)
    requires WellFormed(yaml, db) && Resolves(yaml, db, Known(yaml, db), merged)
    ensures forall m :: m in merged <==> IsMerged(yaml, db, m)
  {
    hide IsMerged;
    forall m ensures m in merged <==> IsMerged(yaml, db, m) {
      EffectiveIff(yaml, db, m);
    }
  }

  lemma CountsTally(yaml: seq<Entry>, db: seq<Row>, report: MergeReport)
    requires WellFormed(yaml, db) && Counts(yaml, db, Known(yaml, db), report)
    ensures IsTally(yaml, db, report)
  {
    hide OfKind, Known, WellFormed, ToSet, EntryNames, RowNames;
    assert Counting(report, IsYaml) == report.yamlCount && Counting(report, IsTombstone) == report.tombstoneCount;
    assert Counting(report, IsOverride) == report.overrideCount && Counting(report, IsDynamic) == report.dynamicCount;
    YamlNames(yaml, db);
    TombstoneNames(yaml, db);
    LiveNames(yaml, db);
  }

  lemma YamlNames(yaml: seq<Entry>, db: seq<Row>)
    ensures OfKind(yaml, db, Known(yaml, db), IsYaml) == ToSet(EntryNames(yaml)) - ToSet(RowNames(db))
  {
  }

  /** The row of a name decides its kind. */
  lemma KindOfRow(yaml: seq<Entry>, db: seq<Row>, row: Row)
    requires Distinct(RowNames(db)) && row in db
    ensures row.name in Known(yaml, db)
    ensures KindOf(yaml, db, row.name) ==
            if row.disabled then IsTombstone else if row.name in ToSet(EntryNames(yaml)) then IsOverride else IsDynamic
  {
    FoundRow(db, row);
  }

  /** Names of a kind other than YAML are those of the rows of that kind. */
  lemma KindHasRow(yaml: seq<Entry>, db: seq<Row>, name: string)
    requires !KindOf(yaml, db, name).IsYaml?
    ensures exists row :: row in db && row.name == name
  {
    assert FindRow(db, name).value in db;
  }

  lemma TombstoneNames(yaml: seq<Entry>, db: seq<Row>)
    requires WellFormed(yaml, db)
    ensures OfKind(yaml, db, Known(yaml, db), IsTombstone) == set row | row in db && row.disabled :: row.name
  {
    hide KindOf, Known;
    var all := set row | row in db && row.disabled :: row.name;
    forall n ensures n in OfKind(yaml, db, Known(yaml, db), IsTombstone) <==> n in all {
      RowsByKind(yaml, db, n);
    }
  }

  lemma LiveNames(yaml: seq<Entry>, db: seq<Row>)
    requires WellFormed(yaml, db)
    ensures var names, known := ToSet(EntryNames(yaml)), Known(yaml, db);
            && OfKind(yaml, db, known, IsOverride) ==
               (set row | row in db && !row.disabled && row.name in names :: row.name)
            && OfKind(yaml, db, known, IsDynamic) ==
               (set row | row in db && !row.disabled && row.name !in names :: row.name)
  {
    hide KindOf, Known;
    var names := ToSet(EntryNames(yaml));
    var over := set row | row in db && !row.disabled && row.name in names :: row.name;
    var alone := set row | row in db && !row.disabled && row.name !in names :: row.name;
    forall n
      ensures n in OfKind(yaml, db, Known(yaml, db), IsOverride) <==> n in over
      ensures n in OfKind(yaml, db, Known(yaml, db), IsDynamic) <==> n in alone
    {
      RowsByKind(yaml, db, n);
    }
  }

  lemma RowsByKind(yaml: seq<Entry>, db: seq<Row>, name: string)
    requires WellFormed(yaml, db)
    ensures forall row | row in db && row.name == name ::
              && name in Known(yaml, db)
              && KindOf(yaml, db, name) ==
                 if row.disabled then IsTombstone else if name in ToSet(EntryNames(yaml)) then IsOverride else IsDynamic
    ensures !KindOf(yaml, db, name).IsYaml? ==> exists row :: row in db && row.name == name
  {
    hide KindOf, Known;
    forall row | row in db && row.name == name
      ensures name in Known(yaml, db)
      ensures KindOf(yaml, db, name) ==
              if row.disabled then IsTombstone else if name in ToSet(EntryNames(yaml)) then IsOverride else IsDynamic
    {
      KindOfRow(yaml, db, row);
    }
    if !KindOf(yaml, db, name).IsYaml? {
      KindHasRow(yaml, db, name);
    }
  }

  lemma NothingMerged(yaml: seq<Entry>, db: seq<Row>)
    ensures Resolves(yaml, db, {}, []) && Counts(yaml, db, {}, MergeReport(0, 0, 0, 0))
  {
    forall kind: Kind
      ensures OfKind(yaml, db, {}, kind) == {}
    {
    }
  }

  /** The first loop: every YAML entry, shadowed or not. */
  method MergeYaml(yaml: seq<Entry>, db: seq<Row>) returns (merged: seq<MergedAgent>, report: MergeReport)
    requires WellFormed(yaml, db)
    ensures Resolves(yaml, db, ToSet(EntryNames(yaml)), merged)
    ensures Counts(yaml, db, ToSet(EntryNames(yaml)), report)
  {
    hide Resolves, Counts;
    merged, report := [], MergeReport(0, 0, 0, 0);
    ghost var names, seen: set<string> := EntryNames(yaml), {};
    NothingMerged(yaml, db);
    for i := 0 to |yaml|
      invariant seen == ToSet(names[..i])
      invariant Resolves(yaml, db, seen, merged) && Counts(yaml, db, seen, report)
    {
      var cfg := yaml[i];
      UniqueEntry(yaml, i);
      NamesNext(names, i);
      assert names[i] in names;
      CountsNext(yaml, db, seen, report, cfg.name);
      ResolvesNext(yaml, db, seen, merged, cfg.name);
      seen := seen + {cfg.name};
      match FindRow(db, cfg.name) {
        case None =>
          merged := merged + [MergedAgent(cfg, Yaml)];
          report := report.(yamlCount := report.yamlCount + 1);
        case Some(row) =>
          if row.disabled {
            report := report.(tombstoneCount := report.tombstoneCount + 1);
          } else if row.config.Some? {
            merged := merged + [MergedAgent(row.config.value, Override)];
            report := report.(overrideCount := report.overrideCount + 1);
          }
      }
    }
    assert names[..|yaml|] == names;
  }

  /** What a row adds whose name no YAML entry carries. */
  lemma NewRow(yaml: seq<Entry>, db: seq<Row>, i: nat)
    requires WellFormed(yaml, db) && i < |db| && db[i].name !in EntryNames(yaml)
    ensures var row, name := db[i], db[i].name;
            && KindOf(yaml, db, name) == (if row.disabled then IsTombstone else IsDynamic)
            && Effective(yaml, db, name) ==
               (if row.disabled then None else Some(MergedAgent(row.config.value, Dynamic)))
            && (row.disabled <==> row.config.None?)
  {
    UniqueRow(db, i);
    assert db[i] in db;
  }

  /** The second loop: rows no YAML entry carries. */
  method MergeRows(yaml: seq<Entry>, db: seq<Row>, merged0: seq<MergedAgent>, report0: MergeReport)
    returns (merged: seq<MergedAgent>, report: MergeReport)
    requires WellFormed(yaml, db)
    requires Resolves(yaml, db, ToSet(EntryNames(yaml)), merged0) && Counts(yaml, db, ToSet(EntryNames(yaml)), report0)
    ensures Resolves(yaml, db, Known(yaml, db), merged)
    ensures Counts(yaml, db, Known(yaml, db), report)
  {
    hide Resolves, Counts, Effective, KindOf, FindRow;
    merged, report := merged0, report0;
    var yamlNames := ToSet(EntryNames(yaml));
    ghost var rowNames, seen := RowNames(db), yamlNames;
    for i := 0 to |db|
      invariant seen == yamlNames + ToSet(rowNames[..i])
      invariant Resolves(yaml, db, seen, merged) && Counts(yaml, db, seen, report)
    {
      var row := db[i];
      NamesNext(rowNames, i);
      if row.name in yamlNames {
        assert seen + {row.name} == seen;
      } else {
        NewRow(yaml, db, i);
        CountsNext(yaml, db, seen, report, row.name);
        ResolvesNext(yaml, db, seen, merged, row.name);
        if row.disabled {
          report := report.(tombstoneCount := report.tombstoneCount + 1);
        } else if row.config.Some? {
          merged := merged + [MergedAgent(row.config.value, Dynamic)];
          report := report.(dynamicCount := report.dynamicCount + 1);
        }
      }
      seen := seen + {row.name};
    }
    assert rowNames[..|db|] == rowNames;
  }

  /** The four counts partition the names either side knows. */
  lemma CountsSumToNames(yaml: seq<Entry>, db: seq<Row>, names: set<string>, report: MergeReport)
    requires Counts(yaml, db, names, report)
    ensures report.Sum() == |names|
  {
    var d, o, t, y := OfKind(yaml, db, names, IsDynamic), OfKind(yaml, db, names, IsOverride),
                      OfKind(yaml, db, names, IsTombstone), OfKind(yaml, db, names, IsYaml);
    assert Counting(report, IsDynamic) == |d| && Counting(report, IsOverride) == |o|
        && Counting(report, IsTombstone) == |t| && Counting(report, IsYaml) == |y|;
    KindsPartition(yaml, db, names, d, o, t, y);
    FourParts(d, o, t, y);
  }

  lemma KindsPartition(
      yaml: seq<Entry>, db: seq<Row>, names: set<string>,
      d: set<string>, o: set<string>, t: set<string>, y: set<string>)
    requires d == OfKind(yaml, db, names, IsDynamic) && o == OfKind(yaml, db, names, IsOverride)
    requires t == OfKind(yaml, db, names, IsTombstone) && y == OfKind(yaml, db, names, IsYaml)
    ensures d !! o !! t !! y && names == d + o + t + y
  {
    forall n
      ensures n in names <==> n in d + o + t + y
    {
      var kind := KindOf(yaml, db, n);
      assert kind.IsDynamic? || kind.IsOverride? || kind.IsTombstone? || kind.IsYaml?;
    }
  }

  lemma FourParts(a: set<string>, b: set<string>, c: set<string>, d: set<string>)
    requires a !! b !! c !! d
    ensures |a + b + c + d| == |a| + |b| + |c| + |d|
  {
  }

  /** The effective list is the only one with its members in name order. */
  lemma MergeIsUnique(yaml: seq<Entry>, db: seq<Row>, names: set<string>, a: seq<MergedAgent>, b: seq<MergedAgent>)
    requires Ascending(MergedNames(a)) && Ascending(MergedNames(b))
    requires Resolves(yaml, db, names, a) && Resolves(yaml, db, names, b)
    ensures a == b
  {
    forall s
      ensures s in MergedNames(a) <==> s in MergedNames(b)
    {
      NameMember(yaml, db, names, a, s);
      NameMember(yaml, db, names, b, s);
    }
    AscendingIsUnique(MergedNames(a), MergedNames(b));
    forall i | 0 <= i < |a|
      ensures a[i] == b[i]
    {
      assert MergedNames(a)[i] == MergedNames(b)[i];
      assert a[i] in a && b[i] in b;
    }
  }

  lemma NameMember(yaml: seq<Entry>, db: seq<Row>, names: set<string>, a: seq<MergedAgent>, s: string)
    requires Resolves(yaml, db, names, a)
    ensures s in MergedNames(a) <==>
            s in names && Effective(yaml, db, s).Some? && Effective(yaml, db, s).value.config.name == s
  {
    if s in MergedNames(a) {
      var i :| 0 <= i < |a| && MergedNames(a)[i] == s;
      assert a[i] in a;
    } else if s in names && Effective(yaml, db, s).Some? {
      var m := Effective(yaml, db, s).value;
      var i :| 0 <= i < |a| && a[i] == m;
      assert MergedNames(a)[i] == m.config.name;
    }
  }

  // ---------------------------------------------------------------------
  // `admin_view`
  // ---------------------------------------------------------------------

  /** The wider view of one known name: tombstones show, without a config. */
  function AdminOf(yaml: seq<Entry>, db: seq<Row>, name: string): AdminAgent
    requires name in Known(yaml, db)
  {
    var backed := name in EntryNames(yaml);
    match FindRow(db, name)
    case None => AdminAgent(FindEntry(yaml, name), name, AdminYaml, true)
    case Some(row) =>
      if row.disabled then AdminAgent(None, name, Tombstoned, backed)
      else AdminAgent(row.config, name, if backed then AdminOverride else AdminDynamic, backed)
  }

  ghost predicate Lists(yaml: seq<Entry>, db: seq<Row>, names: set<string>, view: seq<AdminAgent>)
    requires names <= Known(yaml, db)
  {
    && Distinct(AdminNames(view))
    && (forall a | a in view :: a.name in names && a == AdminOf(yaml, db, a.name))
    && (forall n | n in names :: AdminOf(yaml, db, n) in view)
  }

  lemma ListsNext(yaml: seq<Entry>, db: seq<Row>, names: set<string>, view: seq<AdminAgent>, name: string)
    requires names + {name} <= Known(yaml, db) && name !in names && Lists(yaml, db, names, view)
    ensures Lists(yaml, db, names + {name}, view + [AdminOf(yaml, db, name)])
  {
    var more := view + [AdminOf(yaml, db, name)];
    forall i, j | 0 <= i < j < |more|
      ensures AdminNames(more)[i] != AdminNames(more)[j]
    {
      assert more[i] in view;
      if j < |view| {
        assert AdminNames(view)[i] == more[i].name && AdminNames(view)[j] == more[j].name;
      }
    }
  }

  method AdminView(yaml: seq<Entry>, db: seq<Row>) returns (view: seq<AdminAgent>)
    requires WellFormed(yaml, db)
    ensures Ascending(AdminNames(view)) && Lists(yaml, db, Known(yaml, db), view)
    ensures forall a :: a in view <==> IsListed(yaml, db, a)
  {
    hide Lists;
    view := AdminYamlRows(yaml, db);
    view := AdminDbRows(yaml, db, view);
    view := SortView(yaml, db, view);
    ListsMeans(yaml, db, view);
  }

  method SortView(yaml: seq<Entry>, db: seq<Row>, unsorted: seq<AdminAgent>) returns (view: seq<AdminAgent>)
    requires Lists(yaml, db, Known(yaml, db), unsorted)
    ensures Lists(yaml, db, Known(yaml, db), view) && Ascending(AdminNames(view))
  {
    view := SortBy(unsorted, NameOfAdmin);
    AscendingIsDistinct(AdminNames(view));
  }

  /** What the view holds: each entry no row names, and each row with its own config, a
      tombstone, an override of an entry or alone. */
  ghost predicate IsListed(yaml: seq<Entry>, db: seq<Row>, a: AdminAgent) {
    || (exists e | e in yaml ::
          && a == AdminAgent(Some(e), e.name, AdminYaml, true)
          && forall row | row in db :: row.name != e.name)
    || exists row | row in db ::
         var backed := exists e | e in yaml :: e.name == row.name;
         var source := if row.disabled then Tombstoned else if backed then AdminOverride else AdminDynamic;
         a == AdminAgent(row.config, row.name, source, backed)
  }

  lemma AdminOfIff(yaml: seq<Entry>, db: seq<Row>, a: AdminAgent)
    requires WellFormed(yaml, db)
    ensures a.name in Known(yaml, db) && a == AdminOf(yaml, db, a.name) <==> IsListed(yaml, db, a)
  {
    RowNamedIff(db, a.name);
    NamedIff(yaml, a.name);
    if a.name in RowNames(db) {
      var row := FindRow(db, a.name).value;
      assert row in db && (row.disabled <==> row.config.None?);
      forall other | other in db && other.name == a.name ensures other == row {
        FoundRow(db, other);
      }
    } else if a.name in EntryNames(yaml) {
      var e := FindEntry(yaml, a.name).value;
      assert e in yaml;
      forall other | other in yaml && other.name == a.name ensures other == e {
        FoundEntry(yaml, other);
      }
    }
  }

  lemma ListsMeans(yaml: seq<Entry>, db: seq<Row>, view: seq<AdminAgent>)
    requires WellFormed(yaml, db) && Lists(yaml, db, Known(yaml, db), view)
    ensures forall a :: a in view <==> IsListed(yaml, db, a)
  {
    hide IsListed, AdminOf, Known;
    forall a ensures a in view <==> IsListed(yaml, db, a) {
      AdminOfIff(yaml, db, a);
    }
  }

  /** The second loop: rows no YAML entry carries. */
  method AdminDbRows(yaml: seq<Entry>, db: seq<Row>, view0: seq<AdminAgent>) returns (view: seq<AdminAgent>)
    requires WellFormed(yaml, db) && Lists(yaml, db, ToSet(EntryNames(yaml)), view0)
    ensures Lists(yaml, db, Known(yaml, db), view)
  {
    hide Lists;
    view := view0;
    var yamlNames := ToSet(EntryNames(yaml));
    ghost var rowNames, seen := RowNames(db), yamlNames;
    for i := 0 to |db|
      invariant seen == yamlNames + ToSet(rowNames[..i]) && seen <= Known(yaml, db)
      invariant Lists(yaml, db, seen, view)
    {
      var row := db[i];
      NamesNext(rowNames, i);
      assert rowNames[i] in rowNames;
      if row.name in yamlNames {
        assert seen + {row.name} == seen;
      } else {
        UniqueRow(db, i);
        assert row in db;
        ListsNext(yaml, db, seen, view, row.name);
        if row.disabled {
          view := view + [AdminAgent(None, row.name, Tombstoned, false)];
        } else if row.config.Some? {
          view := view + [AdminAgent(row.config, row.name, AdminDynamic, false)];
        }
      }
      seen := seen + {row.name};
    }
    assert rowNames[..|db|] == rowNames;
  }

  method AdminYamlRows(yaml: seq<Entry>, db: seq<Row>) returns (view: seq<AdminAgent>)
    requires WellFormed(yaml, db)
    ensures Lists(yaml, db, ToSet(EntryNames(yaml)), view)
  {
    view := [];
    ghost var names, seen: set<string> := EntryNames(yaml), {};
    for i := 0 to |yaml|
      invariant seen == ToSet(names[..i]) && seen <= Known(yaml, db)
      invariant Lists(yaml, db, seen, view)
    {
      var cfg := yaml[i];
      UniqueEntry(yaml, i);
      NamesNext(names, i);
      assert names[i] in names;
      ListsNext(yaml, db, seen, view, cfg.name);
      seen := seen + {cfg.name};
      match FindRow(db, cfg.name) {
        case None => view := view + [AdminAgent(Some(cfg), cfg.name, AdminYaml, true)];
        case Some(row) =>
          if row.disabled {
            view := view + [AdminAgent(None, cfg.name, Tombstoned, true)];
          } else {
            view := view + [AdminAgent(row.config, cfg.name, AdminOverride, true)];
          }
      }
    }
    assert names[..|yaml|] == names;
  }

  /** The admin view without its tombstones, as the runtime would read it. */
  function Live(view: seq<AdminAgent>): seq<MergedAgent> {
    if view == [] then [] else LiveOf(view[0]) + Live(view[1..])
  }

  function LiveOf(a: AdminAgent): seq<MergedAgent> {
    if a.source.Tombstoned? || a.config.None? then []
    else
      var source := if a.source.AdminYaml? then Yaml else if a.source.AdminOverride? then Override else Dynamic;
      [MergedAgent(a.config.value, source)]
  }

  lemma LiveOfIsEffective(yaml: seq<Entry>, db: seq<Row>, a: AdminAgent)
    requires WellFormed(yaml, db) && a.name in Known(yaml, db) && a == AdminOf(yaml, db, a.name)
    ensures LiveOf(a) == match Effective(yaml, db, a.name) case Some(m) => [m] case None => []
  {
  }

  lemma {:induction false} LiveMembers(yaml: seq<Entry>, db: seq<Row>, view: seq<AdminAgent>, m: MergedAgent)
    requires WellFormed(yaml, db)
    requires forall a | a in view :: a.name in Known(yaml, db) && a == AdminOf(yaml, db, a.name)
    ensures m in Live(view) <==> exists a :: a in view && Effective(yaml, db, a.name) == Some(m)
  {
    if view != [] {
      var a := view[0];
      assert a in view && forall b | b in view[1..] :: b in view;
      LiveMembers(yaml, db, view[1..], m);
      LiveOfIsEffective(yaml, db, a);
      assert forall b :: b in view <==> b == a || b in view[1..];
    }
  }

  lemma {:induction false} LiveAscends(yaml: seq<Entry>, db: seq<Row>, view: seq<AdminAgent>)
    requires WellFormed(yaml, db) && Ascending(AdminNames(view))
    requires forall a | a in view :: a.name in Known(yaml, db) && a == AdminOf(yaml, db, a.name)
    ensures Ascending(MergedNames(Live(view)))
  {
    hide Effective, AdminOf, FindRow, FindEntry, Known;
    if view != [] {
      var a, rest := view[0], view[1..];
      assert a in view && forall b | b in rest :: b in view;
      assert AdminNames(rest) == AdminNames(view)[1..];
      LiveAscends(yaml, db, rest);
      forall m | m in Live(rest) ensures NameLess(a.name, m.config.name) {
        LiveNameAfter(yaml, db, view, m);
      }
      LiveOfIsEffective(yaml, db, a);
      if Effective(yaml, db, a.name).Some? {
        EffectiveKeepsName(yaml, db, a.name);
        MergedCons(Effective(yaml, db, a.name).value, Live(rest));
      } else {
        assert [] + Live(rest) == Live(rest);
      }
    }
  }

  lemma MergedCons(m: MergedAgent, rest: seq<MergedAgent>)
    requires Ascending(MergedNames(rest)) && forall r | r in rest :: NameLess(m.config.name, r.config.name)
    ensures Ascending(MergedNames([m] + rest))
  {
    var names := MergedNames(rest);
    forall n | n in names ensures NameLess(m.config.name, n) {
      var k :| 0 <= k < |rest| && names[k] == n;
      assert rest[k] in rest;
    }
    ConsAscends(m.config.name, names);
    assert MergedNames([m] + rest) == [m.config.name] + names;
  }

  lemma EffectiveKeepsName(yaml: seq<Entry>, db: seq<Row>, name: string)
    requires WellFormed(yaml, db) && Effective(yaml, db, name).Some?
    ensures Effective(yaml, db, name).value.config.name == name
  {
  }

  lemma HeadBefore(view: seq<AdminAgent>, b: AdminAgent)
    requires view != [] && Ascending(AdminNames(view)) && b in view[1..]
    ensures NameLess(view[0].name, b.name)
  {
    var i :| 0 < i < |view| && view[i] == b;
    assert NameLess(AdminNames(view)[0], AdminNames(view)[i]);
  }

  lemma LiveNameAfter(yaml: seq<Entry>, db: seq<Row>, view: seq<AdminAgent>, m: MergedAgent)
    requires WellFormed(yaml, db) && view != [] && Ascending(AdminNames(view)) && m in Live(view[1..])
    requires forall a | a in view[1..] :: a.name in Known(yaml, db) && a == AdminOf(yaml, db, a.name)
    ensures NameLess(view[0].name, m.config.name)
  {
    LiveMembers(yaml, db, view[1..], m);
    var b :| b in view[1..] && Effective(yaml, db, b.name) == Some(m);
    EffectiveKeepsName(yaml, db, b.name);
    HeadBefore(view, b);
  }

  /** The two views agree: drop the tombstones from the admin list and the effective
      list is what is left, in the same order. */
  lemma AdminViewIsMergePlusTombstones(yaml: seq<Entry>, db: seq<Row>, view: seq<AdminAgent>, merged: seq<MergedAgent>)
    requires WellFormed(yaml, db)
    requires Ascending(AdminNames(view)) && Lists(yaml, db, Known(yaml, db), view)
    requires Ascending(MergedNames(merged)) && Resolves(yaml, db, Known(yaml, db), merged)
    ensures Live(view) == merged
  {
    hide FindRow, FindEntry;
    LiveAscends(yaml, db, view);
    AscendingIsDistinct(MergedNames(Live(view)));
    forall m
      ensures m in Live(view) ==> m.config.name in Known(yaml, db) && Effective(yaml, db, m.config.name) == Some(m)
    {
      LiveMembers(yaml, db, view, m);
    }
    forall n | n in Known(yaml, db) && Effective(yaml, db, n).Some?
      ensures Effective(yaml, db, n).value in Live(view)
    {
      LiveMembers(yaml, db, view, Effective(yaml, db, n).value);
      assert AdminOf(yaml, db, n) in view;
    }
    MergeIsUnique(yaml, db, Known(yaml, db), Live(view), merged);
  }
}
