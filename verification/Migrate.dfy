/** `core::migrate`: the schema migration runner shared by every feature. */
module Migrate {
  import opened Outcomes
  import opened SemVer

  /** A feature's committed part of the database. */
  type Slice = string

  /** One release's `SchemaMigrator`. `parse` is the SemVer parser, and `upgrade` the
      step from a version, `None` when the release has no such step or it fails. */
  datatype Migrator = Migrator(
    name: string, schema: Slice, versions: seq<string>,
    parse: string -> Option<Version>, upgrade: (string, Slice) -> Option<Slice>)

  datatype MigrateError =
    | EmptyVersions
    | InvalidVersion(version: string)
    | UnsortedVersions
    | UnknownStoredVersion(stored: string)
    | Upgrade
    | Sqlx

  /** What happens to one transaction. A failing statement rolls it back; a crash before
      the commit loses it, one right after does not, and both end the boot. */
  datatype Fate = Commits | CommitsThenCrashes | Fails | Crashes {
    predicate Lands() { Commits? || CommitsThenCrashes? }
  }

  /** What happens to the statements that open a run: creating the version table and
      reading the stored version. */
  datatype Opening = Opens | OpeningFails | OpeningCrashes

  datatype Outcome = Done | Failed(error: MigrateError) | Crashed

  /** `coulisse_schema_versions` and each feature's slice. */
  datatype Db = Db(versions: map<string, string>, slices: map<string, Slice>)

  /** What an upgrade step finds of its feature's tables. */
  function SliceOf(db: Db, name: string): Slice {
    if name in db.slices then db.slices[name] else ""
  }

  function Stored(db: Db, name: string, version: string, slice: Slice): Db {
    Db(db.versions[name := version], db.slices[name := slice])
  }

  // ---------------------------------------------------------------------
  // VERSIONS
  // ---------------------------------------------------------------------

  predicate Ascending(versions: seq<string>, parse: string -> Option<Version>) {
    && (forall i | 0 <= i < |versions| :: parse(versions[i]).Some?)
    && (forall i | 0 < i < |versions| :: Less(parse(versions[i - 1]).value, parse(versions[i]).value))
  }

  /** Checking neighbours is enough: every earlier version precedes every later one. */
  lemma {:induction false} AscendingEverywhere(versions: seq<string>, parse: string -> Option<Version>, i: nat, j: nat)
    requires Ascending(versions, parse) && i < j < |versions|
    ensures Less(parse(versions[i]).value, parse(versions[j]).value)
    ensures versions[i] != versions[j]
  {
    var a, b, c := parse(versions[i]).value, parse(versions[j - 1]).value, parse(versions[j]).value;
    if i < j - 1 {
      AscendingEverywhere(versions, parse, i, j - 1);
    }
    VersionLessIsStrictTotal(a, b, c);
  }

  /** `iter().position(..)`: the first index holding `version`. */
  function Position(versions: seq<string>, version: string): (r: Option<nat>)
    ensures r.Some? ==> r.value < |versions| && versions[r.value] == version && version !in versions[..r.value]
    ensures r.None? <==> version !in versions
  {
    if versions == [] then None
    else if versions[0] == version then Some(0)
    else
      match Position(versions[1..], version)
      case None => None
      case Some(i) => assert versions[..i + 1] == [versions[0]] + versions[1..][..i]; Some(i + 1)
  }

  /** `validate`: the target version, or the first thing wrong with the list. */
  method Validate(m: Migrator) returns (r: Result<string, MigrateError>)
    ensures r.Ok? <==> m.versions != [] && Ascending(m.versions, m.parse)
    ensures r.Ok? ==> r.value == m.versions[|m.versions| - 1]
    ensures r.Err? ==> r.error == ListError(m)
    ensures r == Err(EmptyVersions) <==> m.versions == []
    ensures r.Err? && r.error.InvalidVersion? ==>
              exists i :: 0 <= i < |m.versions| && m.versions[i] == r.error.version
                && m.parse(m.versions[i]).None? && forall k | 0 <= k < i :: m.parse(m.versions[k]).Some?
    ensures r == Err(UnsortedVersions) <==>
              && m.versions != [] && (forall i | 0 <= i < |m.versions| :: m.parse(m.versions[i]).Some?)
              && !Ascending(m.versions, m.parse)
    ensures r.Err? ==> r.error.EmptyVersions? || r.error.InvalidVersion? || r.error.UnsortedVersions?
  {
    if m.versions == [] {
      return Err(EmptyVersions);
    }
    var parsed: seq<Version> := [];
    for i := 0 to |m.versions|
      invariant |parsed| == i
      invariant forall k | 0 <= k < i :: m.parse(m.versions[k]) == Some(parsed[k])
      invariant FirstUnparsed(m.versions, m.parse, 0) == FirstUnparsed(m.versions, m.parse, i)
    {
      match m.parse(m.versions[i]) {
        case None => return Err(InvalidVersion(m.versions[i]));
        case Some(v) => parsed := parsed + [v];
      }
    }
    for i := 1 to |parsed|
      invariant forall k | 0 < k < i :: Less(parsed[k - 1], parsed[k])
    {
      if !Less(parsed[i - 1], parsed[i]) {
        return Err(UnsortedVersions);
      }
    }
    return Ok(m.versions[|m.versions| - 1]);
  }

  function FirstUnparsed(versions: seq<string>, parse: string -> Option<Version>, i: nat): Option<string>
    requires i <= |versions|
    decreases |versions| - i
  {
    if i == |versions| then None
    else if parse(versions[i]).None? then Some(versions[i])
    else FirstUnparsed(versions, parse, i + 1)
  }

  function ListError(m: Migrator): MigrateError {
    if m.versions == [] then EmptyVersions
    else
      match FirstUnparsed(m.versions, m.parse, 0)
      case Some(v) => InvalidVersion(v)
      case None => UnsortedVersions
  }

  // ---------------------------------------------------------------------
  // One boot
  // ---------------------------------------------------------------------

  /** The database a boot leaves, how it ended, and the version indices it committed. */
  datatype Boot = Boot(db: Db, outcome: Outcome, commits: seq<nat>)

  /** The upgrade walk from index `i`; `fate(k)` decides transaction `k`. */
  function Walk(m: Migrator, db: Db, i: nat, fate: nat -> Fate, k: nat): Boot
    requires i < |m.versions|
    decreases |m.versions| - i
  {
    if i == |m.versions| - 1 then Boot(db, Done, [])
    else if fate(k).Crashes? then Boot(db, Crashed, [])
    else
      match m.upgrade(m.versions[i], SliceOf(db, m.name))
      case None => Boot(db, Failed(Upgrade), [])
      case Some(slice) =>
        var next := Stored(db, m.name, m.versions[i + 1], slice);
        match fate(k)
        case Crashes => Boot(db, Crashed, [])
        case Fails => Boot(db, Failed(Sqlx), [])
        case CommitsThenCrashes => Boot(next, Crashed, [i + 1])
        case Commits =>
          var rest := Walk(m, next, i + 1, fate, k + 1);
          rest.(commits := [i + 1] + rest.commits)
  }

  /** The whole of `run` on a database. */
  function RunBoot(m: Migrator, db: Db, opening: Opening, fate: nat -> Fate): Boot {
    if m.versions == [] || !Ascending(m.versions, m.parse) then Boot(db, Failed(ListError(m)), [])
    else
      match opening
      case OpeningFails => Boot(db, Failed(Sqlx), [])
      case OpeningCrashes => Boot(db, Crashed, [])
      case Opens =>
        if m.name !in db.versions then InitialBoot(m, db, fate(0))
        else
          match Position(m.versions, db.versions[m.name])
          case None => Boot(db, Failed(UnknownStoredVersion(db.versions[m.name])), [])
          case Some(start) => Walk(m, db, start, fate, 0)
  }

  function InitialBoot(m: Migrator, db: Db, fate: Fate): Boot
    requires m.versions != []
  {
    var last := |m.versions| - 1;
    var initial := Stored(db, m.name, m.versions[last], m.schema);
    match fate
    case Commits => Boot(initial, Done, [last])
    case CommitsThenCrashes => Boot(initial, Crashed, [last])
    case Fails => Boot(db, Failed(Sqlx), [])
    case Crashes => Boot(db, Crashed, [])
  }

  class Database {
    var db: Db
    /** The version indices committed since the database was created. */
    ghost var commits: seq<nat>

    constructor ()
      ensures db == Db(map[], map[]) && commits == []
    {
      db, commits := Db(map[], map[]), [];
    }

    /** `initialize`: schema and version row in one transaction. */
    method Initialize(m: Migrator, target: string, fate: Fate) returns (outcome: Outcome)
      requires m.versions != [] && target == m.versions[|m.versions| - 1]
      modifies this
      ensures db == if fate.Lands() then Stored(old(db), m.name, target, m.schema) else old(db)
      ensures commits == old(commits) + if fate.Lands() then [|m.versions| - 1] else []
      ensures outcome == match fate case Commits => Done case Fails => Failed(Sqlx) case _ => Crashed
    {
      if fate.Lands() {
        db := Stored(db, m.name, target, m.schema);
        commits := commits + [|m.versions| - 1];
      }
      match fate {
        case Commits => return Done;
        case Fails => return Failed(Sqlx);
        case _ => return Crashed;
      }
    }

    /** One upgrade step in its own transaction: it commits, or the boot ends here. */
    method UpgradeStep(m: Migrator, i: nat, fate: nat -> Fate, tx: nat) returns (end: Option<Outcome>)
      requires i < |m.versions| - 1
      modifies this
      ensures var here, next := Walk(m, old(db), i, fate, tx), Walk(m, db, i + 1, fate, tx + 1);
              if end.None? then
                && here == Boot(next.db, next.outcome, [i + 1] + next.commits)
                && commits == old(commits) + [i + 1]
              else
                here.db == db && here.outcome == end.value && commits == old(commits) + here.commits
    {
      if fate(tx).Crashes? {
        return Some(Crashed);
      }
      var slice := m.upgrade(m.versions[i], SliceOf(db, m.name));
      if slice.None? {
        return Some(Failed(Upgrade));
      }
      if fate(tx).Fails? {
        return Some(Failed(Sqlx));
      }
      db := Stored(db, m.name, m.versions[i + 1], slice.value);
      commits := commits + [i + 1];
      return if fate(tx).CommitsThenCrashes? then Some(Crashed) else None;
    }

    /** `run`: initialise a fresh database, or walk an old one forward, one transaction
        per step. */
    method Run(m: Migrator, opening: Opening, fate: nat -> Fate) returns (outcome: Outcome)
      modifies this
      ensures var boot := RunBoot(m, old(db), opening, fate);
              db == boot.db && outcome == boot.outcome && commits == old(commits) + boot.commits
    {
      var target := Validate(m);
      if target.Err? {
        return Failed(target.error);
      }
      match opening {
        case OpeningFails => return Failed(Sqlx);
        case OpeningCrashes => return Crashed;
        case Opens =>
      }
      if m.name !in db.versions {
        outcome := Initialize(m, target.value, fate(0));
        return;
      }
      var start := Position(m.versions, db.versions[m.name]);
      if start.None? {
        return Failed(UnknownStoredVersion(db.versions[m.name]));
      }
      outcome := WalkFrom(m, start.value, fate);
    }

    /** The loop over the remaining versions. */
    method WalkFrom(m: Migrator, start: nat, fate: nat -> Fate) returns (outcome: Outcome)
      requires start < |m.versions|
      modifies this
      ensures var boot := Walk(m, old(db), start, fate, 0);
              db == boot.db && outcome == boot.outcome && commits == old(commits) + boot.commits
    {
      ghost var whole := Walk(m, db, start, fate, 0);
      var tx := 0;
      for i := start to |m.versions| - 1
        invariant tx == i - start
        invariant var rest := Walk(m, db, i, fate, tx);
                  && rest.db == whole.db && rest.outcome == whole.outcome
                  && commits + rest.commits == old(commits) + whole.commits
      {
        ghost var before := commits;
        var end := UpgradeStep(m, i, fate, tx);
        if end.Some? {
          return end.value;
        }
        tx := tx + 1;
        Reassociate(before, i + 1, Walk(m, db, i + 1, fate, tx).commits);
      }
      return Done;
    }
  }

  lemma Reassociate(a: seq<nat>, x: nat, b: seq<nat>)
    ensures a + ([x] + b) == a + [x] + b
  {
  }

  // ---------------------------------------------------------------------
  // Releases over time
  // ---------------------------------------------------------------------

  /** Every version a feature has ever had, with the schema each one means. */
  datatype Lineage = Lineage(name: string, versions: seq<string>, schemas: seq<Slice>, parse: string -> Option<Version>)

  predicate WellFormed(line: Lineage) {
    |line.versions| == |line.schemas| && Ascending(line.versions, line.parse)
  }

  /** A release knows the versions up to its own, its schema is the last one's, and
      each step it has maps one version's schema to the next. */
  ghost predicate Releases(m: Migrator, line: Lineage) {
    && WellFormed(line) && m.name == line.name && m.parse == line.parse
    && 0 < |m.versions| <= |line.versions| && m.versions == line.versions[..|m.versions|]
    && m.schema == line.schemas[|m.versions| - 1]
    && forall i | 0 <= i < |m.versions| - 1 ::
         var next := m.upgrade(m.versions[i], line.schemas[i]);
         next.Some? ==> next == Some(line.schemas[i + 1])
  }

  /** The stored version is `line.versions[i]` and the committed schema is the one it
      names. */
  predicate At(db: Db, line: Lineage, i: nat) {
    && i < |line.versions| == |line.schemas|
    && line.name in db.versions && db.versions[line.name] == line.versions[i]
    && line.name in db.slices && db.slices[line.name] == line.schemas[i]
  }

  predicate Untouched(db: Db, line: Lineage) {
    line.name !in db.versions && line.name !in db.slices
  }

  /** Nothing but this feature's rows differs. */
  predicate SameElsewhere(a: Db, b: Db, name: string) {
    a.versions - {name} == b.versions - {name} && a.slices - {name} == b.slices - {name}
  }

  lemma PrefixAscends(m: Migrator, line: Lineage)
    requires Releases(m, line)
    ensures Ascending(m.versions, m.parse)
  {
    assert forall i | 0 <= i < |m.versions| :: m.versions[i] == line.versions[i];
  }

  /** The stored version occurs once, so `position` finds its own index, and a release
      that predates it does not find it at all. */
  lemma PositionIsIndex(m: Migrator, line: Lineage, db: Db, i: nat)
    requires Releases(m, line) && At(db, line, i)
    ensures Position(m.versions, db.versions[line.name]) == if i < |m.versions| then Some(i) else None
  {
    var found := Position(m.versions, line.versions[i]);
    if i < |m.versions| {
      assert m.versions[i] == line.versions[i];
    }
    if found.Some? && found.value < i {
      AscendingEverywhere(line.versions, line.parse, found.value, i);
    }
  }

  /** Index `j` follows `i` by committing `i+1, i+2, …, j`. */
  function Steps(i: nat, j: nat): seq<nat>
    requires i <= j
  {
    seq(j - i, k requires 0 <= k < j - i => i + 1 + k)
  }

  /** What a step from version `i` commits. */
  lemma StepClimbs(m: Migrator, line: Lineage, db: Db, i: nat)
    requires Releases(m, line) && At(db, line, i) && i < |m.versions| - 1
    requires m.upgrade(m.versions[i], SliceOf(db, m.name)).Some?
    ensures var slice := m.upgrade(m.versions[i], SliceOf(db, m.name)).value;
            var next := Stored(db, m.name, m.versions[i + 1], slice);
            At(next, line, i + 1) && SameElsewhere(next, db, m.name)
  {
    assert m.versions[i] == line.versions[i] && m.versions[i + 1] == line.versions[i + 1];
  }

  lemma SameElsewhereTransitive(a: Db, b: Db, c: Db, name: string)
    requires SameElsewhere(a, b, name) && SameElsewhere(b, c, name)
    ensures SameElsewhere(a, c, name)
  {
  }

  lemma StepsFirst(i: nat, j: nat)
    requires i < j
    ensures Steps(i, i) == [] && Steps(i, i + 1) == [i + 1] && Steps(i, j) == [i + 1] + Steps(i + 1, j)
  {
  }

  lemma {:induction false} WalkClimbs(m: Migrator, line: Lineage, db: Db, i: nat, fate: nat -> Fate, k: nat)
    returns (j: nat)
    requires Releases(m, line) && At(db, line, i) && i < |m.versions|
    ensures var boot := Walk(m, db, i, fate, k);
            && i <= j < |m.versions| && At(boot.db, line, j) && boot.commits == Steps(i, j)
            && (boot.outcome.Done? ==> j == |m.versions| - 1)
            && (j == |m.versions| - 1 && !boot.outcome.Done? ==> i < j && boot.outcome.Crashed?)
            && SameElsewhere(boot.db, db, m.name)
            && !(boot.outcome.Failed? && boot.outcome.error.UnknownStoredVersion?)
    decreases |m.versions| - i
  {
    hide Releases, Steps, Stored, SliceOf;
    StepsFirst(i, i + 1);
    if i == |m.versions| - 1 || m.upgrade(m.versions[i], SliceOf(db, m.name)).None? || !fate(k).Lands() {
      j := i;
    } else {
      hide At, SameElsewhere;
      StepClimbs(m, line, db, i);
      var next := Stored(db, m.name, m.versions[i + 1], m.upgrade(m.versions[i], SliceOf(db, m.name)).value);
      if fate(k).CommitsThenCrashes? {
        j := i + 1;
      } else {
        j := WalkClimbs(m, line, next, i + 1, fate, k + 1);
        StepsFirst(i, j);
        SameElsewhereTransitive(Walk(m, next, i + 1, fate, k + 1).db, next, db, m.name);
      }
    }
  }

  /** One boot of any release on a consistent database, whatever fails or crashes. It ends
      done only at the release's last version, and reaches that without being done only by
      a crash after the last commit or while opening. */
  lemma BootFromVersion(m: Migrator, line: Lineage, db: Db, i: nat, opening: Opening, fate: nat -> Fate)
    returns (j: nat)
    requires Releases(m, line) && At(db, line, i)
    ensures var boot := RunBoot(m, db, opening, fate);
            && i <= j && At(boot.db, line, j) && boot.commits == Steps(i, j) && SameElsewhere(boot.db, db, m.name)
            && (boot.outcome.Done? ==> j == |m.versions| - 1)
            && (j == |m.versions| - 1 && !boot.outcome.Done? ==>
                  if i < j then boot.outcome.Crashed? else !opening.Opens? && boot.db == db)
            && (boot.outcome == Failed(UnknownStoredVersion(line.versions[i])) <==> i >= |m.versions| && opening.Opens?)
            && (i >= |m.versions| ==> boot.db == db)
  {
    PrefixAscends(m, line);
    PositionIsIndex(m, line, db, i);
    if opening.Opens? && i < |m.versions| {
      j := WalkClimbs(m, line, db, i, fate, 0);
    } else {
      j := i;
    }
  }

  /** The release has the step from version `l`. */
  predicate Steppable(m: Migrator, line: Lineage, l: nat)
    requires l < |m.versions| <= |line.schemas|
  {
    m.upgrade(m.versions[l], line.schemas[l]).Some?
  }

  lemma SchemasCover(m: Migrator, line: Lineage)
    requires Releases(m, line)
    ensures |m.versions| <= |line.schemas|
  {
  }

  /** Where a walk ends that began `o` steps later than its first transaction's number: when the
      steps from `i` up to `j` exist and their transactions commit, it gets to `j`; there it is
      done if `j` is the last version, and else ended by that step or its transaction unless
      they go through too. */
  lemma {:induction false} WalkEndsAt(
      m: Migrator, line: Lineage, db: Db, o: int, i: nat, fate: nat -> Fate, k: nat, j: nat)
    requires Releases(m, line) && At(db, line, i) && i <= j < |m.versions| && k == i - o
    requires forall l: nat | i <= l < j :: Steppable(m, line, l) && fate(l - o).Commits?
    ensures var boot := Walk(m, db, i, fate, k);
            if j == |m.versions| - 1
            then boot.outcome == Done && At(boot.db, line, j) && boot.commits == Steps(i, j)
            else
              && (fate(j - o).Crashes? ==> boot.outcome == Crashed)
              && (!fate(j - o).Crashes? && !Steppable(m, line, j) ==> boot.outcome == Failed(Upgrade))
              && (Steppable(m, line, j) && fate(j - o).Fails? ==> boot.outcome == Failed(Sqlx))
              && (Steppable(m, line, j) && fate(j - o).CommitsThenCrashes? ==>
                    boot.outcome == Crashed && At(boot.db, line, j + 1) && boot.commits == Steps(i, j + 1))
              && (!Steppable(m, line, j) || !fate(j - o).Lands() ==>
                    At(boot.db, line, j) && boot.commits == Steps(i, j))
    decreases j - i
  {
    hide Releases, Steps;
    SchemasCover(m, line);
    SliceIsSchema(m, line, db, i);
    StepsFirst(i, i + 1);
    if i < |m.versions| - 1 && Steppable(m, line, i) {
      StepClimbs(m, line, db, i);
      if i < j {
        var next := Stored(db, m.name, m.versions[i + 1], m.upgrade(m.versions[i], line.schemas[i]).value);
        hide At;
        WalkEndsAt(m, line, next, o, i + 1, fate, k + 1, j);
        StepsFirst(i, j);
        StepsFirst(i, j + 1);
      }
    }
  }

  lemma SliceIsSchema(m: Migrator, line: Lineage, db: Db, i: nat)
    requires Releases(m, line) && At(db, line, i)
    ensures SliceOf(db, m.name) == line.schemas[i]
  {
  }

  /** A boot of an old database upgrades it: it is done if and only if it opens, every step
      the release still has to make exists, and every transaction commits. */
  lemma BootIsDoneIff(m: Migrator, line: Lineage, db: Db, i: nat, opening: Opening, fate: nat -> Fate)
    requires Releases(m, line) && At(db, line, i) && i < |m.versions|
    ensures RunBoot(m, db, opening, fate).outcome.Done? <==>
            opening.Opens? && forall l: nat | i <= l < |m.versions| - 1 :: Steppable(m, line, l) && fate(l - i).Commits?
  {
    hide Releases, At, Walk;
    SchemasCover(m, line);
    BootWalks(m, line, db, i, opening, fate);
    if opening.Opens? {
      var j := FirstStop(m, line, i, fate);
      WalkEndsAt(m, line, db, i, i, fate, 0, j);
    }
  }

  lemma BootWalks(m: Migrator, line: Lineage, db: Db, i: nat, opening: Opening, fate: nat -> Fate)
    requires Releases(m, line) && At(db, line, i) && i < |m.versions|
    ensures opening.Opens? ==> RunBoot(m, db, opening, fate) == Walk(m, db, i, fate, 0)
    ensures !opening.Opens? ==> !RunBoot(m, db, opening, fate).outcome.Done?
  {
    hide Walk;
    PrefixAscends(m, line);
    PositionIsIndex(m, line, db, i);
  }

  /** The first version whose step does not exist or does not commit, or the last one. */
  lemma FirstStop(m: Migrator, line: Lineage, i: nat, fate: nat -> Fate) returns (j: nat)
    requires i < |m.versions| <= |line.schemas|
    ensures i <= j < |m.versions|
    ensures forall l: nat | i <= l < j :: Steppable(m, line, l) && fate(l - i).Commits?
    ensures j < |m.versions| - 1 ==> !(Steppable(m, line, j) && fate(j - i).Commits?)
  {
    j := i;
    while j < |m.versions| - 1 && Steppable(m, line, j) && fate(j - i).Commits?
      invariant i <= j < |m.versions|
      invariant forall l: nat | i <= l < j :: Steppable(m, line, l) && fate(l - i).Commits?
    {
      j := j + 1;
    }
  }

  /** Otherwise it ends at the version of the first step that does not go through, or right
      after it when the crash came after the commit. */
  lemma BootEndsAt(m: Migrator, line: Lineage, db: Db, i: nat, fate: nat -> Fate, j: nat)
    requires Releases(m, line) && At(db, line, i) && i <= j < |m.versions| - 1
    requires forall l: nat | i <= l < j :: Steppable(m, line, l) && fate(l - i).Commits?
    requires !Steppable(m, line, j) || !fate(j - i).Commits?
    ensures var boot, goes := RunBoot(m, db, Opens, fate), Steppable(m, line, j);
            var last := if goes && fate(j - i).CommitsThenCrashes? then j + 1 else j;
            && At(boot.db, line, last) && boot.commits == Steps(i, last)
            && boot.outcome == (if fate(j - i).Crashes? then Crashed
                                else if !goes then Failed(Upgrade)
                                else if fate(j - i).Fails? then Failed(Sqlx) else Crashed)
  {
    hide Releases, At, Walk, Steps;
    SchemasCover(m, line);
    BootWalks(m, line, db, i, Opens, fate);
    WalkEndsAt(m, line, db, i, i, fate, 0, j);
  }

  /** A fresh database gets schema and version together exactly when the one transaction
      lands, and otherwise stays as it was. */
  lemma BootFresh(m: Migrator, line: Lineage, db: Db, opening: Opening, fate: nat -> Fate)
    requires Releases(m, line) && Untouched(db, line)
    ensures var boot := RunBoot(m, db, opening, fate);
            && SameElsewhere(boot.db, db, m.name)
            && (if opening.Opens? && fate(0).Lands()
                then At(boot.db, line, |m.versions| - 1) && boot.commits == [|m.versions| - 1]
                else boot.db == db && boot.commits == [])
            && (boot.outcome == Done <==> opening.Opens? && fate(0).Commits?)
            && (boot.outcome == Failed(Sqlx) <==> opening.OpeningFails? || (opening.Opens? && fate(0).Fails?))
            && (boot.outcome == Done || boot.outcome == Failed(Sqlx) || boot.outcome == Crashed)
  {
    PrefixAscends(m, line);
    assert m.versions[|m.versions| - 1] == line.versions[|m.versions| - 1];
  }

  /** What every boot keeps: the feature is untouched, or at some version of the lineage. */
  ghost predicate Consistent(db: Db, line: Lineage) {
    Untouched(db, line) || exists i :: At(db, line, i)
  }

  lemma DoneIsLatest(m: Migrator, line: Lineage, db: Db, opening: Opening, fate: nat -> Fate)
    requires Releases(m, line) && Consistent(db, line) && RunBoot(m, db, opening, fate).outcome.Done?
    ensures At(RunBoot(m, db, opening, fate).db, line, |m.versions| - 1)
  {
    hide Releases, RunBoot;
    if Untouched(db, line) {
      BootFresh(m, line, db, opening, fate);
    } else {
      var i :| At(db, line, i);
      var j := BootFromVersion(m, line, db, i, opening, fate);
    }
  }

  lemma RebootIsQuiet(m: Migrator, line: Lineage, db: Db, opening: Opening, fate: nat -> Fate)
    requires Releases(m, line) && At(db, line, |m.versions| - 1)
    ensures var boot := RunBoot(m, db, opening, fate);
            boot.db == db && boot.commits == [] && (boot.outcome.Done? <==> opening.Opens?)
  {
    PositionIsIndex(m, line, db, |m.versions| - 1);
    PrefixAscends(m, line);
  }

  /** A boot that succeeds leaves the same schema a fresh database would get. Booting that
      release again commits nothing and, unless its opening statements fail, succeeds. */
  lemma DoneIsLatestAndStable(
      m: Migrator, line: Lineage, db: Db, opening: Opening, fate: nat -> Fate, reopening: Opening, again: nat -> Fate)
    requires Releases(m, line) && Consistent(db, line) && RunBoot(m, db, opening, fate).outcome.Done?
    ensures var after := RunBoot(m, db, opening, fate).db;
            && m.name in after.versions && after.versions[m.name] == m.versions[|m.versions| - 1]
            && m.name in after.slices && after.slices[m.name] == m.schema
            && var boot := RunBoot(m, after, reopening, again);
               boot.db == after && boot.commits == [] && (boot.outcome.Done? <==> reopening.Opens?)
  {
    hide RunBoot;
    var after, n := RunBoot(m, db, opening, fate).db, |m.versions| - 1;
    DoneIsLatest(m, line, db, opening, fate);
    assert m.versions[n] == line.versions[n];
    RebootIsQuiet(m, line, after, reopening, again);
  }

  /** Everything a boot does is to its own feature. */
  lemma BootStaysConsistent(line: Lineage, m: Migrator, db: Db, opening: Opening, fate: nat -> Fate)
    requires Releases(m, line) && Consistent(db, line)
    ensures Consistent(RunBoot(m, db, opening, fate).db, line)
    ensures SameElsewhere(RunBoot(m, db, opening, fate).db, db, m.name)
  {
    if Untouched(db, line) {
      BootFresh(m, line, db, opening, fate);
    } else {
      var i :| At(db, line, i);
      var j := BootFromVersion(m, line, db, i, opening, fate);
    }
  }

  /** Crash, fail, resume: whatever happened first, a later boot that succeeds leaves
      the database an undisturbed boot would have left. */
  lemma ResumeMeetsUninterrupted(m: Migrator, line: Lineage, db: Db, first: Attempt, later: Attempt, direct: Attempt)
    requires Releases(m, line) && Consistent(db, line)
    requires first.release == m && later.release == m && direct.release == m
    requires later.On(first.On(db).db).outcome.Done? && direct.On(db).outcome.Done?
    ensures later.On(first.On(db).db).db == direct.On(db).db
  {
    var middle := first.On(db).db;
    BootStaysConsistent(line, m, db, first.opening, first.fate);
    BootStaysConsistent(line, m, middle, later.opening, later.fate);
    BootStaysConsistent(line, m, db, direct.opening, direct.fate);
    DoneIsLatestAndStable(m, line, db, direct.opening, direct.fate, Opens, direct.fate);
    DoneIsLatestAndStable(m, line, middle, later.opening, later.fate, Opens, later.fate);
    EqualByParts(later.On(middle).db, direct.On(db).db, m.name);
  }

  lemma EqualByParts(a: Db, b: Db, name: string)
    requires SameElsewhere(a, b, name)
    requires name in a.versions && name in b.versions && a.versions[name] == b.versions[name]
    requires name in a.slices && name in b.slices && a.slices[name] == b.slices[name]
    ensures a == b
  {
    assert a.versions == (a.versions - {name})[name := a.versions[name]];
    assert b.versions == (b.versions - {name})[name := b.versions[name]];
    assert a.slices == (a.slices - {name})[name := a.slices[name]];
    assert b.slices == (b.slices - {name})[name := b.slices[name]];
  }

  /** One boot of a release, whatever happens in it. */
  datatype Attempt = Attempt(release: Migrator, opening: Opening, fate: nat -> Fate) {
    function On(db: Db): Boot { RunBoot(release, db, opening, fate) }
  }

  datatype History = History(db: Db, commits: seq<nat>)

  /** A sequence of boots, of any releases, in any order. */
  function Boots(attempts: seq<Attempt>, db: Db): History {
    if attempts == [] then History(db, [])
    else
      var boot := attempts[0].On(db);
      var rest := Boots(attempts[1..], boot.db);
      rest.(commits := boot.commits + rest.commits)
  }

  lemma StepsJoin(i: nat, k: nat, j: nat)
    requires i <= k <= j
    ensures Steps(i, k) + Steps(k, j) == Steps(i, j)
  {
  }

  /** From a stored version, all later boots together commit the following versions once
      each, in order, and end at the last one committed. */
  lemma {:induction false} HistoryClimbs(line: Lineage, attempts: seq<Attempt>, db: Db, i: nat) returns (j: nat)
    requires forall a | a in attempts :: Releases(a.release, line)
    requires At(db, line, i)
    ensures var h := Boots(attempts, db);
            i <= j && At(h.db, line, j) && h.commits == Steps(i, j)
    decreases |attempts|
  {
    if attempts == [] {
      j := i;
      assert Steps(i, i) == [];
    } else {
      var a := attempts[0];
      var k := BootFromVersion(a.release, line, db, i, a.opening, a.fate);
      j := HistoryClimbs(line, attempts[1..], a.On(db).db, k);
      StepsJoin(i, k, j);
    }
  }

  /** Crash-resume, over any history that starts from an empty database: either nothing
      was ever committed, or one initialisation was, followed by each later version once
      and in order; the stored version and the schema agree throughout. */
  lemma {:induction false} EveryHistoryIsOrderly(line: Lineage, attempts: seq<Attempt>, db: Db)
    requires forall a | a in attempts :: Releases(a.release, line)
    requires Untouched(db, line)
    ensures var h := Boots(attempts, db);
            || (Untouched(h.db, line) && h.commits == [])
            || exists i: nat, j: nat | i <= j :: At(h.db, line, j) && h.commits == [i] + Steps(i, j)
    decreases |attempts|
  {
    if attempts != [] {
      var a := attempts[0];
      var boot := a.On(db);
      BootFresh(a.release, line, db, a.opening, a.fate);
      var rest := Boots(attempts[1..], boot.db);
      if boot.commits != [] {
        var i := |a.release.versions| - 1;
        var j := HistoryClimbs(line, attempts[1..], boot.db, i);
        assert Boots(attempts, db).commits == [i] + Steps(i, j);
      } else {
        EveryHistoryIsOrderly(line, attempts[1..], boot.db);
        assert [] + rest.commits == rest.commits;
      }
    }
  }
}
