/** `agents::store` and `agents::admin`: the `dynamic_agents` table, the runtime list
    rebuilt from it, and the admin handlers that change both. */
module AgentsAdmin {
  import opened Outcomes
  import opened Lex
  import opened Merge

  type Table = map<string, Row>

  /** Rows are keyed by name, a tombstone is a row with no config, and a config carries
      its row's name. */
  predicate TableOk(table: Table) {
    forall n | n in table ::
      && table[n].name == n && (table[n].disabled <==> table[n].config.None?)
      && (table[n].config.Some? ==> table[n].config.value.name == n)
  }

  /** `db` is the table as `list` returns it. */
  predicate IsListing(table: Table, db: seq<Row>) {
    && Ascending(RowNames(db))
    && (forall row | row in db :: row.name in table && table[row.name] == row)
    && (forall n | n in table :: table[n] in db)
  }

  /** What the runtime serves under `name`. */
  function Serves(yaml: seq<Entry>, table: Table, name: string): Option<Entry> {
    if name in table then table[name].config else FindEntry(yaml, name)
  }

  /** The runtime list is the override of YAML by the table, once each, in name order. */
  ghost predicate InSync(yaml: seq<Entry>, table: Table, runtime: seq<Entry>) {
    && Ascending(EntryNames(runtime))
    && (forall e | e in runtime :: Serves(yaml, table, e.name) == Some(e))
    && (forall n | Serves(yaml, table, n).Some? :: Serves(yaml, table, n).value in runtime)
  }

  lemma ListingIsWellFormed(yaml: seq<Entry>, table: Table, db: seq<Row>)
    requires TableOk(table) && IsListing(table, db) && Distinct(EntryNames(yaml))
    ensures WellFormed(yaml, db)
    ensures forall n :: FindRow(db, n) == if n in table then Some(table[n]) else None
  {
    AscendingIsDistinct(RowNames(db));
    forall n
      ensures FindRow(db, n) == if n in table then Some(table[n]) else None
    {
      assert FindRow(db, n).Some? ==> FindRow(db, n).value in db;
      if n in table {
        var i :| 0 <= i < |db| && db[i] == table[n];
        UniqueRow(db, i);
      }
    }
  }

  /** What a merge resolves is what the runtime serves. */
  lemma EffectiveIsServed(yaml: seq<Entry>, table: Table, db: seq<Row>, n: string)
    requires TableOk(table) && IsListing(table, db) && Distinct(EntryNames(yaml))
    ensures Effective(yaml, db, n).Some? <==> Serves(yaml, table, n).Some?
    ensures Effective(yaml, db, n).Some? ==> Effective(yaml, db, n).value.config == Serves(yaml, table, n).value
    ensures Serves(yaml, table, n).Some? ==> Serves(yaml, table, n).value.name == n && n in Known(yaml, db)
  {
    ListingIsWellFormed(yaml, table, db);
    assert FindRow(db, n) == if n in table then Some(table[n]) else None;
  }

  function Configs(merged: seq<MergedAgent>): (r: seq<Entry>)
    ensures |r| == |merged| && forall i | 0 <= i < |r| :: r[i] == merged[i].config
  {
    seq(|merged|, i requires 0 <= i < |merged| => merged[i].config)
  }

  lemma RebuildSyncs(yaml: seq<Entry>, table: Table, db: seq<Row>, merged: seq<MergedAgent>)
    requires TableOk(table) && IsListing(table, db) && Distinct(EntryNames(yaml))
    requires Ascending(MergedNames(merged)) && Resolves(yaml, db, Known(yaml, db), merged)
    ensures InSync(yaml, table, Configs(merged))
  {
    var runtime := Configs(merged);
    assert EntryNames(runtime) == MergedNames(merged);
    forall e | e in runtime
      ensures Serves(yaml, table, e.name) == Some(e)
    {
      var i :| 0 <= i < |runtime| && runtime[i] == e;
      assert merged[i] in merged;
      EffectiveIsServed(yaml, table, db, e.name);
    }
    forall n | Serves(yaml, table, n).Some?
      ensures Serves(yaml, table, n).value in runtime
    {
      EffectiveIsServed(yaml, table, db, n);
      var m := Effective(yaml, db, n).value;
      var i :| 0 <= i < |merged| && merged[i] == m;
      assert runtime[i] == m.config;
    }
  }

  /** A list in sync holds each row's config and each entry no row names, nothing else. */
  lemma SyncedMembers(yaml: seq<Entry>, table: Table, runtime: seq<Entry>)
    requires InSync(yaml, table, runtime) && TableOk(table) && Distinct(EntryNames(yaml))
    ensures forall e :: e in runtime <==> if e.name in table then table[e.name].config == Some(e) else e in yaml
  {
    forall e
      ensures e in runtime <==> if e.name in table then table[e.name].config == Some(e) else e in yaml
    {
      if e.name !in table && e in yaml {
        FoundEntry(yaml, e);
      }
      assert Serves(yaml, table, e.name) == Some(e) ==> e in runtime;
    }
  }

  datatype AdminResult = Done | NotFound | BadRequest

  /** An upsert keeps the row's creation time. */
  function WithActive(table: Table, config: Entry, now: int): Table {
    table[config.name := Row(config.name, Some(config), false, CreatedAt(table, config.name, now), now)]
  }

  function WithTombstone(table: Table, name: string, now: int): Table {
    table[name := Row(name, None, true, CreatedAt(table, name, now), now)]
  }

  function CreatedAt(table: Table, name: string, now: int): int {
    if name in table then table[name].createdAt else now
  }

  class AgentsAdmin {
    var yaml: seq<Entry>
    var table: Table
    var runtime: seq<Entry>

    ghost predicate Valid()
      reads this
    {
      Distinct(EntryNames(yaml)) && TableOk(table) && InSync(yaml, table, runtime)
    }

    /** Boot: the first rebuild against an existing table. */
    constructor (yaml: seq<Entry>, table: Table)
      requires Distinct(EntryNames(yaml)) && TableOk(table)
      ensures Valid() && this.yaml == yaml && this.table == table
    {
      this.yaml, this.table, runtime := yaml, table, [];
      new;
      Rebuild();
    }

    /** `SELECT … ORDER BY name`. */
    method List() returns (db: seq<Row>)
      requires TableOk(table)
      ensures IsListing(table, db)
    {
      var rows: seq<Row> := [];
      var rest := table.Keys;
      while rest != {}
        invariant rest <= table.Keys && Distinct(RowNames(rows))
        invariant forall row | row in rows :: row.name in table.Keys - rest && table[row.name] == row
        invariant forall n | n in table.Keys - rest :: table[n] in rows
        decreases rest
      {
        var n :| n in rest;
        forall i | 0 <= i < |rows| ensures RowNames(rows)[i] != n {
          assert rows[i] in rows;
        }
        assert RowNames(rows + [table[n]]) == RowNames(rows) + [n];
        rows, rest := rows + [table[n]], rest - {n};
      }
      db := SortBy(rows, NameOfRow);
    }

    /** Read every row, merge, swap the list. */
    method Rebuild()
      requires Distinct(EntryNames(yaml)) && TableOk(table)
      modifies this`runtime
      ensures Valid()
      ensures forall e :: e in runtime <==> if e.name in table then table[e.name].config == Some(e) else e in yaml
    {
      var db := List();
      ListingIsWellFormed(yaml, table, db);
      var merged, report := Merge.Merge(yaml, db);
      RebuildSyncs(yaml, table, db, merged);
      runtime := Configs(merged);
      SyncedMembers(yaml, table, runtime);
    }

    /** Upsert an active row; `created_at` survives an update. */
    method PutActive(config: Entry, now: int)
      requires TableOk(table)
      modifies this`table
      ensures TableOk(table)
      ensures table == WithActive(old(table), config, now)
      ensures table - {config.name} == old(table) - {config.name} && config.name in table
      ensures var created := if config.name in old(table) then old(table)[config.name].createdAt else now;
              table[config.name] == Row(config.name, Some(config), false, created, now)
    {
      var created := if config.name in table then table[config.name].createdAt else now;
      table := table[config.name := Row(config.name, Some(config), false, created, now)];
    }

    method PutTombstone(name: string, now: int)
      requires TableOk(table)
      modifies this`table
      ensures TableOk(table)
      ensures table == WithTombstone(old(table), name, now)
      ensures table - {name} == old(table) - {name} && name in table
      ensures var created := if name in old(table) then old(table)[name].createdAt else now;
              table[name] == Row(name, None, true, created, now)
    {
      var created := if name in table then table[name].createdAt else now;
      table := table[name := Row(name, None, true, created, now)];
    }

    method Delete(name: string) returns (removed: bool)
      requires TableOk(table)
      modifies this`table
      ensures TableOk(table) && table == old(table) - {name} && (removed <==> name in old(table))
    {
      removed := name in table;
      table := table - {name};
    }

    /** The runtime serves the new config under its name, and every other name as before. */
    method Create(agent: Entry, now: int) returns (r: AdminResult)
      requires Valid()
      modifies this`table, this`runtime
      ensures Valid() && r == Done && table == WithActive(old(table), agent, now)
      ensures Serves(yaml, table, agent.name) == Some(agent) && agent in runtime
      ensures forall n | n != agent.name :: Serves(yaml, table, n) == old(Serves(yaml, table, n))
    {
      PutActive(agent, now);
      Rebuild();
      return Done;
    }

    method Update(name: string, agent: Entry, now: int) returns (r: AdminResult)
      requires Valid()
      modifies this`table, this`runtime
      ensures Valid()
      ensures r == if agent.name == name then Done else BadRequest
      ensures r.BadRequest? ==> table == old(table) && runtime == old(runtime)
      ensures r.Done? ==> table == WithActive(old(table), agent, now)
      ensures r.Done? ==> Serves(yaml, table, name) == Some(agent) && agent in runtime
      ensures r.Done? ==> forall n | n != name :: Serves(yaml, table, n) == old(Serves(yaml, table, n))
    {
      if agent.name != name {
        return BadRequest;
      }
      PutActive(agent, now);
      Rebuild();
      return Done;
    }

    /** A YAML-backed name is tombstoned, any other is deleted: either way it is gone. */
    method RemoveAgent(name: string, now: int) returns (r: AdminResult)
      requires Valid()
      modifies this`table, this`runtime
      ensures Valid()
      ensures r == if name in EntryNames(yaml) || name in old(table) then Done else NotFound
      ensures r.NotFound? ==> table == old(table) && runtime == old(runtime)
      ensures r.Done? ==> Serves(yaml, table, name).None? && name !in EntryNames(runtime)
      ensures r.Done? ==>
                table == if name in EntryNames(yaml) then WithTombstone(old(table), name, now) else old(table) - {name}
      ensures r.Done? ==> forall n | n != name :: Serves(yaml, table, n) == old(Serves(yaml, table, n))
    {
      var backed := name in EntryNames(yaml);
      if !backed && name !in table {
        return NotFound;
      }
      if backed {
        PutTombstone(name, now);
      } else {
        var removed := Delete(name);
      }
      Rebuild();
      NotServedNotListed(yaml, table, runtime, name);
      return Done;
    }

    /** Dropping the row hands the name back to YAML. */
    method Reset(name: string) returns (r: AdminResult)
      requires Valid()
      modifies this`table, this`runtime
      ensures Valid()
      ensures r == if name in old(table) then Done else NotFound
      ensures r.NotFound? ==> table == old(table) && runtime == old(runtime)
      ensures r.Done? ==> table == old(table) - {name} && Serves(yaml, table, name) == FindEntry(yaml, name)
      ensures r.Done? ==> forall n | n != name :: Serves(yaml, table, n) == old(Serves(yaml, table, n))
    {
      var removed := Delete(name);
      if !removed {
        assert table == old(table);
        return NotFound;
      }
      Rebuild();
      return Done;
    }

    /** A config reload: new YAML under the same overrides. */
    method ReloadYaml(entries: seq<Entry>)
      requires Valid() && Distinct(EntryNames(entries))
      modifies this`yaml, this`runtime
      ensures Valid() && yaml == entries && table == old(table)
    {
      yaml := entries;
      Rebuild();
    }
  }

  lemma NotServedNotListed(yaml: seq<Entry>, table: Table, runtime: seq<Entry>, name: string)
    requires InSync(yaml, table, runtime) && Serves(yaml, table, name).None?
    ensures name !in EntryNames(runtime)
  {
    forall i | 0 <= i < |runtime| ensures EntryNames(runtime)[i] != name {
      assert runtime[i] in runtime;
    }
  }

  /** The runtime list has no freedom: YAML and the table determine it. */
  lemma SyncedListIsUnique(yaml: seq<Entry>, table: Table, a: seq<Entry>, b: seq<Entry>)
    requires InSync(yaml, table, a) && InSync(yaml, table, b)
    requires TableOk(table)
    ensures a == b
  {
    forall s
      ensures s in EntryNames(a) <==> s in EntryNames(b)
    {
      ListedIffServed(yaml, table, a, s);
      ListedIffServed(yaml, table, b, s);
    }
    AscendingIsUnique(EntryNames(a), EntryNames(b));
    forall i | 0 <= i < |a| ensures a[i] == b[i] {
      assert EntryNames(a)[i] == EntryNames(b)[i] && a[i] in a && b[i] in b;
    }
  }

  lemma ListedIffServed(yaml: seq<Entry>, table: Table, list: seq<Entry>, s: string)
    requires InSync(yaml, table, list) && TableOk(table)
    ensures s in EntryNames(list) <==> Serves(yaml, table, s).Some?
  {
    if s in EntryNames(list) {
      var i :| 0 <= i < |list| && EntryNames(list)[i] == s;
      assert list[i] in list;
    }
    if Serves(yaml, table, s).Some? {
      var e := Serves(yaml, table, s).value;
      var i :| 0 <= i < |list| && list[i] == e;
      assert EntryNames(list)[i] == s;
    }
  }
}
