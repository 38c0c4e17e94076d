/** Overlapping rebuilds: an admin handler writes the table, a config reload replaces the YAML
    list; each then merges the two as it saw them and stores the result, and a slow one may
    store a list that is out of date by then. */
module Rebuilds {
  import opened AgentsAdmin
  import opened Lex
  import opened Merge
  import opened Outcomes

  /** A handler or a reload. */
  type Who = nat

  /** A value as it was after `version` changes. */
  datatype View<+T> = View(value: T, version: nat)

  /** What one merge is made from. */
  datatype Basis = Basis(yaml: View<seq<Entry>>, table: View<Table>)

  /** How far an actor is: a handler has written the table; the YAML to merge is in hand
      (a reload brings its own); the rows are listed too and only the store is left. */
  datatype Phase = Wrote | Loaded(yaml: View<seq<Entry>>) | Listed(basis: Basis)

  /** The runtime list is the merge of `published`. */
  datatype State = State(current: Basis, acting: map<Who, Phase>, published: Basis)

  datatype Event =
    | Write(who: Who, table: Table)
    | Reload(who: Who, yaml: seq<Entry>)
    | Load(who: Who)
    | ListRows(who: Who)
    | StoreList(who: Who)

  predicate Enabled(s: State, e: Event) {
    match e
    case Write(who, _) => who !in s.acting
    case Reload(who, _) => who !in s.acting
    case Load(who) => who in s.acting && s.acting[who].Wrote?
    case ListRows(who) => who in s.acting && s.acting[who].Loaded?
    case StoreList(who) => who in s.acting && s.acting[who].Listed?
  }

  function Apply(s: State, e: Event): State
    requires Enabled(s, e)
  {
    var yaml, table := s.current.yaml, s.current.table;
    match e
    case Write(who, rows) =>
      State(Basis(yaml, View(rows, table.version + 1)), s.acting[who := Wrote], s.published)
    case Reload(who, agents) =>
      var fresher := View(agents, yaml.version + 1);
      State(Basis(fresher, table), s.acting[who := Loaded(fresher)], s.published)
    case Load(who) => s.(acting := s.acting[who := Loaded(yaml)])
    case ListRows(who) => s.(acting := s.acting[who := Listed(Basis(s.acting[who].yaml, table))])
    case StoreList(who) => s.(acting := s.acting - {who}, published := s.acting[who].basis)
  }

  predicate Quiet(s: State) { s.acting == map[] }

  predicate Initial(s: State) { Quiet(s) && s.published == s.current }

  predicate IsRun(states: seq<State>, events: seq<Event>) {
    && |states| == |events| + 1 && Initial(states[0])
    && forall i | 0 <= i < |events| :: Enabled(states[i], events[i]) && states[i + 1] == Apply(states[i], events[i])
  }

  /** `runtime` is the merge of `basis`. */
  ghost predicate Merges(basis: Basis, runtime: seq<Entry>) {
    InSync(basis.yaml.value, basis.table.value, runtime)
  }

  predicate BasisOk(basis: Basis) {
    TableOk(basis.table.value) && Distinct(EntryNames(basis.yaml.value))
  }

  function ServedBy(basis: Basis, name: string): Option<Entry> {
    Serves(basis.yaml.value, basis.table.value, name)
  }

  /** The list stored last is the current merge exactly when what it was made from serves
      every name as YAML and table do now. */
  lemma CurrentIff(stored: Basis, now: Basis, runtime: seq<Entry>)
    requires Merges(stored, runtime) && BasisOk(stored) && BasisOk(now)
    ensures Merges(now, runtime) <==> forall n :: ServedBy(stored, n) == ServedBy(now, n)
  {
    if Merges(now, runtime) {
      forall n ensures ServedBy(stored, n) == ServedBy(now, n) {
        ServedFromList(stored, runtime, n);
        ServedFromList(now, runtime, n);
      }
    } else if forall n :: ServedBy(stored, n) == ServedBy(now, n) {
      forall e | e in runtime
        ensures Serves(now.yaml.value, now.table.value, e.name) == Some(e)
      {
        assert ServedBy(stored, e.name) == ServedBy(now, e.name);
      }
      forall n | Serves(now.yaml.value, now.table.value, n).Some?
        ensures Serves(now.yaml.value, now.table.value, n).value in runtime
      {
        assert ServedBy(stored, n) == ServedBy(now, n);
      }
    }
  }

  /** A merged list holds, under a name it lists, what is served. */
  lemma ServedFromList(basis: Basis, runtime: seq<Entry>, n: string)
    requires Merges(basis, runtime) && BasisOk(basis)
    ensures forall e | e in runtime && e.name == n :: ServedBy(basis, n) == Some(e)
    ensures ServedBy(basis, n).Some? ==> ServedBy(basis, n).value in runtime && ServedBy(basis, n).value.name == n
  {
  }

  // ---------------------------------------------------------------------
  // Stores in order
  // ---------------------------------------------------------------------

  predicate UpToDate<T(==)>(now: View<T>, v: View<T>) {
    v.version <= now.version && (v.version == now.version ==> v == now)
  }

  predicate Past(now: Basis, b: Basis) {
    UpToDate(now.yaml, b.yaml) && UpToDate(now.table, b.table)
  }

  predicate PhasePast(now: Basis, p: Phase) {
    match p
    case Wrote => true
    case Loaded(yaml) => UpToDate(now.yaml, yaml)
    case Listed(basis) => Past(now, basis)
  }

  /** Nothing in anyone's hands is newer than what is current. */
  predicate Dated(s: State) {
    Past(s.current, s.published) && forall who | who in s.acting :: PhasePast(s.current, s.acting[who])
  }

  /** What this actor will store is current, unless something changes first. */
  predicate WillBeCurrent(now: Basis, p: Phase) {
    match p
    case Wrote => true
    case Loaded(yaml) => yaml == now.yaml
    case Listed(basis) => basis == now
  }

  /** Whatever is published, it is current or someone is about to publish what is. */
  ghost predicate Followed(s: State) {
    s.published == s.current || exists who :: who in s.acting && WillBeCurrent(s.current, s.acting[who])
  }

  /** A store does not overtake one made from newer YAML or a newer table. */
  predicate InOrder(s: State, e: Event) {
    e.StoreList? && Enabled(s, e) ==>
      var basis := s.acting[e.who].basis;
      basis.yaml.version >= s.published.yaml.version && basis.table.version >= s.published.table.version
  }

  lemma DatedStep(s: State, e: Event)
    requires Dated(s) && Enabled(s, e)
    ensures Dated(Apply(s, e))
  {
    assert PhasePast(s.current, if e.who in s.acting then s.acting[e.who] else Wrote);
  }

  lemma FollowedStep(s: State, e: Event)
    requires Dated(s) && Followed(s) && Enabled(s, e) && InOrder(s, e)
    ensures Followed(Apply(s, e))
  {
    var t := Apply(s, e);
    if e.StoreList? {
      assert PhasePast(s.current, s.acting[e.who]);
      if s.published != s.current {
        var other :| other in s.acting && WillBeCurrent(s.current, s.acting[other]);
        if other != e.who {
          assert other in t.acting && t.acting[other] == s.acting[other];
        }
      }
    } else if e.Write? || e.Reload? {
      assert WillBeCurrent(t.current, t.acting[e.who]);
    } else if s.published != s.current {
      var other :| other in s.acting && WillBeCurrent(s.current, s.acting[other]);
      assert other in t.acting && WillBeCurrent(t.current, t.acting[other]);
    }
  }

  /** When no store overtakes one made from something newer, the system comes to rest on the
      current merge, however handlers and reloads interleave. */
  lemma OrderedStoresEndCurrent(states: seq<State>, events: seq<Event>)
    requires IsRun(states, events) && Quiet(states[|events|])
    requires forall i | 0 <= i < |events| :: InOrder(states[i], events[i])
    ensures states[|events|].published == states[|events|].current
  {
    for n := 0 to |events|
      invariant Dated(states[n]) && Followed(states[n])
    {
      assert InOrder(states[n], events[n]);
      DatedStep(states[n], events[n]);
      FollowedStep(states[n], events[n]);
    }
  }

  // ---------------------------------------------------------------------
  // Stores out of order
  // ---------------------------------------------------------------------

  /** A run that comes to rest on a list which is not the current merge, whatever list was
      stored for what is published. */
  ghost predicate EndsStale(states: seq<State>, events: seq<Event>) {
    && IsRun(states, events) && Quiet(states[|events|])
    && forall runtime | Merges(states[|events|].published, runtime) :: !Merges(states[|events|].current, runtime)
  }

  lemma StaleWhenServedApart(states: seq<State>, events: seq<Event>, n: string)
    requires IsRun(states, events) && Quiet(states[|events|])
    requires BasisOk(states[|events|].published) && BasisOk(states[|events|].current)
    requires ServedBy(states[|events|].published, n) != ServedBy(states[|events|].current, n)
    ensures EndsStale(states, events)
  {
    var last := states[|events|];
    forall runtime | Merges(last.published, runtime)
      ensures !Merges(last.current, runtime)
    {
      CurrentIff(last.published, last.current, runtime);
    }
  }

  /** Two handlers: the one that listed first stores last. */
  lemma SlowStoreRun(start: Basis, a: Basis, b: Basis) returns (states: seq<State>, events: seq<Event>)
    requires a == Basis(start.yaml, View(a.table.value, start.table.version + 1))
    requires b == Basis(start.yaml, View(b.table.value, start.table.version + 2))
    ensures IsRun(states, events) && states[0].current == start && |events| == 8
    ensures states[8] == State(b, map[], a) && !InOrder(states[7], events[7])
  {
    var y := start.yaml;
    events := [Write(0, a.table.value), Load(0), ListRows(0), Write(1, b.table.value), Load(1), ListRows(1),
               StoreList(1), StoreList(0)];
    states := [State(start, map[], start), State(a, map[0 := Wrote], start), State(a, map[0 := Loaded(y)], start),
               State(a, map[0 := Listed(a)], start), State(b, map[0 := Listed(a), 1 := Wrote], start),
               State(b, map[0 := Listed(a), 1 := Loaded(y)], start),
               State(b, map[0 := Listed(a), 1 := Listed(b)], start), State(b, map[0 := Listed(a)], b),
               State(b, map[], a)];
    Removal(Listed(a), Listed(b));
  }

  /** Its list, without the other's write, stays. */
  lemma SlowStoreEndsStale(start: Basis, first: Table, second: Table, n: string)
      returns (states: seq<State>, events: seq<Event>)
    requires BasisOk(start) && TableOk(first) && TableOk(second)
    requires Serves(start.yaml.value, first, n) != Serves(start.yaml.value, second, n)
    ensures EndsStale(states, events) && states[0].current == start
    ensures states[|events|].current.table.value == second && states[|events|].published.table.value == first
    ensures exists i :: 0 <= i < |events| && !InOrder(states[i], events[i])
  {
    hide IsRun, InOrder;
    var a := Basis(start.yaml, View(first, start.table.version + 1));
    var b := Basis(start.yaml, View(second, start.table.version + 2));
    states, events := SlowStoreRun(start, a, b);
    StaleWhenServedApart(states, events, n);
  }

  /** A handler and a reload: the handler has loaded the YAML of before, and the reload stores
      its merge before the handler lists. */
  lemma ReloadRun(start: Basis, a: Basis, b: Basis) returns (states: seq<State>, events: seq<Event>)
    requires a == Basis(start.yaml, View(a.table.value, start.table.version + 1))
    requires b == Basis(View(b.yaml.value, start.yaml.version + 1), a.table)
    ensures IsRun(states, events) && states[0].current == start && |events| == 7
    ensures states[7] == State(b, map[], a) && !InOrder(states[6], events[6])
  {
    var x, y := start.yaml, b.yaml;
    events := [Write(0, a.table.value), Load(0), Reload(1, y.value), ListRows(1), StoreList(1),
               ListRows(0), StoreList(0)];
    states := [State(start, map[], start), State(a, map[0 := Wrote], start), State(a, map[0 := Loaded(x)], start),
               State(b, map[0 := Loaded(x), 1 := Loaded(y)], start),
               State(b, map[0 := Loaded(x), 1 := Listed(b)], start),
               State(b, map[0 := Loaded(x)], b), State(b, map[0 := Listed(a)], b), State(b, map[], a)];
    Removal(Loaded(x), Listed(b));
    Removal(Listed(a), Listed(b));
  }

  /** The handler's list, made from the YAML of before, stays. */
  lemma ReloadInBetweenEndsStale(start: Basis, table: Table, yaml: seq<Entry>, n: string)
      returns (states: seq<State>, events: seq<Event>)
    requires BasisOk(start) && TableOk(table) && Distinct(EntryNames(yaml))
    requires Serves(start.yaml.value, table, n) != Serves(yaml, table, n)
    ensures EndsStale(states, events) && states[0].current == start
    ensures states[|events|].current.yaml.value == yaml && states[|events|].published.yaml == start.yaml
    ensures exists i :: 0 <= i < |events| && !InOrder(states[i], events[i])
  {
    hide IsRun, InOrder;
    var t := View(table, start.table.version + 1);
    var a, b := Basis(start.yaml, t), Basis(View(yaml, start.yaml.version + 1), t);
    states, events := ReloadRun(start, a, b);
    StaleWhenServedApart(states, events, n);
  }

  lemma Removal(p: Phase, q: Phase)
    ensures map[0 := p, 1 := q] - {1} == map[0 := p] && map[0 := p] - {0} == map[]
  {
  }
}
