/** `ConfigStore`: locked read-modify-write of `coulisse.yaml` beside a file watcher that
    reloads it, as a state machine over their atomic steps. Any number of writers may
    wait; the mutex admits one. */
module ConfigStore {
  import opened Outcomes

  type Value = string
  /** The file as a YAML mapping. */
  type Root = map<string, Value>
  type Config = string

  /** Deserialise and validate a mapping. On files without `${` the watcher's
      `Config::from_path` computes the same. */
  type Parser = Root -> Option<Config>

  /** What a caller asked for; `WriteAll(None)` is a document that is not a mapping. */
  datatype Op = WriteSection(section: string, value: Value) | WriteAll(root: Option<Root>)

  /** How far the writer holding the lock is. */
  datatype Writer =
    | Free
    | Locked(op: Op)
    | Prepared(op: Op, root: Root)
    | Written(config: Config)
    | Stored(config: Config)

  datatype Watcher = Idle | Debouncing | Drained | Loaded(config: Config) | Reloading(config: Config)

  /** `snapshot` is what readers see, `live` what `on_reload` last published. `inFlight`
      counts file events the OS has not delivered yet, `queued` those in the channel.
      `committed` is the history of writes that reached the file. */
  datatype State = State(
    file: Root, snapshot: Config, live: Config, writer: Writer, watcher: Watcher,
    inFlight: nat, queued: nat, committed: seq<Op>)

  datatype Action =
    | Acquire(op: Op)
    | Prepare
    | GiveUp
    | WriteFile(events: nat)
    | StoreSnapshot
    | Publish
    | Spurious
    | Deliver
    | Wake
    | Drain
    | Load
    | StoreReload
    | PublishReload

  /** The document an operation wants to write, over the file it read. */
  function Edit(file: Root, op: Op): Option<Root> {
    match op
    case WriteSection(section, value) => Some(file[section := value])
    case WriteAll(root) => root
  }

  predicate Enabled(parse: Parser, s: State, a: Action) {
    match a
    case Acquire(_) => s.writer.Free?
    case Prepare => s.writer.Locked? && Edit(s.file, s.writer.op).Some?
    case GiveUp => s.writer.Locked? || s.writer.Prepared?
    case WriteFile(events) => s.writer.Prepared? && parse(s.writer.root).Some? && events > 0
    case StoreSnapshot => s.writer.Written?
    case Publish => s.writer.Stored?
    case Spurious => true
    case Deliver => s.inFlight > 0
    case Wake => s.watcher.Idle? && s.queued > 0
    case Drain => s.watcher.Debouncing?
    case Load => s.watcher.Drained?
    case StoreReload => s.watcher.Loaded?
    case PublishReload => s.watcher.Reloading?
  }

  /** One atomic step. `GiveUp` is any failure before the rename: an unreadable file, a
      document that does not validate, a failed write. */
  function Apply(parse: Parser, s: State, a: Action): State
    requires Enabled(parse, s, a)
  {
    match a
    case Acquire(op) => s.(writer := Locked(op))
    case Prepare => s.(writer := Prepared(s.writer.op, Edit(s.file, s.writer.op).value))
    case GiveUp => s.(writer := Free)
    case WriteFile(events) =>
      s.(file := s.writer.root, writer := Written(parse(s.writer.root).value),
         inFlight := s.inFlight + events, committed := s.committed + [s.writer.op])
    case StoreSnapshot => s.(snapshot := s.writer.config, writer := Stored(s.writer.config))
    case Publish => s.(live := s.writer.config, writer := Free)
    case Spurious => s.(inFlight := s.inFlight + 1)
    case Deliver => s.(inFlight := s.inFlight - 1, queued := s.queued + 1)
    case Wake => s.(queued := s.queued - 1, watcher := Debouncing)
    case Drain => s.(queued := 0, watcher := Drained)
    case Load => s.(watcher := if parse(s.file).Some? then Loaded(parse(s.file).value) else Idle)
    case StoreReload => s.(snapshot := s.watcher.config, watcher := Reloading(s.watcher.config))
    case PublishReload => s.(live := s.watcher.config, watcher := Idle)
  }

  predicate Initial(parse: Parser, s: State) {
    && parse(s.file) == Some(s.snapshot) && s.live == s.snapshot
    && s.writer.Free? && s.watcher.Idle? && s.inFlight == 0 && s.queued == 0 && s.committed == []
  }

  predicate IsRun(parse: Parser, states: seq<State>, actions: seq<Action>) {
    && |states| == |actions| + 1 && Initial(parse, states[0])
    && forall i | 0 <= i < |actions| ::
         Enabled(parse, states[i], actions[i]) && states[i + 1] == Apply(parse, states[i], actions[i])
  }

  // ---------------------------------------------------------------------
  // No lost updates
  // ---------------------------------------------------------------------

  /** The file after committed operations, one after the other. */
  function Replay(start: Root, ops: seq<Op>): Option<Root> {
    if ops == [] then Some(start)
    else
      match Replay(start, ops[..|ops| - 1])
      case None => None
      case Some(root) => Edit(root, ops[|ops| - 1])
  }

  /** The file is the serial outcome of the committed operations, and the document a
      writer prepared is still based on the current file. */
  predicate Serial(start: Root, s: State) {
    && Replay(start, s.committed) == Some(s.file)
    && (s.writer.Prepared? ==> Edit(s.file, s.writer.op) == Some(s.writer.root))
  }

  lemma SerialStep(parse: Parser, start: Root, s: State, a: Action)
    requires Serial(start, s) && Enabled(parse, s, a)
    ensures Serial(start, Apply(parse, s, a))
  {
    if a.WriteFile? {
      assert (s.committed + [s.writer.op])[..|s.committed|] == s.committed;
    }
  }

  /** A section keeps its value through every later write that does not name it. */
  lemma {:induction false} SectionSurvives(start: Root, ops: seq<Op>, i: nat, root: Root)
    requires i < |ops| && ops[i].WriteSection? && Replay(start, ops) == Some(root)
    requires forall j | i < j < |ops| :: ops[j].WriteSection? && ops[j].section != ops[i].section
    ensures ops[i].section in root && root[ops[i].section] == ops[i].value
    decreases |ops|
  {
    var front := ops[..|ops| - 1];
    if i < |ops| - 1 {
      SectionSurvives(start, front, i, Replay(start, front).value);
    }
  }

  // ---------------------------------------------------------------------
  // Snapshots
  // ---------------------------------------------------------------------

  /** A read of the file is still to come. */
  predicate ReloadPending(s: State) {
    s.inFlight > 0 || s.queued > 0 || s.watcher.Debouncing? || s.watcher.Drained?
  }

  /** The file is always valid, a writer past the rename holds its parse, and once no
      reload is pending whatever is still under way carries the file's own config. */
  predicate Coherent(parse: Parser, s: State) {
    && parse(s.file).Some?
    && var current := parse(s.file).value;
       && (s.writer.Written? || s.writer.Stored? ==> s.writer.config == current)
       && (!ReloadPending(s) ==>
             && (s.watcher.Loaded? || s.watcher.Reloading? ==> s.watcher.config == current)
             && (s.snapshot == current || s.watcher.Loaded? || s.writer.Written?)
             && (|| s.live == current
                 || s.watcher.Loaded? || s.watcher.Reloading? || s.writer.Written? || s.writer.Stored?))
  }

  lemma CoherentStep(parse: Parser, s: State, a: Action)
    requires Coherent(parse, s) && Enabled(parse, s, a)
    ensures Coherent(parse, Apply(parse, s, a))
  {
  }

  /** `config` is what some version of the file parsed to. */
  ghost predicate WasCommitted(parse: Parser, start: Root, ops: seq<Op>, config: Config) {
    exists n: nat :: n <= |ops| && Replay(start, ops[..n]).Some? && parse(Replay(start, ops[..n]).value) == Some(config)
  }

  ghost predicate Validated(parse: Parser, start: Root, s: State) {
    && WasCommitted(parse, start, s.committed, s.snapshot)
    && WasCommitted(parse, start, s.committed, s.live)
    && (s.writer.Written? || s.writer.Stored? ==> WasCommitted(parse, start, s.committed, s.writer.config))
    && (s.watcher.Loaded? || s.watcher.Reloading? ==> WasCommitted(parse, start, s.committed, s.watcher.config))
  }

  lemma CommittedExtends(parse: Parser, start: Root, ops: seq<Op>, op: Op, config: Config)
    requires WasCommitted(parse, start, ops, config)
    ensures WasCommitted(parse, start, ops + [op], config)
  {
    var n: nat :| n <= |ops| && Replay(start, ops[..n]).Some? && parse(Replay(start, ops[..n]).value) == Some(config);
    assert (ops + [op])[..n] == ops[..n];
  }

  lemma CurrentIsCommitted(parse: Parser, start: Root, s: State)
    requires Serial(start, s) && parse(s.file).Some?
    ensures WasCommitted(parse, start, s.committed, parse(s.file).value)
  {
    assert s.committed[..|s.committed|] == s.committed;
  }

  lemma ValidatedStep(parse: Parser, start: Root, s: State, a: Action)
    requires Validated(parse, start, s) && Serial(start, s) && Coherent(parse, s) && Enabled(parse, s, a)
    ensures Validated(parse, start, Apply(parse, s, a))
  {
    var t := Apply(parse, s, a);
    SerialStep(parse, start, s, a);
    CoherentStep(parse, s, a);
    CurrentIsCommitted(parse, start, t);
    if a.WriteFile? {
      CommittedExtends(parse, start, s.committed, s.writer.op, s.snapshot);
      CommittedExtends(parse, start, s.committed, s.writer.op, s.live);
      if s.watcher.Loaded? || s.watcher.Reloading? {
        CommittedExtends(parse, start, s.committed, s.writer.op, s.watcher.config);
      }
    }
  }

  // ---------------------------------------------------------------------
  // Every interleaving
  // ---------------------------------------------------------------------

  lemma {:induction false} RunInvariant(parse: Parser, states: seq<State>, actions: seq<Action>, i: nat)
    requires IsRun(parse, states, actions) && i < |states|
    ensures Serial(states[0].file, states[i]) && Coherent(parse, states[i])
    ensures Validated(parse, states[0].file, states[i])
  {
    var start := states[0].file;
    if i == 0 {
      CurrentIsCommitted(parse, start, states[0]);
    } else {
      RunInvariant(parse, states, actions, i - 1);
      SerialStep(parse, start, states[i - 1], actions[i - 1]);
      CoherentStep(parse, states[i - 1], actions[i - 1]);
      ValidatedStep(parse, start, states[i - 1], actions[i - 1]);
    }
  }

  /** Nobody is writing and every file event has been dealt with. */
  predicate Quiescent(s: State) {
    s.writer.Free? && s.watcher.Idle? && s.inFlight == 0 && s.queued == 0
  }

  /** In every interleaving: each visible snapshot is the validated parse of a version of
      the file, the file is the serial outcome of the writes, and at quiescence both the
      snapshot and what was published are the parse of the file. */
  lemma EveryInterleavingIsSafe(parse: Parser, states: seq<State>, actions: seq<Action>, i: nat)
    requires IsRun(parse, states, actions) && i < |states|
    ensures var s, start := states[i], states[0].file;
            && WasCommitted(parse, start, s.committed, s.snapshot)
            && Replay(start, s.committed) == Some(s.file)
            && (Quiescent(s) ==> parse(s.file) == Some(s.snapshot) && s.live == s.snapshot)
  {
    RunInvariant(parse, states, actions, i);
  }

  /** `actions` can be taken from `s`, one after the other, and lead to `t`. */
  ghost predicate Leads(parse: Parser, s: State, actions: seq<Action>, t: State)
    decreases |actions|
  {
    if actions == [] then s == t
    else Enabled(parse, s, actions[0]) && Leads(parse, Apply(parse, s, actions[0]), actions[1..], t)
  }

  /** The next step of whoever is still at work: the writer, the OS, then the watcher. */
  function NextStep(s: State): Action
    requires !Quiescent(s)
  {
    if s.writer.Locked? || s.writer.Prepared? then GiveUp
    else if s.writer.Written? then StoreSnapshot
    else if s.writer.Stored? then Publish
    else if s.inFlight > 0 then Deliver
    else
      match s.watcher
      case Idle => Wake
      case Debouncing => Drain
      case Drained => Load
      case Loaded(_) => StoreReload
      case Reloading(_) => PublishReload
  }

  function WriterWork(w: Writer): nat { if w.Free? then 0 else if w.Written? then 2 else 1 }

  function WatcherWork(w: Watcher): nat {
    match w
    case Idle => 0
    case Reloading(_) => 1
    case Loaded(_) => 2
    case Drained => 3
    case Debouncing => 4
  }

  /** Nothing gets stuck: wherever a run has come to, it can be brought to rest without
      another write, and then the file as it is now is what readers see. */
  lemma {:induction false} EveryWriteIsSeen(parse: Parser, s: State) returns (actions: seq<Action>, t: State)
    requires Coherent(parse, s)
    ensures Leads(parse, s, actions, t) && Quiescent(t)
    ensures t.file == s.file && t.committed == s.committed
    ensures parse(s.file) == Some(t.snapshot) && t.live == t.snapshot
    decreases WriterWork(s.writer), s.inFlight, s.queued, WatcherWork(s.watcher)
  {
    if Quiescent(s) {
      return [], s;
    }
    var a := NextStep(s);
    CoherentStep(parse, s, a);
    var rest;
    rest, t := EveryWriteIsSeen(parse, Apply(parse, s, a));
    actions := [a] + rest;
    assert actions[1..] == rest;
  }

  /** Reading before draining would lose an update: were the watcher to load first and
      drop the queue afterwards, a write landing in between would never be seen. */
  lemma DrainAfterReadWouldLoseAnUpdate(parse: Parser, s: State, root: Root)
    requires s.watcher.Debouncing? && s.writer == Prepared(WriteAll(Some(root)), root) && s.inFlight == 0
    requires parse(s.file) == Some(s.snapshot) && s.live == s.snapshot
    requires parse(root).Some? && parse(root).value != s.snapshot
    ensures var loaded := s.(watcher := Loaded(parse(s.file).value));
            var written := Apply(parse, Apply(parse, Apply(parse, loaded, WriteFile(1)), StoreSnapshot), Publish);
            var late := Apply(parse, written, Deliver).(queued := 0);
            var end := Apply(parse, Apply(parse, late, StoreReload), PublishReload);
            Quiescent(end) && parse(end.file) != Some(end.snapshot)
  {
  }

  // ---------------------------------------------------------------------
  // The store, one call at a time
  // ---------------------------------------------------------------------

  datatype PersistError = Io | Parse | Invalid

  /** A write that meets nobody else: its five steps in a row. */
  function WriteAlone(parse: Parser, s: State, op: Op, events: nat): State
    requires s.writer.Free? && events > 0
    requires Edit(s.file, op).Some? && parse(Edit(s.file, op).value).Some?
  {
    var prepared := Apply(parse, Apply(parse, s, Acquire(op)), Prepare);
    Apply(parse, Apply(parse, Apply(parse, prepared, WriteFile(events)), StoreSnapshot), Publish)
  }

  /** A reload that meets nobody else. */
  function ReloadAlone(parse: Parser, s: State): State
    requires s.watcher.Drained?
  {
    var loaded := Apply(parse, s, Load);
    if loaded.watcher.Loaded? then Apply(parse, Apply(parse, loaded, StoreReload), PublishReload) else loaded
  }

  /** A write met by nobody ends with the document in the file, and its parse both in the
      snapshot and published; the watcher is yet to hear of it. */
  lemma WriteAloneLands(parse: Parser, s: State, op: Op, events: nat)
    requires s.writer.Free? && events > 0
    requires Edit(s.file, op).Some? && parse(Edit(s.file, op).value).Some?
    ensures var t := WriteAlone(parse, s, op, events);
            && t.file == (match op
                          case WriteSection(section, v) => s.file[section := v]
                          case WriteAll(root) => root.value)
            && parse(t.file) == Some(t.snapshot) && t.live == t.snapshot && t.committed == s.committed + [op]
            && t.writer.Free? && t.watcher == s.watcher && t.queued == s.queued && t.inFlight == s.inFlight + events
  {
  }

  /** A reload met by nobody publishes what the file parses to, if it does, and nothing
      else. */
  lemma ReloadAloneLands(parse: Parser, s: State)
    requires s.watcher.Drained?
    ensures var t, config := ReloadAlone(parse, s), parse(s.file).GetOr(s.snapshot);
            && t.snapshot == config && t.live == parse(s.file).GetOr(s.live) && t.watcher.Idle?
            && t.file == s.file && t.writer == s.writer && t.committed == s.committed
  {
  }

  class Store {
    const parse: Parser
    var file: Root
    var snapshot: Config
    var live: Config
    ghost var inFlight: nat
    ghost var queued: nat
    ghost var committed: seq<Op>

    /** The store between calls, its watcher in the given phase. */
    ghost function Abstract(watcher: Watcher): State
      reads this
    {
      State(file, snapshot, live, Free, watcher, inFlight, queued, committed)
    }

    constructor (parse: Parser, file: Root, initial: Config)
      requires parse(file) == Some(initial)
      ensures this.parse == parse && this.file == file && this.snapshot == initial
      ensures Initial(parse, Abstract(Idle))
    {
      this.parse, this.file := parse, file;
      snapshot, live := initial, initial;
      inFlight, queued, committed := 0, 0, [];
    }

    /** Nothing is written that does not validate; a failed write changes nothing.
        `renamed` says whether the temp file could be written and renamed. */
    method ValidateAndWrite(root: Root, renamed: bool, ghost events: nat) returns (r: Result<Config, PersistError>)
      modifies this`file, this`snapshot, this`inFlight
      ensures r.Ok? <==> parse(root).Some? && renamed
      ensures r.Err? ==> r.error == if parse(root).None? then Invalid else Io
      ensures r.Ok? ==>
                && r.value == parse(root).value && file == root
                && snapshot == r.value && inFlight == old(inFlight) + events
      ensures r.Err? ==> file == old(file) && snapshot == old(snapshot) && inFlight == old(inFlight)
    {
      var config := parse(root);
      if config.None? {
        return Err(Invalid);
      }
      if !renamed {
        return Err(Io);
      }
      file := root;
      inFlight := inFlight + events;
      snapshot := config.value;
      return Ok(config.value);
    }

    /** `WriteAll(None)` is a document that is no mapping. */
    method WriteAll(root: Option<Root>, renamed: bool, ghost events: nat, ghost watcher: Watcher)
      returns (r: Result<(), PersistError>)
      requires events > 0
      modifies this
      ensures r.Ok? <==> root.Some? && parse(root.value).Some? && renamed
      ensures Abstract(watcher) ==
              if r.Ok? then WriteAlone(parse, old(Abstract(watcher)), Op.WriteAll(root), events)
              else old(Abstract(watcher))
      ensures r.Ok? ==>
                && file == root.value && parse(file) == Some(snapshot) && live == snapshot
                && committed == old(committed) + [Op.WriteAll(root)]
      ensures r.Err? ==> r.error == if root.None? then Parse else if parse(root.value).None? then Invalid else Io
      ensures r.Err? ==> file == old(file) && snapshot == old(snapshot) && live == old(live)
    {
      if root.None? {
        return Err(Parse);
      }
      var written := ValidateAndWrite(root.value, renamed, events);
      if written.Err? {
        return Err(written.error);
      }
      committed := committed + [Op.WriteAll(root)];
      live := written.value;
      return Ok(());
    }

    /** Reads the mapping, replaces one key, writes it all back. */
    method WriteSection(
        section: string, value: Value, readable: bool, renamed: bool, ghost events: nat, ghost watcher: Watcher)
      returns (r: Result<(), PersistError>)
      requires events > 0
      modifies this
      ensures r.Ok? <==> readable && parse(old(file)[section := value]).Some? && renamed
      ensures Abstract(watcher) ==
              if r.Ok? then WriteAlone(parse, old(Abstract(watcher)), Op.WriteSection(section, value), events)
              else old(Abstract(watcher))
      ensures r.Ok? ==>
                && file == old(file)[section := value] && parse(file) == Some(snapshot) && live == snapshot
                && committed == old(committed) + [Op.WriteSection(section, value)]
      ensures r.Err? ==>
                r.error == if readable && parse(old(file)[section := value]).None? then Invalid else Io
      ensures r.Err? ==> file == old(file) && snapshot == old(snapshot) && live == old(live)
      ensures forall key | key != section ::
                (key in file <==> key in old(file)) && (key in file ==> file[key] == old(file)[key])
    {
      if !readable {
        return Err(Io);
      }
      var root := file;
      root := root[section := value];
      var written := ValidateAndWrite(root, renamed, events);
      if written.Err? {
        return Err(written.error);
      }
      committed := committed + [Op.WriteSection(section, value)];
      live := written.value;
      return Ok(());
    }

    /** The watcher's reload: a file that does not validate leaves what is live alone. */
    method ReloadFromDisk() returns (r: Result<(), PersistError>)
      modifies this`snapshot, this`live
      ensures r.Ok? <==> parse(file).Some?
      ensures Abstract(Idle) == ReloadAlone(parse, old(Abstract(Drained)))
      ensures r.Ok? ==> parse(file) == Some(snapshot) && live == snapshot
      ensures r.Err? ==> r.error == Invalid && snapshot == old(snapshot) && live == old(live)
    {
      var config := parse(file);
      if config.None? {
        return Err(Invalid);
      }
      snapshot := config.value;
      live := config.value;
      return Ok(());
    }
  }
}
