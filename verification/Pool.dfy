/** `mcp::UserMcpPool`: per-user OAuth sessions over a token vault, with preemptive
    and reactive refresh and refresh-token rotation (section 6 of RFC 6749).

    Everything outside the process — connects, token endpoint, vault I/O — is an
    adversary whose answers arrive in `Env`. */
module Pool {
  import opened Outcomes

  /** `(user, server)`. */
  type Key = (string, string)
  type AccessToken = string
  type RefreshToken = string

  /** Refresh a token this close to its expiry before using it. */
  const EXPIRY_MARGIN_SECS: int := 60

  datatype StoredToken = StoredToken(access: AccessToken, expiresAt: Option<int>, refresh: Option<RefreshToken>)

  datatype TokenResponse = TokenResponse(access: AccessToken, expiresIn: Option<nat>, refresh: Option<RefreshToken>) {
    /** A rotated refresh token wins; otherwise the one that just succeeded stays. */
    function IntoStoredToken(fallback: Option<RefreshToken>, now: nat): StoredToken {
      StoredToken(access,
                  if expiresIn.Some? then Some(ToI64(now + expiresIn.value)) else None,
                  if refresh.Some? then refresh else fallback)
    }
  }

  /** `CallGone` is no error of the source: the caller dropped the call, and nobody is left to
      receive a result. */
  datatype McpError = NotConnected | ServerNotConfigured | ConnectFailed | VaultFault | CallGone

  datatype Connect = Connected | AuthFailure | OtherFailure

  /** One refresh attempt: is a client registration readable, what does the token endpoint
      grant (`None` if it refuses), does that reach the pool as a reply it can read, when,
      is the call dropped once the request is out but before a vault write lands, and do the
      vault writes work. A call dropped at any other point leaves what some other outcome leaves. */
  datatype Grant = Grant(
    clientKnown: bool, granted: Option<TokenResponse>, readable: bool, at: nat, gone: bool,
    upsertOk: bool, deleteOk: bool)
  {
    /** What the pool gets to see. */
    function Response(): Option<TokenResponse> { if readable then granted else None }

    /** The refresh token the server issued, whether or not the reply arrived. */
    function Rotated(): Option<RefreshToken> { if granted.Some? then granted.value.refresh else None }
  }

  /** The environment's side of one `get_or_spawn` call. */
  datatype Env = Env(now: nat, readOk: bool, preemptive: Grant, connect: Connect,
                     reactive: Grant, reconnect: Connect, finalDeleteOk: bool)

  /** What the authorization server observes. */
  datatype Event = Issued(key: Key, token: RefreshToken) | Presented(key: Key, token: RefreshToken)

  // ---------------------------------------------------------------------
  // One call, on values
  // ---------------------------------------------------------------------

  datatype Exchanged = Renewed(token: StoredToken) | Dropped | Faulted | Abandoned

  /** `refresh_or_force_reauth`: the vault row afterwards is the renewed token, gone, or
      (when even the delete failed, or the call was dropped) what it was. */
  function Exchange(stored: StoredToken, g: Grant): Exchanged {
    if g.gone then Abandoned
    else if stored.refresh.Some? && g.clientKnown && g.Response().Some? && g.upsertOk
    then Renewed(g.Response().value.IntoStoredToken(stored.refresh, g.at))
    else if g.deleteOk then Dropped
    else Faulted
  }

  function ExchangeTrace(key: Key, stored: StoredToken, g: Grant): seq<Event> {
    if stored.refresh.None? || !g.clientKnown then []
    else [Presented(key, stored.refresh.value)] + if g.Rotated().Some? then [Issued(key, g.Rotated().value)] else []
  }

  /** The server rotated the token, but the new one never reached the vault (the reply was
      lost, the write failed or the call was dropped) and the old one stayed there. */
  predicate Lost(stored: StoredToken, g: Grant) {
    && stored.refresh.Some? && g.clientKnown && g.Rotated().Some?
    && (g.gone || (!(g.readable && g.upsertOk) && !g.deleteOk))
  }

  predicate Expiring(stored: StoredToken, now: nat) {
    stored.expiresAt.Some? && ToI64(now) >= stored.expiresAt.value - EXPIRY_MARGIN_SECS
  }

  /** The token the first connect uses. */
  function Preempt(stored: StoredToken, env: Env): Exchanged {
    if Expiring(stored, env.now) then Exchange(stored, env.preemptive) else Renewed(stored)
  }

  /** A session on a token now in the vault, or an error and what the vault row became. */
  datatype Served = Session(token: StoredToken) | Refused(row: Option<StoredToken>, error: McpError) {
    function Row(): Option<StoredToken> { if Session? then Some(token) else row }
  }

  /** `reconnect_after_refresh`, once the endpoint rejected `t`. */
  function Reconnect(t: StoredToken, env: Env): Served {
    match Exchange(t, env.reactive)
    case Dropped => Refused(None, NotConnected)
    case Faulted => Refused(Some(t), VaultFault)
    case Abandoned => Refused(Some(t), CallGone)
    case Renewed(u) =>
      if env.reconnect.Connected? then Session(u)
      else if env.finalDeleteOk then Refused(None, NotConnected)
      else Refused(Some(u), VaultFault)
  }

  function Serve(stored: StoredToken, env: Env): Served {
    match Preempt(stored, env)
    case Dropped => Refused(None, NotConnected)
    case Faulted => Refused(Some(stored), VaultFault)
    case Abandoned => Refused(Some(stored), CallGone)
    case Renewed(t) =>
      match env.connect
      case Connected => Session(t)
      case OtherFailure => Refused(Some(t), ConnectFailed)
      case AuthFailure => Reconnect(t, env)
  }

  /** Did the first connect get rejected, so that a second grant follows. */
  predicate Reacts(stored: StoredToken, env: Env) {
    Preempt(stored, env).Renewed? && env.connect.AuthFailure?
  }

  function PreemptiveTrace(key: Key, stored: StoredToken, env: Env): seq<Event> {
    if Expiring(stored, env.now) then ExchangeTrace(key, stored, env.preemptive) else []
  }

  function ReactiveTrace(key: Key, stored: StoredToken, env: Env): seq<Event> {
    if Reacts(stored, env) then ExchangeTrace(key, Preempt(stored, env).token, env.reactive) else []
  }

  function ServeTrace(key: Key, stored: StoredToken, env: Env): seq<Event> {
    PreemptiveTrace(key, stored, env) + ReactiveTrace(key, stored, env)
  }

  predicate ServeLost(stored: StoredToken, env: Env) {
    || (Expiring(stored, env.now) && Lost(stored, env.preemptive))
    || (Reacts(stored, env) && Lost(Preempt(stored, env).token, env.reactive))
  }

  // ---------------------------------------------------------------------
  // Whole runs
  // ---------------------------------------------------------------------

  datatype State = State(cache: map<Key, AccessToken>, vault: map<Key, StoredToken>, log: seq<Event>, lost: set<Key>)

  datatype Op =
    | Spawn(key: Key, env: Env)
    | Callback(key: Key, response: TokenResponse, at: nat, upsertOk: bool)
    | Evict(key: Key)

  /** Does the call get as far as using a stored token. */
  predicate Engages(configs: set<string>, s: State, key: Key, env: Env) {
    key !in s.cache && key.1 in configs && env.readOk && key in s.vault
  }

  function Put(vault: map<Key, StoredToken>, key: Key, row: Option<StoredToken>): map<Key, StoredToken> {
    match row
    case Some(t) => vault[key := t]
    case None => vault - {key}
  }

  function Apply(configs: set<string>, s: State, op: Op): State {
    match op
    case Spawn(key, env) =>
      if !Engages(configs, s, key, env) then s else
        var stored := s.vault[key];
        var log := s.log + ServeTrace(key, stored, env);
        var lost := if ServeLost(stored, env) then s.lost + {key} else s.lost;
        var served := Serve(stored, env);
        var cache := if served.Session? then s.cache[key := served.token.access] else s.cache;
        State(cache, Put(s.vault, key, served.Row()), log, lost)
    case Callback(key, response, at, upsertOk) =>
      var log := s.log + if response.refresh.Some? then [Issued(key, response.refresh.value)] else [];
      if upsertOk
      then s.(vault := s.vault[key := response.IntoStoredToken(None, at)], log := log)
      else s.(log := log, lost := if response.refresh.Some? then s.lost + {key} else s.lost)
    case Evict(key) => s.(cache := s.cache - {key})
  }

  function SpawnResult(configs: set<string>, s: State, key: Key, env: Env): Result<AccessToken, McpError> {
    if key in s.cache then Ok(s.cache[key])
    else if key.1 !in configs then Err(ServerNotConfigured)
    else if !env.readOk then Err(VaultFault)
    else if key !in s.vault then Err(NotConnected)
    else
      match Serve(s.vault[key], env)
      case Session(t) => Ok(t.access)
      case Refused(_, e) => Err(e)
  }

  function Run(configs: set<string>, ops: seq<Op>): State {
    if ops == [] then State(map[], map[], [], {})
    else Apply(configs, Run(configs, ops[..|ops| - 1]), ops[|ops| - 1])
  }

  /** The refresh token most recently issued for `key`. */
  function LatestIssued(log: seq<Event>, key: Key): Option<RefreshToken> {
    if log == [] then None
    else
      var e := log[|log| - 1];
      if e.Issued? && e.key == key then Some(e.token) else LatestIssued(log[..|log| - 1], key)
  }

  /** Every grant for `key` presents the refresh token most recently issued for it. */
  predicate RotationSafe(log: seq<Event>, key: Key) {
    log == [] ||
    var front, e := log[..|log| - 1], log[|log| - 1];
    && RotationSafe(front, key)
    && (e.Presented? && e.key == key ==> LatestIssued(front, key) == Some(e.token))
  }

  /** The same said of each position. */
  lemma {:induction false} RotationSafeIff(log: seq<Event>, key: Key)
    ensures RotationSafe(log, key) <==>
            forall i | 0 <= i < |log| && log[i].Presented? && log[i].key == key ::
              LatestIssued(log[..i], key) == Some(log[i].token)
  {
    if log != [] {
      var front := log[..|log| - 1];
      RotationSafeIff(front, key);
      assert forall i | 0 <= i < |front| :: log[i] == front[i] && log[..i] == front[..i];
    }
  }

  /** The vault works throughout `op`, and no call is dropped between a grant and its write. */
  predicate Undisturbed(op: Op) {
    match op
    case Spawn(_, env) => && env.readOk && env.preemptive.upsertOk && env.preemptive.deleteOk
                          && env.reactive.upsertOk && env.reactive.deleteOk && env.finalDeleteOk
                          && !env.preemptive.gone && !env.reactive.gone
    case Callback(_, _, _, upsertOk) => upsertOk
    case Evict(_) => true
  }

  // Log bookkeeping -----------------------------------------------------

  lemma LogNext(log: seq<Event>, e: Event, key: Key)
    ensures LatestIssued(log + [e], key) == if e.Issued? && e.key == key then Some(e.token) else LatestIssued(log, key)
    ensures RotationSafe(log + [e], key) <==>
            RotationSafe(log, key) && (e.Presented? && e.key == key ==> LatestIssued(log, key) == Some(e.token))
  {
    var more := log + [e];
    assert more[..|log|] == log && more[|log|] == e;
  }

  lemma {:induction false} SafePrefix(log: seq<Event>, more: seq<Event>, key: Key)
    requires RotationSafe(log + more, key)
    ensures RotationSafe(log, key)
  {
    if more == [] {
      assert log + more == log;
    } else {
      var front, e := more[..|more| - 1], more[|more| - 1];
      assert log + more == log + front + [e];
      LogNext(log + front, e, key);
      SafePrefix(log, front, key);
    }
  }

  /** `key`'s vault row, if any, carries the latest issued refresh token, and so has
      every grant so far. */
  predicate Current(log: seq<Event>, key: Key, refresh: Option<RefreshToken>) {
    RotationSafe(log, key) && (refresh.Some? ==> LatestIssued(log, key) == refresh)
  }

  lemma ExchangeKeepsCurrent(log: seq<Event>, key: Key, stored: StoredToken, g: Grant)
    requires Current(log, key, stored.refresh)
    ensures var after := log + ExchangeTrace(key, stored, g);
            && RotationSafe(after, key)
            && (Exchange(stored, g).Renewed? ==> Current(after, key, Exchange(stored, g).token.refresh))
            && ((Exchange(stored, g).Faulted? || Exchange(stored, g).Abandoned?) && !Lost(stored, g) ==>
                  Current(after, key, stored.refresh))
  {
    var trace := ExchangeTrace(key, stored, g);
    if trace == [] {
      assert log + trace == log;
    } else {
      LogNext(log, trace[0], key);
      if |trace| == 2 {
        LogNext(log + [trace[0]], trace[1], key);
        assert log + trace == log + [trace[0]] + [trace[1]];
      } else {
        assert log + trace == log + [trace[0]];
      }
    }
  }

  lemma OtherKeysUnmoved(log: seq<Event>, more: seq<Event>, key: Key)
    requires forall e | e in more :: e.key != key
    ensures LatestIssued(log + more, key) == LatestIssued(log, key)
    ensures RotationSafe(log + more, key) <==> RotationSafe(log, key)
    decreases |more|
  {
    if more == [] {
      assert log + more == log;
    } else {
      var front, e := more[..|more| - 1], more[|more| - 1];
      OtherKeysUnmoved(log, front, key);
      LogNext(log + front, e, key);
      assert log + more == log + front + [e];
    }
  }

  /** After the first grant, if there is one: the token the connect uses is current. */
  lemma PreemptKeepsCurrent(log: seq<Event>, key: Key, stored: StoredToken, env: Env)
    requires Current(log, key, stored.refresh)
    ensures var first, after := Preempt(stored, env), log + PreemptiveTrace(key, stored, env);
            && RotationSafe(after, key)
            && (first.Renewed? ==> Current(after, key, first.token.refresh))
            && ((first.Faulted? || first.Abandoned?) && !Lost(stored, env.preemptive) ==>
                  Current(after, key, stored.refresh))
  {
    if Expiring(stored, env.now) {
      ExchangeKeepsCurrent(log, key, stored, env.preemptive);
    } else {
      assert log + [] == log;
    }
  }

  lemma ReconnectKeepsCurrent(log: seq<Event>, key: Key, stored: StoredToken, env: Env)
    requires Current(log, key, stored.refresh)
    ensures var row, after := Reconnect(stored, env).Row(), log + ExchangeTrace(key, stored, env.reactive);
            && RotationSafe(after, key)
            && (row.Some? && !Lost(stored, env.reactive) ==> Current(after, key, row.value.refresh))
  {
    ExchangeKeepsCurrent(log, key, stored, env.reactive);
  }

  /** After a whole call: the row it leaves is current again, unless a rotation was lost. */
  lemma ServeKeepsCurrent(log: seq<Event>, key: Key, stored: StoredToken, env: Env)
    requires Current(log, key, stored.refresh)
    ensures RotationSafe(log + ServeTrace(key, stored, env), key)
    ensures var row := Serve(stored, env).Row();
            row.Some? && !ServeLost(stored, env) ==>
              Current(log + ServeTrace(key, stored, env), key, row.value.refresh)
  {
    var first, second := PreemptiveTrace(key, stored, env), ReactiveTrace(key, stored, env);
    PreemptKeepsCurrent(log, key, stored, env);
    assert log + ServeTrace(key, stored, env) == log + first + second;
    if Reacts(stored, env) {
      ReconnectKeepsCurrent(log + first, key, Preempt(stored, env).token, env);
    } else {
      assert log + first + second == log + first;
    }
  }

  // The invariant -------------------------------------------------------

  /** `key`'s row is current, unless a rotation for it was lost. */
  predicate InvAt(s: State, key: Key) {
    key !in s.lost ==> Current(s.log, key, if key in s.vault then s.vault[key].refresh else None)
  }

  lemma SpawnKeepsOwn(configs: set<string>, s: State, key: Key, env: Env)
    requires InvAt(s, key)
    ensures InvAt(Apply(configs, s, Spawn(key, env)), key)
  {
    if Engages(configs, s, key, env) && key !in s.lost {
      ServeKeepsCurrent(s.log, key, s.vault[key], env);
    }
  }

  lemma TraceIsOfKey(key: Key, stored: StoredToken, env: Env)
    ensures forall e | e in ServeTrace(key, stored, env) :: e.key == key
  {
  }

  lemma SpawnKeepsOther(configs: set<string>, s: State, key: Key, env: Env, other: Key)
    requires InvAt(s, other) && other != key
    ensures InvAt(Apply(configs, s, Spawn(key, env)), other)
  {
    if Engages(configs, s, key, env) {
      TraceIsOfKey(key, s.vault[key], env);
      OtherKeysUnmoved(s.log, ServeTrace(key, s.vault[key], env), other);
    }
  }

  lemma CallbackKeepsInv(configs: set<string>, s: State, op: Op, k: Key)
    requires op.Callback? && InvAt(s, k)
    ensures InvAt(Apply(configs, s, op), k)
  {
    if op.response.refresh.Some? {
      LogNext(s.log, Issued(op.key, op.response.refresh.value), k);
    } else {
      assert s.log + [] == s.log;
    }
  }

  lemma ApplyKeepsInv(configs: set<string>, s: State, op: Op)
    requires forall k :: InvAt(s, k)
    ensures forall k :: InvAt(Apply(configs, s, op), k)
    ensures Undisturbed(op) ==> Apply(configs, s, op).lost == s.lost
  {
    forall k
      ensures InvAt(Apply(configs, s, op), k)
    {
      assert InvAt(s, k);
      if op.Spawn? {
        if k == op.key {
          SpawnKeepsOwn(configs, s, k, op.env);
        } else {
          SpawnKeepsOther(configs, s, op.key, op.env, k);
        }
      } else if op.Callback? {
        CallbackKeepsInv(configs, s, op, k);
      }
    }
  }

  lemma {:induction false} RunKeepsInv(configs: set<string>, ops: seq<Op>)
    ensures forall k :: InvAt(Run(configs, ops), k)
    ensures (forall op | op in ops :: Undisturbed(op)) ==> Run(configs, ops).lost == {}
  {
    if ops != [] {
      var front := ops[..|ops| - 1];
      RunKeepsInv(configs, front);
      ApplyKeepsInv(configs, Run(configs, front), ops[|ops| - 1]);
      assert forall op | op in front :: op in ops;
    }
  }

  /** Refresh rotation over every run: as long as no rotated token was lost (its reply or
      its write failed, and so did dropping the old one; or a callback's write failed),
      every grant for the key presented the refresh token most recently issued for it. */
  lemma EveryGrantIsCurrent(configs: set<string>, ops: seq<Op>, key: Key)
    requires key !in Run(configs, ops).lost
    ensures RotationSafe(Run(configs, ops).log, key)
  {
    RunKeepsInv(configs, ops);
    assert InvAt(Run(configs, ops), key);
  }

  /** Without vault errors nothing is ever lost. */
  lemma HealthyVaultIsSafe(configs: set<string>, ops: seq<Op>, key: Key)
    requires forall op | op in ops :: Undisturbed(op)
    ensures RotationSafe(Run(configs, ops).log, key)
  {
    RunKeepsInv(configs, ops);
    assert InvAt(Run(configs, ops), key);
  }

  /** A cached session always has a vault row behind it, in every reachable state. */
  lemma {:induction false} CachedImpliesStored(configs: set<string>, ops: seq<Op>, key: Key)
    requires key in Run(configs, ops).cache
    ensures key in Run(configs, ops).vault
  {
    var front, op := ops[..|ops| - 1], ops[|ops| - 1];
    if key in Run(configs, front).cache {
      CachedImpliesStored(configs, front, key);
    }
  }

  /** Session and vault agree when a call returns. */
  lemma CallOutcome(configs: set<string>, s: State, key: Key, env: Env, other: Key)
    requires key !in s.cache && other != key
    ensures var t, r := Apply(configs, s, Spawn(key, env)), SpawnResult(configs, s, key, env);
            && (r.Ok? ==> key in t.vault && t.vault[key].access == r.value && t.cache == s.cache[key := r.value])
            && (r.Err? ==> t.cache == s.cache)
            && (r == Err(NotConnected) ==> key !in t.vault)
            && (r.Err? && r.error != NotConnected ==> (key in t.vault <==> key in s.vault))
            && (Undisturbed(Spawn(key, env)) ==> r != Err(VaultFault) && t.lost == s.lost)
            && (other in t.vault <==> other in s.vault) && (other in s.vault ==> t.vault[other] == s.vault[other])
  {
  }

  /** No session opens on an expiring token without a grant first; a token still fresh
      whose connect works costs none. */
  lemma ConnectsFresh(key: Key, stored: StoredToken, env: Env)
    requires Serve(stored, env).Session?
    ensures Expiring(stored, env.now) ==>
              && stored.refresh.Some? && Exchange(stored, env.preemptive).Renewed?
              && ServeTrace(key, stored, env) != []
              && ServeTrace(key, stored, env)[0] == Presented(key, stored.refresh.value)
    ensures !Expiring(stored, env.now) && env.connect.Connected? ==> ServeTrace(key, stored, env) == []
    ensures env.connect.Connected? ==> Serve(stored, env).token == Preempt(stored, env).token
  {
  }

  // ---------------------------------------------------------------------
  // When a call is served, and with which token
  // ---------------------------------------------------------------------

  /** The grant yields a token, and the vault takes it. */
  predicate GoesThrough(refresh: Option<RefreshToken>, g: Grant) {
    !g.gone && refresh.Some? && g.clientKnown && g.granted.Some? && g.readable && g.upsertOk
  }

  /** The error of a grant that does not. */
  function GrantError(g: Grant): McpError {
    if g.gone then CallGone else if g.deleteOk then NotConnected else VaultFault
  }

  /** A call on a cache miss, decided by the row and the environment: it needs a row, a grant
      first when the row's expiry is at most 60 seconds away, and a connect, or a grant and a
      connect after a rejected one. The session is on the token last granted. */
  lemma SpawnDecides(configs: set<string>, s: State, key: Key, env: Env)
    requires key !in s.cache
    ensures SpawnResult(configs, s, key, env) ==
            if key.1 !in configs then Err(ServerNotConfigured)
            else if !env.readOk then Err(VaultFault)
            else if key !in s.vault then Err(NotConnected)
            else
              var row := s.vault[key];
              var due := row.expiresAt.Some? && ToI64(env.now) >= row.expiresAt.value - 60;
              if due && !GoesThrough(row.refresh, env.preemptive) then Err(GrantError(env.preemptive))
              else if env.connect.Connected? then Ok(if due then env.preemptive.granted.value.access else row.access)
              else if env.connect.OtherFailure? then Err(ConnectFailed)
              else if !GoesThrough(row.refresh, env.reactive) then Err(GrantError(env.reactive))
              else if env.reconnect.Connected? then Ok(env.reactive.granted.value.access)
              else Err(if env.finalDeleteOk then NotConnected else VaultFault)
  {
    if key in s.vault {
      var row := s.vault[key];
      ExchangeDecides(row, env.preemptive);
      ExchangeDecides(row, env.reactive);
      if GoesThrough(row.refresh, env.preemptive) {
        ExchangeDecides(Exchange(row, env.preemptive).token, env.reactive);
      }
    }
  }

  lemma ExchangeDecides(stored: StoredToken, g: Grant)
    ensures Exchange(stored, g).Renewed? <==> GoesThrough(stored.refresh, g)
    ensures GoesThrough(stored.refresh, g) ==>
              Exchange(stored, g).token.access == g.granted.value.access && Exchange(stored, g).token.refresh.Some?
    ensures !GoesThrough(stored.refresh, g) ==>
              match GrantError(g)
              case CallGone => Exchange(stored, g) == Abandoned
              case NotConnected => Exchange(stored, g) == Dropped
              case _ => Exchange(stored, g) == Faulted
  {
  }

  /** A token of lifetime `expiresIn`, got at `at`, is due for a refresh. */
  predicate Due(expiresIn: Option<nat>, at: nat, now: nat) {
    expiresIn.Some? && now >= at + expiresIn.value - 60
  }

  /** A token the callback stored is exchanged before its use exactly from 60 seconds before the
      end of its lifetime on, counted from when it was stored; until then, and for ever without
      a lifetime, the session opens on it as it is. */
  lemma CallbackThenSpawn(configs: set<string>, s: State, key: Key, response: TokenResponse, at: nat, env: Env)
    requires key !in s.cache && key.1 in configs && env.readOk && env.connect.Connected?
    requires env.now <= I64_MAX && (response.expiresIn.Some? ==> at + response.expiresIn.value <= I64_MAX)
    ensures var before := Apply(configs, s, Callback(key, response, at, true));
            var after, r := Apply(configs, before, Spawn(key, env)), SpawnResult(configs, before, key, env);
            && (!Due(response.expiresIn, at, env.now) ==> after.log == before.log && r == Ok(response.access))
            && (Due(response.expiresIn, at, env.now) && response.refresh.Some? && env.preemptive.clientKnown ==>
                  before.log < after.log && after.log[|before.log|] == Presented(key, response.refresh.value))
            && (Due(response.expiresIn, at, env.now) && response.refresh.None? ==>
                  GrantError(env.preemptive) == NotConnected ==> r == Err(NotConnected) && key !in after.vault)
  {
    var before := Apply(configs, s, Callback(key, response, at, true));
    var stored := before.vault[key];
    assert stored == response.IntoStoredToken(None, at);
    TokenIsDue(response, None, at, env.now);
    assert before.log + [] == before.log;
  }

  lemma TokenIsDue(response: TokenResponse, fallback: Option<RefreshToken>, at: nat, now: nat)
    requires now <= I64_MAX && (response.expiresIn.Some? ==> at + response.expiresIn.value <= I64_MAX)
    ensures Expiring(response.IntoStoredToken(fallback, at), now) <==> Due(response.expiresIn, at, now)
  {
  }

  /** The same for a token a grant renewed, once its session is gone from the cache. A server
      that does not rotate leaves the refresh token it was asked with. */
  lemma GrantThenSpawn(configs: set<string>, s: State, key: Key, first: Env, env: Env)
    requires key !in s.cache && key.1 in configs && first.readOk && key in s.vault
    requires Expiring(s.vault[key], first.now) && GoesThrough(s.vault[key].refresh, first.preemptive)
    requires first.connect.Connected? && env.readOk && env.connect.Connected? && env.now <= I64_MAX
    requires var got := first.preemptive.granted.value.expiresIn;
             got.Some? ==> first.preemptive.at + got.value <= I64_MAX
    ensures var got, at := first.preemptive.granted.value, first.preemptive.at;
            var refresh := if got.refresh.Some? then got.refresh.value else s.vault[key].refresh.value;
            var before := Apply(configs, Apply(configs, s, Spawn(key, first)), Evict(key));
            var after, r := Apply(configs, before, Spawn(key, env)), SpawnResult(configs, before, key, env);
            && SpawnResult(configs, s, key, first) == Ok(got.access)
            && (!Due(got.expiresIn, at, env.now) ==> after.log == before.log && r == Ok(got.access))
            && (Due(got.expiresIn, at, env.now) && env.preemptive.clientKnown ==>
                  before.log < after.log && after.log[|before.log|] == Presented(key, refresh))
  {
    var before := Apply(configs, Apply(configs, s, Spawn(key, first)), Evict(key));
    var row, got := s.vault[key], first.preemptive.granted.value;
    assert Exchange(row, first.preemptive) == Renewed(got.IntoStoredToken(row.refresh, first.preemptive.at));
    assert before.vault[key] == got.IntoStoredToken(row.refresh, first.preemptive.at) && key !in before.cache;
    TokenIsDue(got, row.refresh, first.preemptive.at, env.now);
    assert before.log + [] == before.log;
  }

  // ---------------------------------------------------------------------
  // The pool
  // ---------------------------------------------------------------------

  class UserMcpPool {
    const configs: set<string>
    var cache: map<Key, AccessToken>
    var vault: map<Key, StoredToken>
    ghost var log: seq<Event>
    ghost var lost: set<Key>

    ghost function Abstract(): State
      reads this
    {
      State(cache, vault, log, lost)
    }

    constructor (configs: set<string>)
      ensures this.configs == configs && Abstract() == Run(configs, [])
    {
      this.configs := configs;
      cache, vault, log, lost := map[], map[], [], {};
    }

    /** The refresh-token grant, then the vault write. */
    method Refresh(key: Key, token: RefreshToken, g: Grant) returns (r: Result<StoredToken, McpError>)
      modifies this`vault, this`log
      ensures r.Ok? <==> g.clientKnown && !g.gone && g.Response().Some? && g.upsertOk
      ensures r.Ok? ==> r.value == g.Response().value.IntoStoredToken(Some(token), g.at)
      ensures vault == if r.Ok? then old(vault)[key := r.value] else old(vault)
      ensures log == old(log) + ExchangeTrace(key, StoredToken("", None, Some(token)), g)
    {
      if !g.clientKnown {
        return Err(NotConnected);
      }
      log := log + ExchangeTrace(key, StoredToken("", None, Some(token)), g);
      if g.gone {
        return Err(CallGone);
      }
      var response := g.Response();
      if response.None? {
        return Err(ConnectFailed);
      }
      var renewed := response.value.IntoStoredToken(Some(token), g.at);
      if !g.upsertOk {
        return Err(VaultFault);
      }
      vault := vault[key := renewed];
      return Ok(renewed);
    }

    method RefreshOrForceReauth(key: Key, stored: StoredToken, g: Grant) returns (r: Result<StoredToken, McpError>)
      modifies this`vault, this`log, this`lost
      ensures match Exchange(stored, g)
              case Renewed(t) => r == Ok(t) && vault == old(vault)[key := t]
              case Dropped => r == Err(NotConnected) && vault == old(vault) - {key}
              case Faulted => r == Err(VaultFault) && vault == old(vault)
              case Abandoned => r == Err(CallGone) && vault == old(vault)
      ensures log == old(log) + ExchangeTrace(key, stored, g)
      ensures lost == old(lost) + if Lost(stored, g) then {key} else {}
    {
      if stored.refresh.Some? {
        var attempt := Refresh(key, stored.refresh.value, g);
        if attempt.Ok? {
          return attempt;
        }
      }
      if g.gone {
        lost := lost + if Lost(stored, g) then {key} else {};
        return Err(CallGone);
      }
      if !g.deleteOk {
        lost := lost + if Lost(stored, g) then {key} else {};
        return Err(VaultFault);
      }
      vault := vault - {key};
      return Err(NotConnected);
    }

    method RefreshIfExpiring(key: Key, stored: StoredToken, env: Env) returns (r: Result<StoredToken, McpError>)
      modifies this`vault, this`log, this`lost
      ensures match Preempt(stored, env)
              case Renewed(t) =>
                r == Ok(t) && vault == if Expiring(stored, env.now) then old(vault)[key := t] else old(vault)
              case Dropped => r == Err(NotConnected) && vault == old(vault) - {key}
              case Faulted => r == Err(VaultFault) && vault == old(vault)
              case Abandoned => r == Err(CallGone) && vault == old(vault)
      ensures log == old(log) + if Expiring(stored, env.now) then ExchangeTrace(key, stored, env.preemptive) else []
      ensures lost == old(lost) + if Expiring(stored, env.now) && Lost(stored, env.preemptive) then {key} else {}
    {
      if stored.expiresAt.None? {
        return Ok(stored);
      }
      if ToI64(env.now) < stored.expiresAt.value - EXPIRY_MARGIN_SECS {
        return Ok(stored);
      }
      r := RefreshOrForceReauth(key, stored, env.preemptive);
    }

    /** The reactive path, after the endpoint rejected the stored token. */
    method ReconnectAfterRefresh(key: Key, stored: StoredToken, env: Env) returns (r: Result<StoredToken, McpError>)
      modifies this`vault, this`log, this`lost
      ensures match Exchange(stored, env.reactive)
              case Dropped => r == Err(NotConnected) && vault == old(vault) - {key}
              case Faulted => r == Err(VaultFault) && vault == old(vault)
              case Abandoned => r == Err(CallGone) && vault == old(vault)
              case Renewed(u) =>
                if env.reconnect.Connected? then r == Ok(u) && vault == old(vault)[key := u]
                else if env.finalDeleteOk then r == Err(NotConnected) && vault == old(vault) - {key}
                else r == Err(VaultFault) && vault == old(vault)[key := u]
      ensures log == old(log) + ExchangeTrace(key, stored, env.reactive)
      ensures lost == old(lost) + if Lost(stored, env.reactive) then {key} else {}
    {
      r := RefreshOrForceReauth(key, stored, env.reactive);
      if r.Ok? && !env.reconnect.Connected? {
        if !env.finalDeleteOk {
          return Err(VaultFault);
        }
        vault := vault - {key};
        return Err(NotConnected);
      }
    }

    /** Past the lookups: refresh if expiring, connect, and retry once on a rejected token. */
    method Open(key: Key, stored: StoredToken, env: Env) returns (r: Result<StoredToken, McpError>)
      requires key in vault && vault[key] == stored
      modifies this`vault, this`log, this`lost
      ensures match Serve(stored, env)
              case Session(t) => r == Ok(t) && vault == old(vault)[key := t]
              case Refused(row, e) => r == Err(e) && vault == Put(old(vault), key, row)
      ensures log == old(log) + ServeTrace(key, stored, env)
      ensures lost == if ServeLost(stored, env) then old(lost) + {key} else old(lost)
    {
      var first := RefreshIfExpiring(key, stored, env);
      assert log + [] == log;
      if first.Err? {
        return first;
      }
      assert vault == old(vault)[key := first.value];
      match env.connect {
        case Connected => return first;
        case OtherFailure => return Err(ConnectFailed);
        case AuthFailure =>
          r := ReconnectAfterRefresh(key, first.value, env);
          assert old(vault)[key := first.value] - {key} == old(vault) - {key};
      }
    }

    method GetOrSpawn(key: Key, env: Env) returns (r: Result<AccessToken, McpError>)
      modifies this`cache, this`vault, this`log, this`lost
      ensures Abstract() == Apply(configs, old(Abstract()), Spawn(key, env))
      ensures r == SpawnResult(configs, old(Abstract()), key, env)
    {
      if key in cache {
        return Ok(cache[key]);
      }
      if key.1 !in configs {
        return Err(ServerNotConfigured);
      }
      if !env.readOk {
        return Err(VaultFault);
      }
      if key !in vault {
        return Err(NotConnected);
      }
      var session := Open(key, vault[key], env);
      if session.Err? {
        return Err(session.error);
      }
      cache := cache[key := session.value.access];
      return Ok(session.value.access);
    }

    /** The OAuth callback stores what the code exchange returned. */
    method HandleCallback(key: Key, response: TokenResponse, at: nat, upsertOk: bool)
      modifies this`vault, this`log, this`lost
      ensures Abstract() == Apply(configs, old(Abstract()), Callback(key, response, at, upsertOk))
    {
      if response.refresh.Some? {
        log := log + [Issued(key, response.refresh.value)];
      }
      if upsertOk {
        vault := vault[key := response.IntoStoredToken(None, at)];
      } else if response.refresh.Some? {
        lost := lost + {key};
      }
    }

    /** Capacity or idle eviction by the cache itself. */
    method EvictSession(key: Key)
      modifies this`cache
      ensures Abstract() == Apply(configs, old(Abstract()), Evict(key))
    {
      cache := cache - {key};
    }
  }
}
