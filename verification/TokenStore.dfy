/** `auth::TokenStore`: API tokens, their spend ledger and their budgets. Amounts
    are integer micro-dollars. */
module TokenStore {
  import opened Outcomes
  import Calendar

  datatype BudgetKind = MonthlyKind | TotalKind | UnlimitedKind {
    function AsStr(): string {
      match this
      case MonthlyKind => "monthly"
      case TotalKind => "total"
      case UnlimitedKind => "unlimited"
    }
  }

  function ParseKind(s: string): Option<BudgetKind> {
    if s == "monthly" then Some(MonthlyKind)
    else if s == "total" then Some(TotalKind)
    else if s == "unlimited" then Some(UnlimitedKind)
    else None
  }

  datatype Budget = Monthly(limit: int) | Total(limit: int) | Unlimited {
    /** The `budget_kind` and `budget_micro_usd` columns. */
    function ToDb(): (BudgetKind, Option<int>) {
      match this
      case Monthly(limit) => (MonthlyKind, Some(limit))
      case Total(limit) => (TotalKind, Some(limit))
      case Unlimited => (UnlimitedKind, None)
    }

    /** An unrecognised kind, or a capped kind with no limit, fails open. */
    static function FromDb(kind: string, limit: Option<int>): Budget {
      match (ParseKind(kind), limit)
      case (Some(MonthlyKind), Some(l)) => Monthly(l)
      case (Some(TotalKind), Some(l)) => Total(l)
      case _ => Unlimited
    }
  }

  lemma BudgetRoundTrip(budget: Budget)
    ensures Budget.FromDb(budget.ToDb().0.AsStr(), budget.ToDb().1) == budget
    ensures (budget.ToDb().0.AsStr(), budget.ToDb().1) ==
            match budget
            case Monthly(limit) => ("monthly", Some(limit))
            case Total(limit) => ("total", Some(limit))
            case Unlimited => ("unlimited", None)
  {
    assert "monthly"[0] != "total"[0] && "monthly"[0] != "unlimited"[0] && "total"[0] != "unlimited"[0];
  }

  /** A kind nobody wrote, or a cap without a limit, means no cap. */
  lemma OddColumnsFailOpen(kind: string, limit: Option<int>)
    requires limit.None? || (kind != "monthly" && kind != "total")
    ensures Budget.FromDb(kind, limit) == Unlimited
  {
  }

  type TokenId = string

  datatype TokenRow = TokenRow(
    budgetKind: string, budgetLimit: Option<int>, createdAt: int, caption: string,
    lastUsedAt: Option<int>, principal: string, revokedAt: Option<int>, secretHash: string)
  {
    function Cap(): Budget { Budget.FromDb(budgetKind, budgetLimit) }
  }

  datatype Charge = Charge(token: TokenId, cost: int, at: int)

  /** Both tables. */
  datatype Tables = Tables(tokens: map<TokenId, TokenRow>, usage: seq<Charge>)

  /** `spend_since`. */
  function SpendSince(usage: seq<Charge>, id: TokenId, since: int): int {
    if usage == [] then 0 else
      var c := usage[|usage| - 1];
      SpendSince(usage[..|usage| - 1], id, since) + if c.token == id && c.at >= since then c.cost else 0
  }

  /** Where the budget's window opens, if it has one. */
  function WindowOpens(budget: Budget, now: nat): int {
    if budget.Monthly? then ToI64(Calendar.MonthStartSecs(now)) else 0
  }

  /** An unrevoked capped token whose window spend has met its limit. */
  predicate Exceeded(t: Tables, id: TokenId, now: nat) {
    && id in t.tokens && t.tokens[id].revokedAt.None?
    && var budget := t.tokens[id].Cap();
       !budget.Unlimited? && SpendSince(t.usage, id, WindowOpens(budget, now)) >= budget.limit
  }

  /** What every operation keeps: charges are positive, and no two tokens share a
      secret. */
  predicate WellFormed(t: Tables) {
    && (forall c | c in t.usage :: c.cost > 0 && c.at >= 0)
    && (forall a, b | a in t.tokens && b in t.tokens && a != b :: t.tokens[a].secretHash != t.tokens[b].secretHash)
  }

  /** How any run of operations can move the tables: tokens are never dropped or
      re-budgeted, revocation is final, and the ledger only grows. */
  predicate Advances(s: Tables, t: Tables) {
    && s.usage <= t.usage
    && forall id | id in s.tokens ::
         && id in t.tokens
         && t.tokens[id].Cap() == s.tokens[id].Cap()
         && t.tokens[id].secretHash == s.tokens[id].secretHash
         && t.tokens[id].principal == s.tokens[id].principal
         && (s.tokens[id].revokedAt.Some? ==> t.tokens[id].revokedAt == s.tokens[id].revokedAt)
  }

  lemma AdvancesTransitive(a: Tables, b: Tables, c: Tables)
    requires Advances(a, b) && Advances(b, c)
    ensures Advances(a, c)
  {
  }

  lemma {:induction false} SpendGrows(usage: seq<Charge>, more: seq<Charge>, id: TokenId, since: int)
    requires usage <= more && forall c | c in more :: c.cost > 0
    ensures SpendSince(usage, id, since) <= SpendSince(more, id, since)
    decreases |more|
  {
    if usage != more {
      assert usage <= more[..|more| - 1];
      SpendGrows(usage, more[..|more| - 1], id, since);
    }
  }

  lemma {:induction false} SpendNarrows(usage: seq<Charge>, id: TokenId, early: int, late: int)
    requires early <= late && forall c | c in usage :: c.cost > 0
    ensures 0 <= SpendSince(usage, id, late) <= SpendSince(usage, id, early)
  {
    if usage != [] {
      SpendNarrows(usage[..|usage| - 1], id, early, late);
    }
  }

  /** A lifetime cap, once met, stays met until the token is revoked; a monthly cap
      stays met for as long as the clock is in the same month. */
  lemma ExceededIsSticky(s: Tables, t: Tables, id: TokenId, now: nat, later: nat)
    requires Advances(s, t) && WellFormed(t)
    requires Exceeded(s, id, now) && t.tokens[id].revokedAt.None?
    requires s.tokens[id].Cap().Total? || Calendar.MonthStartSecs(later) == Calendar.MonthStartSecs(now)
    ensures Exceeded(t, id, later)
  {
    SpendGrows(s.usage, t.usage, id, WindowOpens(s.tokens[id].Cap(), now));
  }

  datatype BudgetError = BudgetExceeded(limit: int, spent: int)
  datatype NewToken = NewToken(budget: Budget, caption: string, principal: string)
  datatype VerifiedToken = VerifiedToken(id: TokenId, principal: string)
  datatype TokenRecord = TokenRecord(
    id: TokenId, budget: Budget, createdAt: int, revokedAt: Option<int>, periodSpend: int, spend: int)

  /** What the studio shows for one token. */
  function RecordOf(t: Tables, id: TokenId, now: nat): TokenRecord
    requires id in t.tokens
  {
    var row := t.tokens[id];
    var lifetime := SpendSince(t.usage, id, 0);
    var month := ToI64(Calendar.MonthStartSecs(now));
    TokenRecord(id, row.Cap(), row.createdAt, row.revokedAt,
                if row.Cap().Monthly? then SpendSince(t.usage, id, month) else lifetime, lifetime)
  }

  /** The listed period spend is the very sum the budget gate compares, and it is
      never more than the lifetime spend. */
  lemma ListingMatchesGate(t: Tables, id: TokenId, now: nat)
    requires WellFormed(t) && id in t.tokens
    ensures var r := RecordOf(t, id, now);
            && 0 <= r.periodSpend <= r.spend
            && (r.revokedAt.None? && !r.budget.Unlimited? ==>
                  (Exceeded(t, id, now) <==> r.periodSpend >= r.budget.limit))
  {
    SpendNarrows(t.usage, id, 0, ToI64(Calendar.MonthStartSecs(now)));
  }

  /** What one more charge changes: the lifetime spend of its own token, and the period spend if
      that is not monthly or the charge is of this month. */
  lemma ChargeCounts(t: Tables, c: Charge, id: TokenId, now: nat)
    requires id in t.tokens && c.at >= 0
    ensures var before, after := RecordOf(t, id, now), RecordOf(t.(usage := t.usage + [c]), id, now);
            && after.spend == before.spend + (if c.token == id then c.cost else 0)
            && after.periodSpend == before.periodSpend +
               if c.token == id && (!before.budget.Monthly? || c.at >= ToI64(Calendar.MonthStartSecs(now)))
               then c.cost else 0
    ensures t.usage == [] ==> RecordOf(t, id, now).spend == RecordOf(t, id, now).periodSpend == 0
  {
    hide Calendar.MonthStartSecs;
    assert (t.usage + [c])[..|t.usage|] == t.usage;
  }

  /** A new month reopens a monthly budget: with every charge before the first of the month,
      nothing counts and the gate lets requests through. */
  lemma NewMonthReopens(t: Tables, id: TokenId, now: nat)
    requires id in t.tokens && t.tokens[id].Cap().Monthly? && t.tokens[id].Cap().limit > 0
    requires forall c | c in t.usage && c.token == id :: c.at < ToI64(Calendar.MonthStartSecs(now))
    ensures RecordOf(t, id, now).periodSpend == 0 && !Exceeded(t, id, now)
  {
    hide Calendar.MonthStartSecs;
    NothingSince(t.usage, id, ToI64(Calendar.MonthStartSecs(now)));
  }

  lemma {:induction false} NothingSince(usage: seq<Charge>, id: TokenId, since: int)
    requires forall c | c in usage && c.token == id :: c.at < since
    ensures SpendSince(usage, id, since) == 0
  {
    if usage != [] {
      NothingSince(usage[..|usage| - 1], id, since);
      assert usage[|usage| - 1] in usage;
    }
  }

  /** The rest of a listed row is the token's. */
  lemma RecordShowsToken(t: Tables, id: TokenId, now: nat)
    requires id in t.tokens
    ensures var r, row := RecordOf(t, id, now), t.tokens[id];
            && r.id == id && r.createdAt == row.createdAt && r.revokedAt == row.revokedAt
            && r.budget == Budget.FromDb(row.budgetKind, row.budgetLimit)
  {
  }

  class TokenStore {
    var tokens: map<TokenId, TokenRow>
    var usage: seq<Charge>

    function State(): Tables
      reads this
    {
      Tables(tokens, usage)
    }

    ghost predicate Valid()
      reads this
    {
      WellFormed(State())
    }

    constructor ()
      ensures Valid() && State() == Tables(map[], [])
    {
      tokens, usage := map[], [];
    }

    /** `id` and `secretHash` stand for the fresh random id and secret; the table's
        uniqueness constraints reject a clash. */
    method Mint(id: TokenId, secretHash: string, token: NewToken, now: nat) returns (ok: bool)
      requires Valid()
      modifies this
      ensures Valid() && Advances(old(State()), State())
      ensures ok <==>
              id !in old(tokens) && forall other | other in old(tokens) :: old(tokens)[other].secretHash != secretHash
      ensures usage == old(usage)
      ensures !ok ==> tokens == old(tokens)
      ensures ok ==>
                && id in tokens && tokens == old(tokens)[id := tokens[id]]
                && tokens[id].Cap() == token.budget && tokens[id].principal == token.principal
                && tokens[id].secretHash == secretHash && tokens[id].revokedAt.None?
                && tokens[id].createdAt == ToI64(now) && tokens[id].caption == token.caption
                && tokens[id].lastUsedAt.None?
    {
      if id in tokens || exists other | other in tokens :: tokens[other].secretHash == secretHash {
        return false;
      }
      var (kind, limit) := token.budget.ToDb();
      var row := TokenRow(kind.AsStr(), limit, ToI64(now), token.caption, None, token.principal, None, secretHash);
      tokens := tokens[id := row];
      BudgetRoundTrip(token.budget);
      return true;
    }

    method Revoke(id: TokenId, now: nat) returns (updated: bool)
      requires Valid()
      modifies this
      ensures Valid() && Advances(old(State()), State()) && usage == old(usage)
      ensures updated <==> id in old(tokens) && old(tokens)[id].revokedAt.None?
      ensures tokens ==
              if updated then old(tokens)[id := old(tokens)[id].(revokedAt := Some(ToI64(now)))] else old(tokens)
    {
      if id in tokens && tokens[id].revokedAt.None? {
        tokens := tokens[id := tokens[id].(revokedAt := Some(ToI64(now)))];
        return true;
      }
      return false;
    }

    /** Resolves the digest of a presented secret; a hit stamps `last_used_at`. */
    method Verify(secretHash: string, now: nat) returns (r: Option<VerifiedToken>)
      requires Valid()
      modifies this
      ensures Valid() && Advances(old(State()), State()) && usage == old(usage)
      ensures r.None? <==>
              forall id | id in old(tokens) && old(tokens)[id].revokedAt.None? ::
                old(tokens)[id].secretHash != secretHash
      ensures r.None? ==> tokens == old(tokens)
      ensures r.Some? ==>
                var id := r.value.id;
                && id in old(tokens) && old(tokens)[id].secretHash == secretHash && old(tokens)[id].revokedAt.None?
                && r.value.principal == old(tokens)[id].principal
                && tokens == old(tokens)[id := old(tokens)[id].(lastUsedAt := Some(ToI64(now)))]
    {
      if id :| id in tokens && tokens[id].secretHash == secretHash && tokens[id].revokedAt.None? {
        r := Some(VerifiedToken(id, tokens[id].principal));
        tokens := tokens[id := tokens[id].(lastUsedAt := Some(ToI64(now)))];
      } else {
        r := None;
      }
    }

    /** The gate before each provider call: it rejects exactly the exceeded tokens. */
    method CheckBudgetAt(id: TokenId, now: nat) returns (r: Result<(), BudgetError>)
      requires Valid()
      ensures r.Err? <==> Exceeded(State(), id, now)
      ensures r.Err? ==>
                && !tokens[id].Cap().Unlimited? && r.error.limit == tokens[id].Cap().limit
                && r.error.limit <= r.error.spent == RecordOf(State(), id, now).periodSpend
    {
      if id !in tokens || tokens[id].revokedAt.Some? {
        return Ok(());
      }
      var since, limit := 0, 0;
      match Budget.FromDb(tokens[id].budgetKind, tokens[id].budgetLimit) {
        case Monthly(l) => since, limit := ToI64(Calendar.MonthStartSecs(now)), l;
        case Total(l) => since, limit := 0, l;
        case Unlimited => return Ok(());
      }
      var spent := SpendSince(usage, id, since);
      if spent >= limit {
        return Err(BudgetExceeded(limit, spent));
      }
      return Ok(());
    }

    /** Appends to the ledger; free turns leave no row. */
    method RecordSpendAt(id: TokenId, microUsd: int, at: nat)
      requires Valid()
      modifies this
      ensures Valid() && Advances(old(State()), State()) && tokens == old(tokens)
      ensures usage == if microUsd <= 0 then old(usage) else old(usage) + [Charge(id, microUsd, ToI64(at))]
    {
      if microUsd > 0 {
        usage := usage + [Charge(id, microUsd, ToI64(at))];
      }
    }

    /** `ORDER BY created_at DESC`, one row at a time. */
    method Newest(ids: set<TokenId>) returns (id: TokenId)
      requires ids != {} && ids <= tokens.Keys
      ensures id in ids && forall other | other in ids :: tokens[id].createdAt >= tokens[other].createdAt
    {
      NewestExists(tokens, ids);
      id :| id in ids && forall other | other in ids :: tokens[id].createdAt >= tokens[other].createdAt;
    }

    /** The whole query: every id once, newest first. */
    method NewestFirst() returns (ids: seq<TokenId>)
      ensures |ids| == |tokens| && forall id :: id in ids <==> id in tokens
      ensures forall i, j | 0 <= i < j < |ids| :: tokens[ids[i]].createdAt >= tokens[ids[j]].createdAt
    {
      ids := [];
      var rest := tokens.Keys;
      while rest != {}
        invariant rest <= tokens.Keys && |ids| + |rest| == |tokens|
        invariant forall id :: id in ids <==> id in tokens && id !in rest
        invariant forall i, id | 0 <= i < |ids| && id in rest :: tokens[ids[i]].createdAt >= tokens[id].createdAt
        invariant forall i, j | 0 <= i < j < |ids| :: tokens[ids[i]].createdAt >= tokens[ids[j]].createdAt
        decreases rest
      {
        var id := Newest(rest);
        ids, rest := ids + [id], rest - {id};
      }
    }

    /** Every token once, newest first. */
    method ListAt(now: nat) returns (records: seq<TokenRecord>)
      requires Valid()
      ensures |records| == |tokens|
      ensures forall r | r in records :: r.id in tokens && r == RecordOf(State(), r.id, now)
      ensures forall id | id in tokens :: RecordOf(State(), id, now) in records
      ensures forall i, j | 0 <= i < j < |records| :: records[i].createdAt >= records[j].createdAt
    {
      var t := State();
      var ids := NewestFirst();
      records := [];
      for i := 0 to |ids|
        invariant Shows(t, ids[..i], now, records)
      {
        assert ids[i] in ids;
        var record := RecordOf(t, ids[i], now);
        ShowsNext(t, ids, i, now, records, record);
        records := records + [record];
      }
      assert ids[..|ids|] == ids;
      ListingIsComplete(t, ids, now, records);
    }
  }

  predicate Shows(t: Tables, ids: seq<TokenId>, now: nat, records: seq<TokenRecord>) {
    |records| == |ids| && forall k | 0 <= k < |ids| :: ids[k] in t.tokens && records[k] == RecordOf(t, ids[k], now)
  }

  lemma ShowsNext(t: Tables, ids: seq<TokenId>, i: nat, now: nat, records: seq<TokenRecord>, record: TokenRecord)
    requires i < |ids| && Shows(t, ids[..i], now, records) && ids[i] in t.tokens && record == RecordOf(t, ids[i], now)
    ensures Shows(t, ids[..i + 1], now, records + [record])
  {
    assert ids[..i + 1] == ids[..i] + [ids[i]];
  }

  lemma ListingIsComplete(t: Tables, ids: seq<TokenId>, now: nat, records: seq<TokenRecord>)
    requires Shows(t, ids, now, records) && forall id | id in t.tokens :: id in ids
    requires forall i, j | 0 <= i < j < |ids| :: ids[i] in t.tokens && ids[j] in t.tokens ==>
               t.tokens[ids[i]].createdAt >= t.tokens[ids[j]].createdAt
    ensures forall r | r in records :: r.id in t.tokens && r == RecordOf(t, r.id, now)
    ensures forall id | id in t.tokens :: RecordOf(t, id, now) in records
    ensures forall i, j | 0 <= i < j < |records| :: records[i].createdAt >= records[j].createdAt
  {
    forall r | r in records ensures r.id in t.tokens && r == RecordOf(t, r.id, now) {
      var k :| 0 <= k < |records| && records[k] == r;
      assert r == RecordOf(t, ids[k], now);
    }
    forall id | id in t.tokens ensures RecordOf(t, id, now) in records {
      var k :| 0 <= k < |ids| && ids[k] == id;
      assert records[k] == RecordOf(t, id, now);
    }
    forall i, j | 0 <= i < j < |records| ensures records[i].createdAt >= records[j].createdAt {
      assert records[i] == RecordOf(t, ids[i], now) && records[j] == RecordOf(t, ids[j], now);
    }
  }

  lemma {:induction false} NewestExists(tokens: map<TokenId, TokenRow>, ids: set<TokenId>)
    requires ids != {} && ids <= tokens.Keys
    ensures exists id :: id in ids && forall other | other in ids :: tokens[id].createdAt >= tokens[other].createdAt
  {
    var a :| a in ids;
    if ids != {a} {
      NewestExists(tokens, ids - {a});
      var b :| b in ids - {a} && forall other | other in ids - {a} :: tokens[b].createdAt >= tokens[other].createdAt;
      var newest := if tokens[a].createdAt >= tokens[b].createdAt then a else b;
      assert forall other | other in ids :: tokens[newest].createdAt >= tokens[other].createdAt;
    }
  }
}
