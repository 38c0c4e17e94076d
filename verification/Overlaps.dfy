/** Calls that overlap: each has read the vault row before any of them refreshes, and their
    grants reach the token endpoint in any order. A call dropped half way is here too. */
module Overlaps {
  import opened Outcomes
  import opened Pool

  /** `m` is `a` and `b` merged, each in its own order. */
  predicate Interleaves<T(==)>(a: seq<T>, b: seq<T>, m: seq<T>)
    decreases |m|
  {
    if m == [] then a == [] && b == []
    else
      || (a != [] && a[0] == m[0] && Interleaves(a[1..], b, m[1..]))
      || (b != [] && b[0] == m[0] && Interleaves(a, b[1..], m[1..]))
  }

  /** The grants of one call; the token endpoint answers each as a whole. */
  function Grants(key: Key, stored: StoredToken, env: Env): seq<seq<Event>> {
    [PreemptiveTrace(key, stored, env), ReactiveTrace(key, stored, env)]
  }

  function Flat<T>(parts: seq<seq<T>>): seq<T> {
    if parts == [] then [] else parts[0] + Flat(parts[1..])
  }

  /** One call makes no grant, or the server rotates in none: what it issues, if anything, is
      the refresh token the row already holds. */
  predicate RotatesNone(a: seq<Event>, b: seq<Event>, refresh: Option<RefreshToken>) {
    a == [] || b == [] || forall e | e in a + b && e.Issued? :: refresh == Some(e.token)
  }

  ghost predicate EveryOrderSafe(log: seq<Event>, key: Key, a: seq<Event>, b: seq<Event>) {
    forall m | Interleaves(a, b, m) :: RotationSafe(log + m, key)
  }

  ghost predicate EveryGrantOrderSafe(log: seq<Event>, key: Key, a: seq<seq<Event>>, b: seq<seq<Event>>) {
    forall m | Interleaves(a, b, m) :: RotationSafe(log + Flat(m), key)
  }

  /** Two calls that read the same row before either refreshes, their grants in any order:
      every order is safe if and only if one of them makes no grant or the server rotates in
      none — whether grants interleave whole or event by event. */
  lemma OverlappingCallsSafeIff(log: seq<Event>, key: Key, stored: StoredToken, a: Env, b: Env)
    requires Current(log, key, stored.refresh)
    ensures var ta, tb := ServeTrace(key, stored, a), ServeTrace(key, stored, b);
            var fine := RotatesNone(ta, tb, stored.refresh);
            && (EveryOrderSafe(log, key, ta, tb) <==> fine)
            && (EveryGrantOrderSafe(log, key, Grants(key, stored, a), Grants(key, stored, b)) <==> fine)
  {
    var ta, tb := ServeTrace(key, stored, a), ServeTrace(key, stored, b);
    var ga, gb := Grants(key, stored, a), Grants(key, stored, b);
    FlatGrants(key, stored, a);
    FlatGrants(key, stored, b);
    WholeGrantsAreEvents(log, key, ga, gb);
    if RotatesNone(ta, tb, stored.refresh) {
      RotatingNoneIsSafe(log, key, stored, a, b);
    } else if e :| e in ta && e.Issued? && stored.refresh != Some(e.token) {
      RotationBetweenGrants(log, key, stored, a, b, e);
    } else {
      var f :| f in tb && f.Issued? && stored.refresh != Some(f.token);
      RotationBetweenGrants(log, key, stored, b, a, f);
      GrantOrderIsSymmetric(log, key, gb, ga);
    }
  }

  lemma FlatGrants(key: Key, stored: StoredToken, env: Env)
    ensures Flat(Grants(key, stored, env)) == ServeTrace(key, stored, env)
  {
    var first, second := PreemptiveTrace(key, stored, env), ReactiveTrace(key, stored, env);
    assert Flat([second]) == second;
    assert [first, second][1..] == [second];
  }

  lemma {:induction false} FlatAppend(a: seq<seq<Event>>, b: seq<seq<Event>>)
    ensures Flat(a + b) == Flat(a) + Flat(b)
  {
    if a == [] {
      assert a + b == b;
    } else {
      FlatAppend(a[1..], b);
      assert (a + b)[1..] == a[1..] + b;
      assert Flat(a + b) == a[0] + Flat(a[1..] + b);
    }
  }

  lemma FlatSpliced(front: seq<seq<Event>>, grant: seq<Event>, b: seq<seq<Event>>, rest: seq<seq<Event>>)
    ensures Flat(front + [grant] + (b + rest)) == Flat(front) + grant + (Flat(b) + Flat(rest))
  {
    FlatAppend(front + [grant], b + rest);
    FlatAppend(front, [grant]);
    FlatAppend(b, rest);
    assert Flat([grant]) == grant;
  }

  // Interleavings -------------------------------------------------------

  lemma {:induction false} InterleavedMembers<T>(a: seq<T>, b: seq<T>, m: seq<T>, x: T)
    requires Interleaves(a, b, m) && x in m
    ensures x in a || x in b
    decreases |m|
  {
    if x != m[0] {
      assert x in m[1..];
      if a != [] && a[0] == m[0] && Interleaves(a[1..], b, m[1..]) {
        InterleavedMembers(a[1..], b, m[1..], x);
      } else {
        InterleavedMembers(a, b[1..], m[1..], x);
      }
    }
  }

  lemma {:induction false} InterleavedWithNone<T>(a: seq<T>, b: seq<T>, m: seq<T>)
    requires Interleaves(a, b, m)
    ensures a == [] ==> m == b
    ensures b == [] ==> m == a
    decreases |m|
  {
    if m != [] {
      if a != [] && a[0] == m[0] && Interleaves(a[1..], b, m[1..]) {
        InterleavedWithNone(a[1..], b, m[1..]);
      } else {
        InterleavedWithNone(a, b[1..], m[1..]);
      }
    }
  }

  lemma {:induction false} InterleavesIsSymmetric<T>(a: seq<T>, b: seq<T>, m: seq<T>)
    requires Interleaves(a, b, m)
    ensures Interleaves(b, a, m)
    decreases |m|
  {
    if m != [] {
      if a != [] && a[0] == m[0] && Interleaves(a[1..], b, m[1..]) {
        InterleavesIsSymmetric(a[1..], b, m[1..]);
      } else {
        InterleavesIsSymmetric(a, b[1..], m[1..]);
      }
    }
  }

  lemma GrantOrderIsSymmetric(log: seq<Event>, key: Key, a: seq<seq<Event>>, b: seq<seq<Event>>)
    requires !EveryGrantOrderSafe(log, key, a, b)
    ensures !EveryGrantOrderSafe(log, key, b, a)
  {
    var m :| Interleaves(a, b, m) && !RotationSafe(log + Flat(m), key);
    InterleavesIsSymmetric(a, b, m);
  }

  lemma {:induction false} InterleavesAfter<T>(p: seq<T>, a: seq<T>, b: seq<T>, m: seq<T>)
    requires Interleaves(a, b, m)
    ensures Interleaves(p + a, b, p + m)
  {
    if p == [] {
      assert p + a == a && p + m == m;
    } else {
      InterleavesAfter(p[1..], a, b, m);
      assert (p + a)[1..] == p[1..] + a && (p + m)[1..] == p[1..] + m;
    }
  }

  lemma {:induction false} AloneInterleaves<T>(a: seq<T>)
    ensures Interleaves(a, [], a)
  {
    if a != [] {
      AloneInterleaves(a[1..]);
    }
  }

  /** All of `b` between two elements of `a`. */
  lemma SplicedInterleaves<T>(a: seq<T>, b: seq<T>, k: nat)
    requires k <= |a|
    ensures Interleaves(a, b, a[..k] + (b + a[k..]))
  {
    AloneInterleaves(a[k..]);
    InterleavesIsSymmetric(a[k..], [], a[k..]);
    InterleavesAfter(b, [], a[k..], a[k..]);
    assert b + [] == b;
    InterleavesIsSymmetric(b, a[k..], b + a[k..]);
    InterleavesAfter(a[..k], a[k..], b, b + a[k..]);
    assert a[..k] + a[k..] == a;
  }

  lemma {:induction false} FlatInterleaves(a: seq<seq<Event>>, b: seq<seq<Event>>, m: seq<seq<Event>>)
    requires Interleaves(a, b, m)
    ensures Interleaves(Flat(a), Flat(b), Flat(m))
    decreases |m|
  {
    if m != [] {
      if a != [] && a[0] == m[0] && Interleaves(a[1..], b, m[1..]) {
        FlatInterleaves(a[1..], b, m[1..]);
        InterleavesAfter(m[0], Flat(a[1..]), Flat(b), Flat(m[1..]));
      } else {
        FlatInterleaves(a, b[1..], m[1..]);
        InterleavesIsSymmetric(Flat(a), Flat(b[1..]), Flat(m[1..]));
        InterleavesAfter(m[0], Flat(b[1..]), Flat(a), Flat(m[1..]));
        InterleavesIsSymmetric(Flat(b), Flat(a), Flat(m));
      }
    }
  }

  lemma WholeGrantsAreEvents(log: seq<Event>, key: Key, a: seq<seq<Event>>, b: seq<seq<Event>>)
    ensures EveryOrderSafe(log, key, Flat(a), Flat(b)) ==> EveryGrantOrderSafe(log, key, a, b)
  {
    if EveryOrderSafe(log, key, Flat(a), Flat(b)) {
      forall m | Interleaves(a, b, m)
        ensures RotationSafe(log + Flat(m), key)
      {
        FlatInterleaves(a, b, m);
      }
    }
  }

  // Both directions -----------------------------------------------------

  /** While only the row's token is issued, only that token is presented. */
  lemma TraceCarriesOne(key: Key, stored: StoredToken, env: Env, e: Event)
    requires forall f | f in ServeTrace(key, stored, env) && f.Issued? :: stored.refresh == Some(f.token)
    requires e in ServeTrace(key, stored, env)
    ensures e.key == key && stored.refresh == Some(e.token)
  {
    if e !in PreemptiveTrace(key, stored, env) && Expiring(stored, env.now) {
      var g := env.preemptive;
      if g.Rotated().Some? {
        assert Issued(key, g.Rotated().value) in PreemptiveTrace(key, stored, env);
      }
    }
  }

  lemma {:induction false} OneTokenIsSafe(log: seq<Event>, m: seq<Event>, key: Key, refresh: RefreshToken)
    requires Current(log, key, Some(refresh))
    requires forall e | e in m :: e.key == key && e.token == refresh
    ensures Current(log + m, key, Some(refresh))
  {
    if m == [] {
      assert log + m == log;
    } else {
      var front, e := m[..|m| - 1], m[|m| - 1];
      OneTokenIsSafe(log, front, key, refresh);
      LogNext(log + front, e, key);
      assert log + m == log + front + [e];
    }
  }

  lemma RotatingNoneIsSafe(log: seq<Event>, key: Key, stored: StoredToken, a: Env, b: Env)
    requires Current(log, key, stored.refresh)
    requires RotatesNone(ServeTrace(key, stored, a), ServeTrace(key, stored, b), stored.refresh)
    ensures EveryOrderSafe(log, key, ServeTrace(key, stored, a), ServeTrace(key, stored, b))
  {
    var ta, tb := ServeTrace(key, stored, a), ServeTrace(key, stored, b);
    forall m | Interleaves(ta, tb, m)
      ensures RotationSafe(log + m, key)
    {
      InterleavedWithNone(ta, tb, m);
      if ta == [] {
        ServeKeepsCurrent(log, key, stored, b);
      } else if tb == [] {
        ServeKeepsCurrent(log, key, stored, a);
      } else {
        SameTokenThroughout(key, stored, a, b, m);
        TraceStartsWithRow(key, stored, a);
        OneTokenIsSafe(log, m, key, stored.refresh.value);
      }
    }
  }

  lemma SameTokenThroughout(key: Key, stored: StoredToken, a: Env, b: Env, m: seq<Event>)
    requires Interleaves(ServeTrace(key, stored, a), ServeTrace(key, stored, b), m)
    requires forall e | e in ServeTrace(key, stored, a) + ServeTrace(key, stored, b) && e.Issued? ::
               stored.refresh == Some(e.token)
    ensures forall e | e in m :: e.key == key && stored.refresh == Some(e.token)
  {
    forall e | e in m
      ensures e.key == key && stored.refresh == Some(e.token)
    {
      InterleavedMembers(ServeTrace(key, stored, a), ServeTrace(key, stored, b), m, e);
      TraceCarriesOne(key, stored, if e in ServeTrace(key, stored, a) then a else b, e);
    }
  }

  /** A grant whose token is not the row's ends with that token issued. */
  lemma GrantEndsIssued(key: Key, stored: StoredToken, env: Env, e: Event) returns (k: nat)
    requires e in ServeTrace(key, stored, env) && e.Issued?
    ensures k < 2 && e in Grants(key, stored, env)[k] && e.key == key
    ensures var grant := Grants(key, stored, env)[k]; grant == [grant[0], e]
  {
    k := if e in PreemptiveTrace(key, stored, env) then 0 else 1;
  }

  /** If the server rotates for `a` and `b` grants too: `b`'s grants right after the rotation
      start by presenting the row's old token. */
  lemma RotationBetweenGrants(log: seq<Event>, key: Key, stored: StoredToken, a: Env, b: Env, e: Event)
    requires e in ServeTrace(key, stored, a) && e.Issued? && stored.refresh != Some(e.token)
    requires ServeTrace(key, stored, b) != []
    ensures !EveryGrantOrderSafe(log, key, Grants(key, stored, a), Grants(key, stored, b))
  {
    var ga, gb := Grants(key, stored, a), Grants(key, stored, b);
    var k := GrantEndsIssued(key, stored, a, e);
    SplicedInterleaves(ga, gb, k + 1);
    FlatGrants(key, stored, b);
    TraceStartsWithRow(key, stored, b);
    assert ga[..k + 1] == ga[..k] + [ga[k]];
    ReplayBetweenGrants(log, key, ga[..k], ga[k], gb, ga[k + 1..], stored.refresh.value);
  }

  lemma ReplayBetweenGrants(log: seq<Event>, key: Key, front: seq<seq<Event>>, grant: seq<Event>,
                            b: seq<seq<Event>>, rest: seq<seq<Event>>, refresh: RefreshToken)
    requires |grant| == 2 && grant[1].Issued? && grant[1].key == key && grant[1].token != refresh
    requires Flat(b) != [] && Flat(b)[0] == Presented(key, refresh)
    ensures !RotationSafe(log + Flat(front + [grant] + (b + rest)), key)
  {
    FlatSpliced(front, grant, b, rest);
    var before, after := Flat(front), Flat(b) + Flat(rest);
    ReplayIsUnsafe(log + before, key, grant[0], grant[1].token, refresh, after);
    assert grant == [grant[0], grant[1]];
    assert log + (before + grant + after) == log + before + grant + after;
  }

  lemma TraceStartsWithRow(key: Key, stored: StoredToken, env: Env)
    requires ServeTrace(key, stored, env) != []
    ensures stored.refresh.Some? && ServeTrace(key, stored, env)[0] == Presented(key, stored.refresh.value)
  {
  }

  lemma FirstGrantUnsafe(log: seq<Event>, trace: seq<Event>, key: Key, token: RefreshToken)
    requires trace != [] && trace[0] == Presented(key, token) && LatestIssued(log, key) != Some(token)
    ensures !RotationSafe(log + trace, key)
  {
    LogNext(log, trace[0], key);
    if RotationSafe(log + trace, key) {
      assert log + trace == log + [trace[0]] + trace[1..];
      SafePrefix(log + [trace[0]], trace[1..], key);
      assert false;
    }
  }

  /** Presenting a token after the server issued another. */
  lemma ReplayIsUnsafe(log: seq<Event>, key: Key, e: Event, renewed: RefreshToken, refresh: RefreshToken,
                       more: seq<Event>)
    requires refresh != renewed && more != [] && more[0] == Presented(key, refresh)
    ensures !RotationSafe(log + [e, Issued(key, renewed)] + more, key)
  {
    LogNext(log + [e], Issued(key, renewed), key);
    assert log + [e, Issued(key, renewed)] == log + [e] + [Issued(key, renewed)];
    FirstGrantUnsafe(log + [e, Issued(key, renewed)], more, key, refresh);
  }

  // Any number of calls ---------------------------------------------------

  /** `m` is all of `parts` merged, each in its own order. */
  predicate Weaves<T(==)>(parts: seq<seq<T>>, m: seq<T>)
    decreases |m|
  {
    if m == [] then forall i | 0 <= i < |parts| :: parts[i] == []
    else exists i | 0 <= i < |parts| :: Takes(parts, i, m[0]) && Weaves(Without(parts, i), m[1..])
  }

  predicate Takes<T(==)>(parts: seq<seq<T>>, i: nat, x: T)
    requires i < |parts|
  {
    parts[i] != [] && parts[i][0] == x
  }

  function Without<T>(parts: seq<seq<T>>, i: nat): seq<seq<T>>
    requires i < |parts| && parts[i] != []
  {
    parts[i := parts[i][1..]]
  }

  function Traces(key: Key, stored: StoredToken, calls: seq<Env>): (r: seq<seq<Event>>)
    ensures |r| == |calls| && forall i | 0 <= i < |r| :: r[i] == ServeTrace(key, stored, calls[i])
  {
    seq(|calls|, i requires 0 <= i < |calls| => ServeTrace(key, stored, calls[i]))
  }

  function AllGrants(key: Key, stored: StoredToken, calls: seq<Env>): (r: seq<seq<seq<Event>>>)
    ensures |r| == |calls| && forall i | 0 <= i < |r| :: r[i] == Grants(key, stored, calls[i])
  {
    seq(|calls|, i requires 0 <= i < |calls| => Grants(key, stored, calls[i]))
  }

  predicate OneGrants(traces: seq<seq<Event>>) {
    forall i, j | 0 <= i < j < |traces| :: traces[i] == [] || traces[j] == []
  }

  predicate NoneRotates(traces: seq<seq<Event>>, refresh: Option<RefreshToken>) {
    forall i: nat, e: Event | i < |traces| && e in traces[i] && e.Issued? :: refresh == Some(e.token)
  }

  /** Any number of calls that read the same row: every order of their grants is safe if and
      only if at most one of them makes a grant or the server rotates in none. If not, some
      order of whole grants is already unsafe. */
  lemma ManyCallsSafeIff(log: seq<Event>, key: Key, stored: StoredToken, calls: seq<Env>)
    requires Current(log, key, stored.refresh)
    ensures var traces := Traces(key, stored, calls);
            var fine := OneGrants(traces) || NoneRotates(traces, stored.refresh);
            && ((forall m | Weaves(traces, m) :: RotationSafe(log + m, key)) <==> fine)
            && ((forall m | Weaves(AllGrants(key, stored, calls), m) :: RotationSafe(log + Flat(m), key)) ==> fine)
  {
    hide RotationSafe, ServeTrace, Grants;
    var traces := Traces(key, stored, calls);
    if OneGrants(traces) || NoneRotates(traces, stored.refresh) {
      forall m | Weaves(traces, m)
        ensures RotationSafe(log + m, key)
      {
        WovenIsSafe(log, key, stored, calls, m);
      }
    } else {
      var i, j :| 0 <= i < j < |traces| && traces[i] != [] && traces[j] != [];
      var k, e: Event :| 0 <= k < |traces| && e in traces[k] && e.Issued? && stored.refresh != Some(e.token);
      WovenIsUnsafe(log, key, stored, calls, k, if k == i then j else i, e);
    }
  }

  lemma {:induction false} WovenMembers<T>(parts: seq<seq<T>>, m: seq<T>, x: T)
    requires Weaves(parts, m) && x in m
    ensures exists i :: 0 <= i < |parts| && x in parts[i]
    decreases |m|
  {
    var i :| 0 <= i < |parts| && Takes(parts, i, m[0]) && Weaves(Without(parts, i), m[1..]);
    if x == m[0] {
      assert x in parts[i];
    } else {
      WovenMembers(Without(parts, i), m[1..], x);
      var j :| 0 <= j < |parts| && x in Without(parts, i)[j];
      assert x in parts[j];
    }
  }

  lemma {:induction false} WovenOfOne<T>(parts: seq<seq<T>>, m: seq<T>, k: nat)
    requires Weaves(parts, m) && k < |parts| && forall i | 0 <= i < |parts| && i != k :: parts[i] == []
    ensures m == parts[k]
    decreases |m|
  {
    if m != [] {
      var i :| 0 <= i < |parts| && Takes(parts, i, m[0]) && Weaves(Without(parts, i), m[1..]);
      WovenOfOne(Without(parts, i), m[1..], k);
      assert m == [m[0]] + m[1..];
    }
  }

  lemma WovenIsSafe(log: seq<Event>, key: Key, stored: StoredToken, calls: seq<Env>, m: seq<Event>)
    requires Current(log, key, stored.refresh) && Weaves(Traces(key, stored, calls), m)
    requires var traces := Traces(key, stored, calls); OneGrants(traces) || NoneRotates(traces, stored.refresh)
    ensures RotationSafe(log + m, key)
  {
    hide RotationSafe, ServeTrace;
    var traces := Traces(key, stored, calls);
    if m == [] {
      assert log + m == log;
    } else if OneGrants(traces) {
      WovenMembers(traces, m, m[0]);
      var k :| 0 <= k < |traces| && m[0] in traces[k];
      assert forall i | 0 <= i < |traces| && i != k :: traces[i] == [];
      WovenOfOne(traces, m, k);
      ServeKeepsCurrent(log, key, stored, calls[k]);
    } else {
      forall e | e in m
        ensures e.key == key && stored.refresh == Some(e.token)
      {
        WovenMembers(traces, m, e);
        var k :| 0 <= k < |traces| && e in traces[k];
        TraceCarriesOne(key, stored, calls[k], e);
      }
      assert m[0] in m;
      OneTokenIsSafe(log, m, key, stored.refresh.value);
    }
  }

  /** One part after the other. */
  lemma {:induction false} WovenInTurn<T>(parts: seq<seq<T>>, k: nat)
    requires k <= |parts| && forall i | 0 <= i < k :: parts[i] == []
    ensures Weaves(parts, Flat(parts[k..]))
    decreases |parts| - k, if k < |parts| then |parts[k]| else 0
  {
    if k == |parts| {
      assert Flat(parts[k..]) == [];
    } else {
      assert parts[k..][1..] == parts[k + 1..];
      if parts[k] == [] {
        WovenInTurn(parts, k + 1);
        assert [] + Flat(parts[k + 1..]) == Flat(parts[k + 1..]);
        assert Flat(parts[k..]) == Flat(parts[k + 1..]);
      } else {
        var rest := Without(parts, k);
        WovenInTurn(rest, k);
        assert rest[k..][1..] == parts[k + 1..];
        assert Flat(parts[k..]) == [parts[k][0]] + Flat(rest[k..]);
        WovenFirst(parts, k, Flat(rest[k..]));
      }
    }
  }

  lemma WovenFirst<T>(parts: seq<seq<T>>, i: nat, m: seq<T>)
    requires i < |parts| && parts[i] != [] && Weaves(Without(parts, i), m)
    ensures Weaves(parts, [parts[i][0]] + m)
  {
    var whole := [parts[i][0]] + m;
    assert whole[1..] == m && Takes(parts, i, whole[0]);
  }

  /** Two parts interleaved, then the others in turn. */
  lemma {:induction false} PairThenOthers<T>(parts: seq<seq<T>>, k: nat, o: nat, m: seq<T>)
    requires k < |parts| && o < |parts| && k != o && Interleaves(parts[k], parts[o], m)
    ensures Weaves(parts, m + Flat(parts[k := []][o := []]))
    decreases |m|
  {
    var others := parts[k := []][o := []];
    if m == [] {
      assert others == parts && parts[0..] == parts;
      WovenInTurn(parts, 0);
      assert m + Flat(others) == Flat(parts[0..]);
    } else {
      var i := if parts[k] != [] && parts[k][0] == m[0] && Interleaves(parts[k][1..], parts[o], m[1..]) then k else o;
      var rest := Without(parts, i);
      PairThenOthers(rest, k, o, m[1..]);
      assert rest[k := []][o := []] == others;
      WovenFirst(parts, i, m[1..] + Flat(others));
      assert m + Flat(others) == [parts[i][0]] + (m[1..] + Flat(others));
    }
  }

  /** The pair's unsafe order, with every other call after it. */
  lemma WovenIsUnsafe(log: seq<Event>, key: Key, stored: StoredToken, calls: seq<Env>, k: nat, o: nat, e: Event)
    requires Current(log, key, stored.refresh) && k < |calls| && o < |calls| && k != o
    requires e in ServeTrace(key, stored, calls[k]) && e.Issued? && stored.refresh != Some(e.token)
    requires ServeTrace(key, stored, calls[o]) != []
    ensures exists m :: Weaves(Traces(key, stored, calls), m) && !RotationSafe(log + m, key)
    ensures exists m :: Weaves(AllGrants(key, stored, calls), m) && !RotationSafe(log + Flat(m), key)
  {
    hide RotationSafe, ServeTrace, Grants;
    var traces, grants := Traces(key, stored, calls), AllGrants(key, stored, calls);
    OverlappingCallsSafeIff(log, key, stored, calls[k], calls[o]);
    assert e in ServeTrace(key, stored, calls[k]) + ServeTrace(key, stored, calls[o]);
    var m :| Interleaves(traces[k], traces[o], m) && !RotationSafe(log + m, key);
    PairThenOthers(traces, k, o, m);
    StaysUnsafe(log, m, Flat(traces[k := []][o := []]), key);
    var g :| Interleaves(grants[k], grants[o], g) && !RotationSafe(log + Flat(g), key);
    PairThenOthers(grants, k, o, g);
    FlatAppend(g, Flat(grants[k := []][o := []]));
    StaysUnsafe(log, Flat(g), Flat(Flat(grants[k := []][o := []])), key);
  }

  lemma StaysUnsafe(log: seq<Event>, m: seq<Event>, more: seq<Event>, key: Key)
    requires !RotationSafe(log + m, key)
    ensures !RotationSafe(log + (m + more), key)
  {
    assert log + (m + more) == log + m + more;
    if RotationSafe(log + m + more, key) {
      SafePrefix(log + m, more, key);
      assert false;
    }
  }

  // Inputs --------------------------------------------------------------

  /** Two overlapping calls on an expiring token, the first of which gets a new one: the
      second replays the old one. */
  lemma OverlappingCallsReplay(log: seq<Event>, key: Key, stored: StoredToken, a: Env, b: Env)
    requires Current(log, key, stored.refresh) && stored.refresh.Some?
    requires Expiring(stored, a.now) && Expiring(stored, b.now) && b.preemptive.clientKnown
    requires a.preemptive.clientKnown && a.preemptive.Rotated().Some? && a.connect.Connected?
    requires a.preemptive.Rotated() != stored.refresh
    ensures !RotationSafe(log + ServeTrace(key, stored, a) + ServeTrace(key, stored, b), key)
  {
    var known, renewed := stored.refresh.value, a.preemptive.Rotated().value;
    assert ServeTrace(key, stored, a) == [Presented(key, known), Issued(key, renewed)];
    ReplayIsUnsafe(log, key, Presented(key, known), renewed, known, ServeTrace(key, stored, b));
  }

  /** `a` refreshes without rotation, has its connect rejected and refreshes again; `b`
      rotates. All of `a` before `b` is safe, `b` between `a`'s two grants is not. */
  lemma GrantBetweenTwoReplays(log: seq<Event>, key: Key, stored: StoredToken, a: Env, b: Env)
    requires Current(log, key, stored.refresh) && stored.refresh.Some?
    requires Expiring(stored, a.now) && Exchange(stored, a.preemptive).Renewed? && a.connect.AuthFailure?
    requires a.preemptive.Rotated().None? && a.reactive.clientKnown && a.reactive.Rotated().None?
    requires Expiring(stored, b.now) && b.preemptive.clientKnown && b.connect.Connected?
    requires b.preemptive.Rotated().Some? && b.preemptive.Rotated() != stored.refresh
    ensures RotationSafe(log + ServeTrace(key, stored, a) + ServeTrace(key, stored, b), key)
    ensures !RotationSafe(
              log + PreemptiveTrace(key, stored, a) + ServeTrace(key, stored, b) + ReactiveTrace(key, stored, a), key)
  {
    var known, renewed := stored.refresh.value, b.preemptive.Rotated().value;
    var first, second := PreemptiveTrace(key, stored, a), ReactiveTrace(key, stored, a);
    assert first == [Presented(key, known)] && second == [Presented(key, known)];
    assert RotationSafe(log + ServeTrace(key, stored, a) + ServeTrace(key, stored, b), key) by {
      OneTokenIsSafe(log, first + second, key, known);
      ServeKeepsCurrent(log + (first + second), key, stored, b);
    }
    assert ServeTrace(key, stored, b) == [Presented(key, known), Issued(key, renewed)];
    ReplayIsUnsafe(log + first, key, Presented(key, known), renewed, known, second);
  }

  /** A call dropped after the server rotated, with a vault that works: the next call on the
      same row presents the replaced token. */
  lemma DroppedCallReplays(log: seq<Event>, key: Key, stored: StoredToken, a: Env, b: Env)
    requires Current(log, key, stored.refresh) && stored.refresh.Some?
    requires Expiring(stored, a.now) && a.preemptive.clientKnown && a.preemptive.gone
    requires a.preemptive.Rotated().Some? && a.preemptive.Rotated() != stored.refresh
    requires Expiring(stored, b.now) && b.preemptive.clientKnown
    ensures Serve(stored, a) == Refused(Some(stored), CallGone)
    ensures !RotationSafe(log + ServeTrace(key, stored, a) + ServeTrace(key, stored, b), key)
  {
    var known, renewed := stored.refresh.value, a.preemptive.Rotated().value;
    assert ServeTrace(key, stored, a) == [Presented(key, known), Issued(key, renewed)];
    ReplayIsUnsafe(log, key, Presented(key, known), renewed, known, ServeTrace(key, stored, b));
  }
}
