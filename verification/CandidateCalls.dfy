/** Subscribing with candidates is all or nothing: for which registries, and on every registry a run can reach. */
module CandidateCalls {
  import opened Subscriptions
  import opened SubscriptionCalls
  import opened SubscriptionRuns

  // ----- What failed attempts leave behind

  function CounterAfter(nextId: int, reply: nat -> Reply, n: nat): int {
    if n == 0 then nextId
    else if reply(n - 1).Unreadable? then CounterAfter(nextId, reply, n - 1)
    else Wrap(CounterAfter(nextId, reply, n - 1) + 1)
  }

  /** The ids that failed attempts drew. */
  function DrawnIds(nextId: int, reply: nat -> Reply, n: nat): set<int> {
    if n == 0 then {}
    else
      DrawnIds(nextId, reply, n - 1)
      + if reply(n - 1).EnableRefused? then {CounterAfter(nextId, reply, n)} else {}
  }

  /** The blocks they uninstalled. */
  function RolledBack(client: nat, refs: seq<string>, reply: nat -> Reply, n: nat): set<(nat, string)>
    requires n <= |refs|
  {
    set k | 0 <= k < n && reply(k).EnableRefused? :: (client, refs[k])
  }

  /** Failed attempts delete what they registered and uninstall what they installed. */
  lemma {:induction false} AfterFailures(
    g: Registry, client: nat, refs: seq<string>, handler: nat, reply: nat -> Reply, n: nat)
    requires n <= |refs| && forall k: nat :: k < n ==> !reply(k).EnableAccepted?
    ensures AfterAttempts(g, client, refs, handler, reply, n)
         == Registry(CounterAfter(g.nextId, reply, n), g.handlers - DrawnIds(g.nextId, reply, n),
                     g.installed - RolledBack(client, refs, reply, n))
  {
    if n == 0 {
      assert RolledBack(client, refs, reply, 0) == {};
      assert g.handlers - {} == g.handlers && g.installed - {} == g.installed;
    } else {
      AfterFailures(g, client, refs, handler, reply, n - 1);
      var r, r' := RolledBack(client, refs, reply, n - 1), RolledBack(client, refs, reply, n);
      assert r' == r + if reply(n - 1).EnableRefused? then {(client, refs[n - 1])} else {};
      var d, d' := DrawnIds(g.nextId, reply, n - 1), DrawnIds(g.nextId, reply, n);
      if reply(n - 1).EnableRefused? {
        var id := CounterAfter(g.nextId, reply, n);
        assert g.handlers - d - {id} == g.handlers - d';
        assert g.installed - r - {(client, refs[n - 1])} == g.installed - r';
      }
    }
  }

  lemma {:induction false} TriesFailBefore(refs: seq<string>, reply: nat -> Reply, k: nat)
    requires k <= |refs|
    ensures k <= Tries(refs, reply, k) <= |refs|
    ensures forall j: nat :: k <= j < Tries(refs, reply, k) ==> !reply(j).EnableAccepted?
    ensures Tries(refs, reply, k) < |refs| ==> reply(Tries(refs, reply, k)).EnableAccepted?
    decreases |refs| - k
  {
    if k == |refs| || reply(k).EnableAccepted? {
    } else {
      TriesFailBefore(refs, reply, k + 1);
    }
  }

  lemma RemovesNothing<K, V>(m: map<K, V>, ks: set<K>)
    ensures m - ks == m <==> ks !! m.Keys
  {
  }

  /** A successful call keeps what its failed attempts left and adds one entry, installed for the chosen block. */
  lemma AfterSuccess(g: Registry, client: nat, refs: seq<string>, handler: nat, reply: nat -> Reply)
    requires Tries(refs, reply, 0) < |refs|
    ensures var n := Tries(refs, reply, 0);
      var id := CounterAfter(g.nextId, reply, n + 1);
      AfterAttempts(g, client, refs, handler, reply, n + 1)
      == Registry(id, (g.handlers - DrawnIds(g.nextId, reply, n))[id := Entry(handler, refs[n])],
                  (g.installed - RolledBack(client, refs, reply, n))[(client, refs[n]) := id])
  {
    var n := Tries(refs, reply, 0);
    TriesFailBefore(refs, reply, 0);
    AfterFailures(g, client, refs, handler, reply, n);
    assert AfterAttempts(g, client, refs, handler, reply, n + 1)
        == Subscribed(AfterAttempts(g, client, refs, handler, reply, n), Subscription(client, refs[n], handler),
                      EnableAccepted);
  }

  // ----- The ids a call may draw, known before it

  /** The next `n` ids after `nextId`. */
  function NextIds(nextId: int, n: nat): set<int> {
    if n == 0 then {} else NextIds(nextId, n - 1) + {Wrap(nextId + n)}
  }

  lemma {:induction false} NextIdsGrow(nextId: int, m: nat, n: nat)
    requires m <= n
    ensures NextIds(nextId, m) <= NextIds(nextId, n)
    ensures m > 0 ==> Wrap(nextId + m) in NextIds(nextId, n)
    decreases n
  {
    if m == n {
    } else {
      NextIdsGrow(nextId, m, n - 1);
    }
  }

  lemma SameResidue(i: int, q: int)
    ensures (WORD * q + i) % WORD == i % WORD
  {
    var p, r := i / WORD, i % WORD;
    assert WORD * q + i == WORD * (q + p) + r;
  }

  lemma WrapShift(i: int, j: int)
    ensures Wrap(Wrap(i) + j) == Wrap(i + j)
  {
    var q := if Wrap(i) == i % WORD then i / WORD else i / WORD + 1;
    assert i + j == WORD * q + (Wrap(i) + j);
    SameResidue(Wrap(i) + j, q);
  }

  /** How many of the first `n` attempts draw an id. */
  function Draws(reply: nat -> Reply, n: nat): (d: nat)
    ensures d <= n
  {
    if n == 0 then 0 else Draws(reply, n - 1) + if reply(n - 1).Unreadable? then 0 else 1
  }

  lemma {:induction false} CounterCountsDraws(nextId: int, reply: nat -> Reply, n: nat)
    ensures Draws(reply, n) == 0 ==> CounterAfter(nextId, reply, n) == nextId
    ensures Draws(reply, n) > 0 ==> CounterAfter(nextId, reply, n) == Wrap(nextId + Draws(reply, n))
  {
    if n == 0 {
    } else {
      CounterCountsDraws(nextId, reply, n - 1);
      WrapShift(nextId + Draws(reply, n - 1), 1);
    }
  }

  lemma {:induction false} DrawnAreNext(nextId: int, reply: nat -> Reply, n: nat)
    ensures DrawnIds(nextId, reply, n) <= NextIds(nextId, n)
  {
    if n == 0 {
    } else {
      DrawnAreNext(nextId, reply, n - 1);
      CounterCountsDraws(nextId, reply, n);
      NextIdsGrow(nextId, Draws(reply, n), n);
    }
  }

  lemma {:induction false} AllDrawn(nextId: int, reply: nat -> Reply, n: nat)
    requires forall k: nat :: k < n ==> reply(k).EnableRefused?
    ensures Draws(reply, n) == n && DrawnIds(nextId, reply, n) == NextIds(nextId, n)
  {
    if n == 0 {
    } else {
      AllDrawn(nextId, reply, n - 1);
      CounterCountsDraws(nextId, reply, n);
    }
  }

  // ----- All or nothing, by what is known before the call

  /** The replies that undo the most: every attempt is refused. */
  lemma AllRefused(g: Registry, client: nat, refs: seq<string>, handler: nat)
    ensures var reply: nat -> Reply := _ => EnableRefused;
      && Tries(refs, reply, 0) == |refs|
      && (AfterAttempts(g, client, refs, handler, reply, |refs|).handlers == g.handlers
          <==> NextIds(g.nextId, |refs|) !! g.handlers.Keys)
      && (AfterAttempts(g, client, refs, handler, reply, |refs|).installed == g.installed
          <==> forall k :: 0 <= k < |refs| ==> (client, refs[k]) !in g.installed)
  {
    var reply: nat -> Reply := _ => EnableRefused;
    TriesFailBefore(refs, reply, 0);
    assert Tries(refs, reply, 0) == |refs|;
    AfterFailures(g, client, refs, handler, reply, |refs|);
    AllDrawn(g.nextId, reply, |refs|);
    RemovesNothing(g.handlers, DrawnIds(g.nextId, reply, |refs|));
    var back := RolledBack(client, refs, reply, |refs|);
    RemovesNothing(g.installed, back);
    assert forall k :: 0 <= k < |refs| ==> (client, refs[k]) in back;
  }

  /**
    Whatever a failing call's replies, the registry is as before exactly if none of the next ids is in use;
    and the installed handlers exactly if this client has none installed for any of the references tried.
   */
  lemma NothingOnFailure(g: Registry, client: nat, refs: seq<string>, handler: nat)
    ensures (forall reply: nat -> Reply :: Tries(refs, reply, 0) == |refs| ==>
               AfterAttempts(g, client, refs, handler, reply, |refs|).handlers == g.handlers)
       <==> NextIds(g.nextId, |refs|) !! g.handlers.Keys
    ensures (forall reply: nat -> Reply :: Tries(refs, reply, 0) == |refs| ==>
               AfterAttempts(g, client, refs, handler, reply, |refs|).installed == g.installed)
       <==> (forall k :: 0 <= k < |refs| ==> (client, refs[k]) !in g.installed)
  {
    var n := |refs|;
    forall reply: nat -> Reply | Tries(refs, reply, 0) == n
      ensures NextIds(g.nextId, n) !! g.handlers.Keys ==>
                AfterAttempts(g, client, refs, handler, reply, n).handlers == g.handlers
      ensures (forall k :: 0 <= k < n ==> (client, refs[k]) !in g.installed) ==>
                AfterAttempts(g, client, refs, handler, reply, n).installed == g.installed
    {
      TriesFailBefore(refs, reply, 0);
      AfterFailures(g, client, refs, handler, reply, n);
      DrawnAreNext(g.nextId, reply, n);
      RemovesNothing(g.handlers, DrawnIds(g.nextId, reply, n));
      RemovesNothing(g.installed, RolledBack(client, refs, reply, n));
    }
    AllRefused(g, client, refs, handler);
  }

  // ----- All or nothing, on every registry a run can reach

  lemma NextIdSerial(d: nat, j: nat)
    requires 1 <= j && d + j <= WORD
    ensures Serial(Wrap(Wrap(d) + j)) == d + j - 1
  {
    SerialOfDraw(d + j - 1);
    WrapShift(d, j);
  }

  /** While the counter has not gone round, no id still to be drawn is in use. */
  lemma {:induction false} NextIdsAreFree(s: State, n: nat)
    requires Routed(s) && |s.draws| + n <= WORD
    ensures NextIds(s.nextId, n) !! s.handlers.Keys
  {
    if n == 0 {
    } else {
      NextIdsAreFree(s, n - 1);
      NextIdSerial(|s.draws|, n);
    }
  }

  /**
    From any reachable state with room for the attempts on the counter, a candidate call that fails leaves the
    registry as it was.
   */
  lemma FailureLeavesRegistry(tr: Trace, client: nat, refs: seq<string>, handler: nat, reply: nat -> Reply)
    requires Runs(INIT, tr) && |End(INIT, tr).draws| + |refs| <= WORD
    requires Tries(refs, reply, 0) == |refs|
    ensures AfterAttempts(RegistryOf(End(INIT, tr)), client, refs, handler, reply, |refs|).handlers
         == End(INIT, tr).handlers
  {
    RunStaysRouted(tr);
    NextIdsAreFree(End(INIT, tr), |refs|);
    NothingOnFailure(RegistryOf(End(INIT, tr)), client, refs, handler);
  }

  /** The ids a successful call has drawn are all free. */
  lemma SuccessDrawsFree(s: State, refs: seq<string>, reply: nat -> Reply, n: nat)
    requires Routed(s) && |s.draws| + |refs| <= WORD && n < |refs| && reply(n).EnableAccepted?
    ensures CounterAfter(s.nextId, reply, n + 1) !in s.handlers
    ensures s.handlers - DrawnIds(s.nextId, reply, n) == s.handlers
  {
    NextIdsAreFree(s, |refs|);
    DrawnAreNext(s.nextId, reply, n);
    CounterCountsDraws(s.nextId, reply, n + 1);
    NextIdsGrow(s.nextId, Draws(reply, n + 1), |refs|);
    NextIdsGrow(s.nextId, n, |refs|);
    RemovesNothing(s.handlers, DrawnIds(s.nextId, reply, n));
  }

  /**
    And one that succeeds adds exactly one entry, under a free id and for the first reference accepted. Of the
    installed handlers it touches only this client's, for the references tried.
   */
  lemma SuccessAddsOneEntry(tr: Trace, client: nat, refs: seq<string>, handler: nat, reply: nat -> Reply)
    requires Runs(INIT, tr) && |End(INIT, tr).draws| + |refs| <= WORD
    requires Tries(refs, reply, 0) < |refs|
    ensures var s, n := End(INIT, tr), Tries(refs, reply, 0);
      var g := AfterAttempts(RegistryOf(s), client, refs, handler, reply, n + 1);
      && g.nextId !in s.handlers
      && g.handlers == s.handlers[g.nextId := Entry(handler, refs[n])]
      && g.installed == (s.installed - RolledBack(client, refs, reply, n))[(client, refs[n]) := g.nextId]
  {
    var s, n := End(INIT, tr), Tries(refs, reply, 0);
    RunStaysRouted(tr);
    TriesFailBefore(refs, reply, 0);
    SuccessDrawsFree(s, refs, reply, n);
    AfterSuccess(RegistryOf(s), client, refs, handler, reply);
  }

  /** The attempts of a candidate call, run by thread `t` with nobody else stepping, are a run of the protocol. */
  lemma {:induction false} AttemptsRun(
    s: State, t: nat, client: nat, refs: seq<string>, handler: nat, reply: nat -> Reply, n: nat)
    returns (tr: Trace, after: State)
    requires At(s, t).Idle? && n <= |refs|
    ensures Runs(s, tr) && End(s, tr) == after && At(after, t).Idle?
    ensures RegistryOf(after) == AfterAttempts(RegistryOf(s), client, refs, handler, reply, n)
  {
    if n == 0 {
      return Start, s;
    } else {
      var a, mid := AttemptsRun(s, t, client, refs, handler, reply, n - 1);
      var b;
      b, after := SubscribeRuns(mid, t, Subscription(client, refs[n - 1], handler), reply(n - 1));
      tr := Joined(s, a, mid, b, after);
    }
  }
}
