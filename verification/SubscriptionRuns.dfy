/** Calls made one at a time are runs of the concurrent protocol; and what such runs do when callers share a block. */
module SubscriptionRuns {
  import opened Mms
  import opened Subscriptions
  import opened SubscriptionCalls
  import opened SubscriptionDiscipline

  lemma RemoveAdded<K, V>(m: map<K, V>, k: K, v: V)
    ensures m[k := v] - {k} == m - {k}
  {
  }

  lemma SetTwice<K, V>(m: map<K, V>, k: K, v: V, w: V)
    ensures m[k := v][k := w] == m[k := w]
  {
  }

  lemma Joined(s: State, a: Trace, mid: State, b: Trace, after: State) returns (tr: Trace)
    requires Runs(s, a) && End(s, a) == mid && Runs(mid, b) && End(mid, b) == after
    ensures Runs(s, tr) && End(s, tr) == after
  {
    RunsInTurn(s, a, b);
    tr := Append(a, b);
  }

  /** The steps up to the enabling request. */
  lemma Installs(s: State, t: nat, sub: Subscription) returns (tr: Trace, mid: State)
    requires At(s, t).Idle?
    ensures Runs(s, tr) && End(s, tr) == mid
    ensures var id := Wrap(s.nextId + 1);
      mid == s.(nextId := id, draws := s.draws + [sub], handlers := s.handlers[id := EntryOf(sub)],
                installed := s.installed[KeyOf(sub) := id], calls := s.calls[t := Installed(sub, id)])
  {
    tr := Take(s, Start, Draw(t, sub));
    tr := Take(s, tr, Register(t));
    tr := Take(s, tr, Install(t));
    mid := End(s, tr);
    var id := Wrap(s.nextId + 1);
    SetTwice(s.calls, t, Drawn(sub, id), Registered(sub, id));
    SetTwice(s.calls, t, Registered(sub, id), Installed(sub, id));
  }

  lemma RollsBack(s: State, t: nat, sub: Subscription, id: int) returns (tr: Trace, after: State)
    requires At(s, t) == Installed(sub, id)
    ensures Runs(s, tr) && End(s, tr) == after
    ensures after == s.(handlers := s.handlers - {id}, installed := s.installed - {KeyOf(sub)},
                        calls := s.calls[t := Idle])
  {
    tr := Take(s, Start, Refuse(t));
    tr := Take(s, tr, Unregister(t));
    tr := Take(s, tr, RollBack(t));
    after := End(s, tr);
    SetTwice(s.calls, t, Refused(sub, id), Unregistered(sub, id));
    SetTwice(s.calls, t, Unregistered(sub, id), Idle);
  }

  /** A whole subscribe call, run by thread `t` with nobody else stepping, does what the sequential call does. */
  lemma SubscribeRuns(s: State, t: nat, sub: Subscription, reply: Reply) returns (tr: Trace, after: State)
    requires At(s, t).Idle?
    ensures Runs(s, tr) && End(s, tr) == after
    ensures RegistryOf(after) == Subscribed(RegistryOf(s), sub, reply)
    ensures after.calls == if reply.Unreadable? then s.calls else s.calls[t := Idle]
    ensures after.deliveries == s.deliveries
    ensures after.draws == if reply.Unreadable? then s.draws else s.draws + [sub]
  {
    if reply.Unreadable? {
      return Start, s;
    }
    var a, mid := Installs(s, t, sub);
    var id := mid.nextId;
    SetTwice(s.calls, t, Installed(sub, id), Idle);
    if reply.EnableAccepted? {
      tr := Take(s, a, Accept(t));
      after := End(s, tr);
    } else {
      var b;
      b, after := RollsBack(mid, t, sub, id);
      tr := Joined(s, a, mid, b, after);
      RemoveAdded(s.handlers, id, EntryOf(sub));
      RemoveAdded(s.installed, KeyOf(sub), id);
    }
  }

  /** Likewise for an unsubscribe call, whichever of its possible outcomes is picked. */
  lemma UnsubscribeRuns(s: State, t: nat, client: nat, ref: string, g': Registry) returns (tr: Trace, after: State)
    requires At(s, t).Idle? && Unsubscribed(RegistryOf(s), client, ref, g')
    ensures Runs(s, tr) && End(s, tr) == after
    ensures RegistryOf(after) == g' && after.calls == s.calls[t := Idle]
    ensures after.draws == s.draws && after.deliveries == s.deliveries
  {
    tr := Take(s, Start, Leave(t, client, ref));
    tr := Take(s, tr, Uninstall(t));
    var mid := End(s, tr);
    SetTwice(s.calls, t, Leaving(client, ref), Uninstalled(client, ref));
    SetTwice(s.calls, t, Uninstalled(client, ref), Idle);
    if forall id :: id in s.handlers ==> s.handlers[id].rcbRef != ref {
      tr := Take(s, tr, Delete(t, None));
    } else {
      var id :| id in s.handlers && s.handlers[id].rcbRef == ref && g'.handlers == s.handlers - {id};
      tr := Take(s, tr, Delete(t, Some(id)));
    }
    after := End(s, tr);
  }

  /**
    A report callback, run by thread `t` with nobody else stepping: exactly one delivery if the installed id is
    registered, with the entry registered under it, and none otherwise. Nothing else changes.
   */
  lemma CallbackRuns(s: State, t: nat, client: nat, ref: string) returns (tr: Trace, after: State)
    requires At(s, t).Idle? && (client, ref) in s.installed
    ensures Runs(s, tr) && End(s, tr) == after
    ensures RegistryOf(after) == RegistryOf(s) && after.draws == s.draws && after.calls == s.calls[t := Idle]
    ensures var id := s.installed[(client, ref)];
      after.deliveries
      == s.deliveries + if id in s.handlers then [Delivery(client, ref, id, s.handlers[id])] else []
  {
    var id := s.installed[(client, ref)];
    tr := Take(s, Start, Signal(t, client, ref));
    tr := Take(s, tr, Look(t));
    SetTwice(s.calls, t, Signalled(client, ref, id), Idle);
    if id in s.handlers {
      tr := Take(s, tr, Invoke(t));
      SetTwice(s.calls, t, Signalled(client, ref, id), Found(client, ref, id, s.handlers[id]));
      SetTwice(s.calls, t, Found(client, ref, id, s.handlers[id]), Idle);
    }
    after := End(s, tr);
  }

  predicate Pauses(tr: Trace, t: nat) {
    match tr
    case Start => true
    case Then(before, step) => Pauses(before, t) && step.t != t
  }

  lemma {:induction false} PausedStands(s: State, tr: Trace, t: nat)
    requires Runs(s, tr) && Pauses(tr, t)
    ensures At(End(s, tr), t) == At(s, t)
  {
    match tr
    case Start =>
    case Then(before, step) => PausedStands(s, before, t);
  }

  /**
    Whatever other threads do in between, a report that came in for an id still registered when the callback looks it
    up is delivered, with the entry found then: the callback's only next step is to call that handler.
   */
  lemma LookedUpIsDelivered(s: State, tr: Trace, t: nat)
    requires At(s, t).Signalled? && At(s, t).id in s.handlers
    requires Enabled(s, Look(t)) && Runs(Next(s, Look(t)), tr) && Pauses(tr, t)
    ensures var c, s' := At(s, t), End(Next(s, Look(t)), tr);
      && (forall step: Step :: step.t == t && Enabled(s', step) ==> step == Invoke(t))
      && Enabled(s', Invoke(t))
      && Next(s', Invoke(t)).deliveries
         == s'.deliveries + [Delivery(c.client, c.rcbRef, c.id, s.handlers[c.id])]
  {
    PausedStands(Next(s, Look(t)), tr, t);
  }

  lemma OneSubscribes() returns (tr: Trace, after: State)
    ensures Runs(INIT, tr) && End(INIT, tr) == after && after.calls == map[0 := Idle]
    ensures RegistryOf(after) == Registry(1, map[1 := Entry(10, "block")], map[(1, "block") := 1])
  {
    tr, after := SubscribeRuns(INIT, 0, Subscription(1, "block", 10), EnableAccepted);
  }

  lemma BothSubscribe() returns (tr: Trace, after: State)
    ensures Runs(INIT, tr) && End(INIT, tr) == after && after.calls == map[0 := Idle]
    ensures RegistryOf(after)
         == Registry(2, map[1 := Entry(10, "block"), 2 := Entry(20, "block")],
                     map[(1, "block") := 1, (2, "block") := 2])
  {
    var a, mid := OneSubscribes();
    var b;
    b, after := SubscribeRuns(mid, 0, Subscription(2, "block", 20), EnableAccepted);
    tr := Joined(INIT, a, mid, b, after);
  }

  /**
    Without the discipline reports do get lost: two clients subscribe to one block, one after the other; the first
    unsubscribes, and its call deletes the second one's entry. The second client's handler stays installed,
    and no call is under way.
   */
  lemma SharedBlockLosesReports() returns (tr: Trace)
    ensures Runs(INIT, tr)
    ensures var s := End(INIT, tr);
      && (2, "block") in s.installed && s.installed[(2, "block")] !in s.handlers
      && !Busy(s, "block")
  {
    var s;
    tr, s := BothSubscribe();
    var g := RegistryOf(s);
    var g' := Registry(g.nextId, g.handlers - {2}, g.installed - {(1, "block")});
    assert 2 in g.handlers && g.handlers[2].rcbRef == "block";
    assert Unsubscribed(g, 1, "block", g');
    var more, after := UnsubscribeRuns(s, 0, 1, "block", g');
    tr := Joined(INIT, tr, s, more, after);
    assert g'.installed[(2, "block")] == 2;
  }

  /**
    A second subscription of a block by the same client, when the server refuses it, silences the first one: its
    entry stays, but its handler is installed no more.
   */
  lemma RefusedResubscriptionSilences() returns (tr: Trace)
    ensures Runs(INIT, tr)
    ensures var s := End(INIT, tr);
      s.handlers == map[1 := Entry(10, "block")] && s.installed == map[] && !Busy(s, "block")
  {
    var a, mid := OneSubscribes();
    var b, after := SubscribeRuns(mid, 0, Subscription(1, "block", 20), EnableRefused);
    tr := Joined(INIT, a, mid, b, after);
  }

  /** The same client subscribes to a block twice; the server accepts both. */
  lemma SubscribesTwice() returns (tr: Trace, after: State)
    ensures Runs(INIT, tr) && End(INIT, tr) == after && after.calls == map[0 := Idle]
    ensures RegistryOf(after)
         == Registry(2, map[1 := Entry(10, "block"), 2 := Entry(20, "block")], map[(1, "block") := 2])
  {
    var a, mid := OneSubscribes();
    var b;
    b, after := SubscribeRuns(mid, 0, Subscription(1, "block", 20), EnableAccepted);
    SetTwice(map[], (1, "block"), 1, 2);
    tr := Joined(INIT, a, mid, b, after);
  }

  /** Accepted, the second subscription silences the first one just as well: its handler takes the other's place. */
  lemma AcceptedResubscriptionSilences() returns (tr: Trace)
    ensures Runs(INIT, tr)
    ensures var s := End(INIT, tr);
      && s.handlers == map[1 := Entry(10, "block"), 2 := Entry(20, "block")]
      && s.installed == map[(1, "block") := 2] && !Busy(s, "block")
  {
    var s;
    tr, s := SubscribesTwice();
    assert RegistryOf(s).handlers == s.handlers && RegistryOf(s).installed == s.installed;
  }

  /** Unsubscribing then leaves one of the two entries, whichever is visited last, and nothing installed. */
  lemma UnsubscribeLeavesAnEntry(victim: int) returns (tr: Trace)
    requires victim == 1 || victim == 2
    ensures Runs(INIT, tr)
    ensures var s := End(INIT, tr);
      && s.handlers == (if victim == 1 then map[2 := Entry(20, "block")] else map[1 := Entry(10, "block")])
      && s.installed == map[] && !Busy(s, "block")
  {
    var s;
    tr, s := SubscribesTwice();
    var g := RegistryOf(s);
    var g' := Registry(g.nextId, g.handlers - {victim}, g.installed - {(1, "block")});
    assert victim in g.handlers && g.handlers[victim].rcbRef == "block";
    assert Unsubscribed(g, 1, "block", g');
    var more, after := UnsubscribeRuns(s, 0, 1, "block", g');
    tr := Joined(INIT, tr, s, more, after);
    assert RegistryOf(after).handlers == after.handlers && RegistryOf(after).installed == after.installed;
  }

  /** A subscribe call with its id drawn, run to its end while other calls stand still. */
  lemma AcceptedFromDraw(s: State, t: nat, sub: Subscription, id: int) returns (tr: Trace, after: State)
    requires At(s, t) == Drawn(sub, id)
    ensures Runs(s, tr) && End(s, tr) == after
    ensures after == s.(handlers := s.handlers[id := EntryOf(sub)], installed := s.installed[KeyOf(sub) := id],
                        calls := s.calls[t := Idle])
  {
    tr := Take(s, Start, Register(t));
    tr := Take(s, tr, Install(t));
    tr := Take(s, tr, Accept(t));
    after := End(s, tr);
    SetTwice(s.calls, t, Registered(sub, id), Installed(sub, id));
    SetTwice(s.calls, t, Installed(sub, id), Idle);
  }

  /**
    Two overlapping calls: while one has drawn its id, the other installs; the first installs too and is accepted,
    and the second, refused, rolls back.
   */
  lemma OverlappingCalls(s: State, t: nat, u: nat, kept: Subscription, id: int, refused: Subscription)
    returns (tr: Trace, after: State)
    requires At(s, t) == Drawn(kept, id) && At(s, u).Idle? && t != u
    ensures Runs(s, tr) && End(s, tr) == after
    ensures var id' := Wrap(s.nextId + 1);
      && after.handlers == s.handlers[id' := EntryOf(refused)][id := EntryOf(kept)] - {id'}
      && after.installed == s.installed[KeyOf(refused) := id'][KeyOf(kept) := id] - {KeyOf(refused)}
      && At(after, t).Idle? && At(after, u).Idle? && after.calls.Keys == s.calls.Keys + {u}
  {
    var a, installing := Installs(s, u, refused);
    var id' := installing.nextId;
    var b, accepted := AcceptedFromDraw(installing, t, kept, id);
    tr := Joined(s, a, installing, b, accepted);
    var c;
    c, after := RollsBack(accepted, u, refused, id');
    tr := Joined(s, tr, accepted, c, after);
  }

  /**
    Such calls by one client for one block, with no handler installed when they draw their ids, silence the accepted
    one.
   */
  lemma OverlappingRollBackSilences() returns (tr: Trace)
    ensures Runs(INIT, tr)
    ensures var s := End(INIT, tr);
      s.handlers == map[1 := Entry(10, "block")] && s.installed == map[] && !Busy(s, "block")
  {
    var kept, refused := Subscription(1, "block", 10), Subscription(1, "block", 20);
    tr := Take(INIT, Start, Draw(0, kept));
    var s := End(INIT, tr);
    var more, after := OverlappingCalls(s, 0, 1, kept, 1, refused);
    tr := Joined(INIT, tr, s, more, after);
    assert KeyOf(kept) == KeyOf(refused);
  }

  /** An unsubscribe that overtakes a subscribe of the same block on another thread leaves a handler without entry. */
  lemma OverlappingCallsLoseReports() returns (tr: Trace)
    ensures Runs(INIT, tr)
    ensures var s := End(INIT, tr);
      (1, "block") in s.installed && s.installed[(1, "block")] !in s.handlers && !Busy(s, "block")
  {
    var sub := Subscription(1, "block", 10);
    tr := Take(INIT, Start, Draw(0, sub));
    tr := Take(INIT, tr, Register(0));
    var s := End(INIT, tr);
    assert s.handlers == map[1 := EntryOf(sub)] && s.installed == map[];
    var g := Registry(s.nextId, map[], map[]);
    assert s.handlers - {1} == map[];
    assert Unsubscribed(RegistryOf(s), 1, "block", g);
    var b, mid := UnsubscribeRuns(s, 1, 1, "block", g);
    tr := Joined(INIT, tr, s, b, mid);
    tr := Take(INIT, tr, Install(0));
    tr := Take(INIT, tr, Accept(0));
  }
}
