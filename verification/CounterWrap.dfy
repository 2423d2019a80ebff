/** The bound in the routing theorem is sharp: one subscription more and a report can reach a stranger. */
module CounterWrap {
  import opened Subscriptions
  import opened SubscriptionCalls
  import opened SubscriptionRuns

  const FIRST := Subscription(0, "first", 1)
  const FAILING := Subscription(1, "failing", 2)
  const LATE := Subscription(2, "late", 3)

  /** One subscription of `FIRST` is live, everything drawn since has failed. */
  predicate OnlyFirst(s: State) {
    && At(s, 0).Idle? && At(s, 1).Idle?
    && s.handlers == map[1 := EntryOf(FIRST)]
    && s.installed == map[KeyOf(FIRST) := 1]
    && s.nextId == Wrap(|s.draws|)
    && s.deliveries == []
  }

  lemma OneMoreFailure(s: State) returns (tr: Trace, after: State)
    requires OnlyFirst(s) && 1 <= |s.draws| < WORD
    ensures Runs(s, tr) && End(s, tr) == after && OnlyFirst(after) && |after.draws| == |s.draws| + 1
  {
    SerialOfDraw(|s.draws|);
    IdsCollide(0, |s.draws|);
    tr, after := SubscribeRuns(s, 0, FAILING, EnableRefused);
    assert Wrap(s.nextId + 1) != 1;
    assert after.handlers == s.handlers && after.installed == s.installed;
  }

  lemma {:induction false} Churn(n: nat) returns (tr: Trace)
    requires 1 <= n <= WORD
    ensures Runs(INIT, tr) && OnlyFirst(End(INIT, tr)) && |End(INIT, tr).draws| == n
  {
    if n == 1 {
      var s;
      tr, s := SubscribeRuns(INIT, 0, FIRST, EnableAccepted);
    } else {
      var before := Churn(n - 1);
      var more, after := OneMoreFailure(End(INIT, before));
      tr := Joined(INIT, before, End(INIT, before), more, after);
    }
  }

  lemma TakeOver(s: State) returns (tr: Trace, after: State)
    requires OnlyFirst(s) && Wrap(s.nextId + 1) == 1
    ensures Runs(s, tr) && End(s, tr) == after && after.draws == s.draws + [LATE]
    ensures after.deliveries == [Delivery(FIRST.client, FIRST.rcbRef, 1, EntryOf(LATE))]
  {
    tr := Take(s, Start, Draw(0, LATE));
    tr := Take(s, tr, Register(0));
    tr := Take(s, tr, Signal(1, FIRST.client, FIRST.rcbRef));
    tr := Take(s, tr, Look(1));
    tr := Take(s, tr, Invoke(1));
    after := End(s, tr);
  }

  /** With 2^32 + 1 subscriptions the late one takes over the first one's id, and with it the first one's reports. */
  lemma OneTooMany() returns (tr: Trace, d: Delivery)
    ensures Runs(INIT, tr) && |End(INIT, tr).draws| == WORD + 1
    ensures d in End(INIT, tr).deliveries
    ensures (d.client, d.rcbRef) == KeyOf(FIRST) && d.entry == EntryOf(LATE)
  {
    var before := Churn(WORD);
    var s := End(INIT, before);
    IdsCollide(0, WORD);
    var more, after := TakeOver(s);
    tr := Joined(INIT, before, s, more, after);
    d := after.deliveries[0];
  }
}
