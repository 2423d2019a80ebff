/** Each drawn id belongs to one thread at a time, until that thread's subscribe call is over. */
module IdOwnership {
  import opened Subscriptions

  /** The thread is in the subscribe call that drew the id. */
  predicate Owns(c: Call, id: int) {
    (c.Drawn? || c.Registered? || c.Installed? || c.Refused? || c.Unregistered?) && c.id == id
  }

  /** In between drawing and registering, or between deleting the entry and uninstalling. */
  predicate Unlisted(c: Call) {
    c.Drawn? || c.Unregistered?
  }

  ghost predicate Exclusive(s: State) {
    forall t, u, id :: t in s.calls && u in s.calls && Owns(s.calls[t], id) && Owns(s.calls[u], id) ==> t == u
  }

  ghost predicate UnlistedAreAbsent(s: State) {
    forall t :: t in s.calls && Unlisted(s.calls[t]) ==> s.calls[t].id !in s.handlers
  }

  ghost predicate Owned(s: State) {
    Exclusive(s) && UnlistedAreAbsent(s)
  }

  lemma NewIdIsFree(s: State, step: Step)
    requires step.Draw? && Enabled(s, step) && Routed(s) && |s.draws| < WORD
    ensures Next(s, step).nextId !in s.handlers
    ensures forall t :: t in s.calls ==> !Owns(s.calls[t], Next(s, step).nextId)
  {
    SerialOfDraw(|s.draws|);
    forall t | t in s.calls
      ensures !Owns(s.calls[t], Next(s, step).nextId)
    {
      assert GoodCall(s, s.calls[t]);
    }
  }

  /** What the stepping thread owns after the step it owned before, unless it has just drawn it. */
  lemma StepperOwns(s: State, step: Step, id: int)
    requires Enabled(s, step) && Owns(At(Next(s, step), step.t), id)
    ensures if step.Draw? then id == Next(s, step).nextId else step.t in s.calls && Owns(s.calls[step.t], id)
  {
  }

  lemma OthersStand(s: State, step: Step, t: nat)
    requires Enabled(s, step) && t != step.t
    ensures t in s.calls <==> t in Next(s, step).calls
    ensures t in s.calls ==> Next(s, step).calls[t] == s.calls[t]
  {
  }

  lemma StepStaysExclusive(s: State, step: Step)
    requires Enabled(s, step) && Routed(s) && Owned(s) && |Next(s, step).draws| <= WORD
    ensures Exclusive(Next(s, step))
  {
    var s' := Next(s, step);
    if step.Draw? {
      NewIdIsFree(s, step);
    }
    forall t, id | t in s'.calls && t != step.t && Owns(s'.calls[t], id)
      ensures t in s.calls && s.calls[t] == s'.calls[t] && !Owns(s'.calls[step.t], id)
    {
      OthersStand(s, step, t);
      if Owns(s'.calls[step.t], id) {
        StepperOwns(s, step, id);
      }
    }
  }

  lemma StepKeepsUnlistedAbsent(s: State, step: Step)
    requires Enabled(s, step) && Routed(s) && Owned(s) && |Next(s, step).draws| <= WORD
    ensures UnlistedAreAbsent(Next(s, step))
  {
    var s' := Next(s, step);
    var c := At(s, step.t);
    if step.Draw? {
      NewIdIsFree(s, step);
    }
    forall t | t in s'.calls && Unlisted(s'.calls[t])
      ensures s'.calls[t].id !in s'.handlers
    {
      if t != step.t {
        OthersStand(s, step, t);
        assert Owns(s.calls[t], s.calls[t].id);
        if step.Register? {
          assert Owns(s.calls[step.t], c.id);
        }
      }
    }
  }

  lemma {:induction false} RunStaysOwned(tr: Trace)
    requires Runs(INIT, tr) && |End(INIT, tr).draws| <= WORD
    ensures Owned(End(INIT, tr))
  {
    match tr
    case Start =>
    case Then(before, step) =>
      assert |End(INIT, before).draws| <= |End(INIT, tr).draws|;
      RunStaysOwned(before);
      RunStaysRouted(before);
      StepStaysExclusive(End(INIT, before), step);
      StepKeepsUnlistedAbsent(End(INIT, before), step);
  }
}
