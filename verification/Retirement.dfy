/**
  Once a subscription's entry has been deleted and no callback holds a copy of it, its handler is never called
  again.
 */
module Retirement {
  import opened Subscriptions
  import opened IdOwnership

  predicate Holds(c: Call, id: int) {
    (c.Drawn? || c.Found?) && c.id == id
  }

  /** The id was drawn, is not registered, and no thread is about to register it or to call its handler. */
  ghost predicate Retired(s: State, id: int) {
    && Serial(id) < |s.draws| && IdOf(Serial(id)) == id && id !in s.handlers
    && forall t :: t in s.calls ==> !Holds(s.calls[t], id)
  }

  /** The step deletes the entry of the id, rolling its subscription back or unsubscribing. */
  predicate Deletes(s: State, step: Step, id: int)
    requires Enabled(s, step)
  {
    match step
    case Unregister(t) => At(s, t).id == id
    case Delete(_, Some(victim)) => victim == id
    case _ => false
  }

  ghost predicate InCallback(s: State, id: int) {
    exists t :: t in s.calls && s.calls[t].Found? && s.calls[t].id == id
  }

  lemma DrawnIsNotDeleted(s: State, step: Step, id: int, t: nat)
    requires Enabled(s, step) && Owned(s) && Deletes(s, step, id)
    requires t in s.calls && s.calls[t].Drawn?
    ensures s.calls[t].id != id
  {
    assert Unlisted(s.calls[t]) && Owns(s.calls[t], s.calls[t].id);
    if step.Unregister? {
      assert Owns(s.calls[step.t], id);
    }
  }

  /** Deleting the entry retires the id exactly if no callback has looked it up and not called it yet. */
  lemma DeletionRetires(s: State, step: Step, id: int)
    requires Enabled(s, step) && Routed(s) && Owned(s) && Deletes(s, step, id)
    ensures Retired(Next(s, step), id) <==> !InCallback(s, id)
  {
    var s', c := Next(s, step), At(s, step.t);
    assert GoodCall(s, c);
    forall t | t in s'.calls
      ensures Holds(s'.calls[t], id) <==> t in s.calls && s.calls[t].Found? && s.calls[t].id == id
    {
      if t != step.t {
        OthersStand(s, step, t);
        if s.calls[t].Drawn? {
          DrawnIsNotDeleted(s, step, id, t);
        }
      }
    }
    if InCallback(s, id) {
      var t :| t in s.calls && s.calls[t].Found? && s.calls[t].id == id;
      assert t != step.t && s'.calls[t] == s.calls[t];
      assert Holds(s'.calls[t], id);
    }
  }

  /** The thread that steps does not get hold of the id either. */
  lemma StepperDoesNotHold(s: State, step: Step, id: int)
    requires Enabled(s, step) && Routed(s) && |Next(s, step).draws| <= WORD && Retired(s, id)
    ensures !Holds(At(s, step.t), id) && !Holds(At(Next(s, step), step.t), id)
  {
    if step.Draw? {
      SerialOfDraw(|s.draws|);
    }
  }

  lemma StepStaysRetired(s: State, step: Step, id: int)
    requires Enabled(s, step) && Routed(s) && |Next(s, step).draws| <= WORD && Retired(s, id)
    ensures Retired(Next(s, step), id)
  {
    DrawnStays(s, step);
    StepperDoesNotHold(s, step, id);
    var s' := Next(s, step);
    forall t | t in s'.calls
      ensures !Holds(s'.calls[t], id)
    {
      if t != step.t {
        assert s'.calls[t] == s.calls[t];
      }
    }
  }

  lemma StepDeliversOthers(s: State, step: Step, id: int)
    requires Enabled(s, step) && !Holds(At(s, step.t), id)
    ensures s.deliveries <= Next(s, step).deliveries
    ensures forall i :: |s.deliveries| <= i < |Next(s, step).deliveries| ==> Next(s, step).deliveries[i].id != id
  {
  }

  /** However the run goes on, with at most 2^32 subscriptions in all, nothing is delivered under a retired id. */
  lemma {:induction false} NothingAfterRetirement(past: Trace, future: Trace, id: int)
    requires Runs(INIT, past) && Runs(End(INIT, past), future)
    requires Retired(End(INIT, past), id) && |End(End(INIT, past), future).draws| <= WORD
    ensures var s, s' := End(INIT, past), End(End(INIT, past), future);
      && Retired(s', id)
      && s.deliveries <= s'.deliveries
      && forall i :: |s.deliveries| <= i < |s'.deliveries| ==> s'.deliveries[i].id != id
    decreases future
  {
    match future
    case Start =>
    case Then(before, step) =>
      var mid := End(End(INIT, past), before);
      assert |mid.draws| <= |Next(mid, step).draws|;
      NothingAfterRetirement(past, before, id);
      RunsInTurn(INIT, past, before);
      RunStaysRouted(Append(past, before));
      StepperDoesNotHold(mid, step, id);
      StepStaysRetired(mid, step, id);
      StepDeliversOthers(mid, step, id);
  }
}
