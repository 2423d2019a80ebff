/** Exactly which steps, under any interleaving, leave an installed handler without its registry entry. */
module SubscriptionLosses {
  import opened Subscriptions
  import opened IdOwnership
  import opened SubscriptionDiscipline

  /** Some thread is between the two steps of rolling the id's subscription back. */
  ghost predicate RollingBack(s: State, id: int) {
    exists t :: t in s.calls && s.calls[t].Unregistered? && s.calls[t].id == id
  }

  /** Every installed handler is registered, or is just being rolled back. */
  ghost predicate NoneLost(s: State) {
    forall k :: k in s.installed ==> s.installed[k] in s.handlers || RollingBack(s, s.installed[k])
  }

  ghost predicate IsInstalled(s: State, id: int) {
    exists k :: k in s.installed && s.installed[k] == id
  }

  /**
    The two steps that lose an entry: installing a handler whose entry an unsubscribe has deleted meanwhile,
    and deleting, in an unsubscribe, the entry of a handler that some client has installed.
   */
  ghost predicate Loses(s: State, step: Step)
    requires Enabled(s, step)
  {
    match step
    case Install(t) => At(s, t).id !in s.handlers
    case Delete(_, Some(id)) => IsInstalled(s, id)
    case _ => false
  }

  lemma RollBackStands(s: State, step: Step, id: int)
    requires Enabled(s, step) && !step.RollBack? && RollingBack(s, id)
    ensures RollingBack(Next(s, step), id)
  {
    var t :| t in s.calls && s.calls[t].Unregistered? && s.calls[t].id == id;
    assert t != step.t;
    assert Next(s, step).calls[t] == s.calls[t];
  }

  lemma AfterRollBack(s: State, step: Step, k: (nat, string))
    requires step.RollBack? && Enabled(s, step) && Routed(s) && NoneLost(s) && k in Next(s, step).installed
    ensures Next(s, step).installed[k] in Next(s, step).handlers
            || RollingBack(Next(s, step), Next(s, step).installed[k])
  {
    var s', c := Next(s, step), At(s, step.t);
    var id := s'.installed[k];
    assert GoodCall(s, c) && k in s.installed && s.installed[k] == id;
    if id !in s.handlers {
      var t :| t in s.calls && s.calls[t].Unregistered? && s.calls[t].id == id;
      assert DrawnBy(s, c.id, c.sub);
      if t != step.t {
        assert s'.calls[t] == s.calls[t];
      }
    }
  }

  lemma HarmlessStep(s: State, step: Step, k: (nat, string))
    requires Enabled(s, step) && Routed(s) && NoneLost(s) && !Loses(s, step)
    requires k in Next(s, step).installed
    ensures Next(s, step).installed[k] in Next(s, step).handlers
            || RollingBack(Next(s, step), Next(s, step).installed[k])
  {
    var s', c := Next(s, step), At(s, step.t);
    var id := s'.installed[k];
    assert GoodCall(s, c);
    if step.Install? && k == (c.sub.client, c.sub.rcbRef) {
      assert id in s.handlers;
    } else {
      assert k in s.installed && s.installed[k] == id;
      assert id in s.handlers || RollingBack(s, id);
      if step.RollBack? {
        AfterRollBack(s, step, k);
      } else if RollingBack(s, id) {
        RollBackStands(s, step, id);
      } else if step.Unregister? && c.id == id {
        assert s'.calls[step.t] == Unregistered(c.sub, id);
      }
    }
  }

  lemma LosingStep(s: State, step: Step)
    requires Enabled(s, step) && Routed(s) && Owned(s) && Loses(s, step)
    ensures !NoneLost(Next(s, step))
  {
    var s', c := Next(s, step), At(s, step.t);
    if step.Install? {
      var k := (c.sub.client, c.sub.rcbRef);
      assert k in s'.installed && s'.installed[k] == c.id;
      assert Owns(s.calls[step.t], c.id);
      forall t | t in s'.calls && s'.calls[t].Unregistered?
        ensures s'.calls[t].id != c.id
      {
        assert s'.calls[t] == s.calls[t];
        assert Owns(s.calls[t], s.calls[t].id);
      }
    } else {
      var id := step.victim.value;
      var k :| k in s.installed && s.installed[k] == id;
      assert k in s'.installed && s'.installed[k] == id;
      forall t | t in s'.calls && s'.calls[t].Unregistered?
        ensures s'.calls[t].id != id
      {
        assert s'.calls[t] == s.calls[t] && Unlisted(s.calls[t]);
      }
    }
  }

  /** From a state with nothing lost, a step of any thread loses an entry exactly if it is one of the two. */
  lemma StepLosesExactly(s: State, step: Step)
    requires Enabled(s, step) && Routed(s) && Owned(s) && NoneLost(s)
    ensures NoneLost(Next(s, step)) <==> !Loses(s, step)
  {
    if Loses(s, step) {
      LosingStep(s, step);
    } else {
      forall k | k in Next(s, step).installed
        ensures Next(s, step).installed[k] in Next(s, step).handlers
                || RollingBack(Next(s, step), Next(s, step).installed[k])
      {
        HarmlessStep(s, step, k);
      }
    }
  }

  // ----- Over runs

  /** In every state the run goes through. */
  ghost predicate NeverLost(tr: Trace)
    requires Runs(INIT, tr)
  {
    match tr
    case Start => NoneLost(INIT)
    case Then(before, _) => NeverLost(before) && NoneLost(End(INIT, tr))
  }

  ghost predicate NoLosingStep(tr: Trace)
    requires Runs(INIT, tr)
  {
    match tr
    case Start => true
    case Then(before, step) => NoLosingStep(before) && !Loses(End(INIT, before), step)
  }

  lemma NeverLostAtEnd(tr: Trace)
    requires Runs(INIT, tr) && NeverLost(tr)
    ensures NoneLost(End(INIT, tr))
  {
  }

  /** Under any interleaving, no state of a run has lost an entry exactly if no step of it is one of the two. */
  lemma {:induction false} RunLosesExactly(tr: Trace)
    requires Runs(INIT, tr) && |End(INIT, tr).draws| <= WORD
    ensures NeverLost(tr) <==> NoLosingStep(tr)
  {
    match tr
    case Start =>
    case Then(before, step) =>
      assert |End(INIT, before).draws| <= |End(INIT, tr).draws|;
      RunLosesExactly(before);
      if NeverLost(before) {
        NeverLostAtEnd(before);
        RunStaysRouted(before);
        RunStaysOwned(before);
        StepLosesExactly(End(INIT, before), step);
      }
  }

  /** Runs that keep to the discipline take no such step. */
  lemma {:induction false} DisciplinedNeverLose(tr: Trace)
    requires Runs(INIT, tr) && DisciplinedRun(tr) && |End(INIT, tr).draws| <= WORD
    ensures NeverLost(tr) && NoLosingStep(tr)
  {
    match tr
    case Start =>
    case Then(before, step) =>
      assert |End(INIT, before).draws| <= |End(INIT, tr).draws|;
      DisciplinedNeverLose(before);
      forall k | k in End(INIT, tr).installed
        ensures End(INIT, tr).installed[k] in End(INIT, tr).handlers
                || RollingBack(End(INIT, tr), End(INIT, tr).installed[k])
      {
        InstalledIsRegistered(tr, k.0, k.1);
      }
      RunLosesExactly(tr);
  }
}
