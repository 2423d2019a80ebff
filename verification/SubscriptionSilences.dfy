/** Exactly which steps, under any interleaving, leave a registered subscription without its installed C handler. */
module SubscriptionSilences {
  import opened Mms
  import opened Subscriptions
  import opened IdOwnership
  import opened SubscriptionDiscipline
  import opened SubscriptionLosses

  /** The id was drawn for this client and control block. */
  predicate Belongs(s: State, id: int, k: (nat, string)) {
    Serial(id) < |s.draws| && s.draws[Serial(id)].client == k.0 && s.draws[Serial(id)].rcbRef == k.1
  }

  /** The call is about to install the id, or is unsubscribing its client from its block. */
  predicate Excuses(c: Call, id: int, k: (nat, string)) {
    (c.Registered? && c.id == id) || c == Uninstalled(k.0, k.1)
  }

  /** Some thread other than `t` is in such a call. */
  ghost predicate ExcusedBeside(s: State, t: nat, id: int, k: (nat, string)) {
    exists u :: u in s.calls && u != t && Excuses(s.calls[u], id, k)
  }

  predicate InstalledAt(s: State, id: int, k: (nat, string)) {
    k in s.installed && s.installed[k] == id
  }

  ghost predicate Heard(s: State, id: int, k: (nat, string)) {
    InstalledAt(s, id, k) || exists t :: t in s.calls && Excuses(s.calls[t], id, k)
  }

  /** Every registered id is installed for its client and block, or about to be, or being unsubscribed. */
  ghost predicate AllHeard(s: State) {
    forall id, k :: id in s.handlers && Belongs(s, id, k) ==> Heard(s, id, k)
  }

  /** A registered id that nothing but its installed handler, or thread `t`, can make heard. */
  ghost predicate Relies(s: State, t: nat, id: int, k: (nat, string)) {
    id in s.handlers && Belongs(s, id, k) && !ExcusedBeside(s, t, id, k)
  }

  /**
    The three steps that silence a subscription: installing over another registered id, rolling back while another
    registered id is installed, and ending an unsubscribe while another entry of its client and block remains.
   */
  ghost predicate Silences(s: State, step: Step)
    requires Enabled(s, step)
  {
    var c := At(s, step.t);
    match step
    case Install(t) => exists id :: Relies(s, t, id, (c.sub.client, c.sub.rcbRef)) && id != c.id
    case RollBack(t) =>
      exists id :: Relies(s, t, id, (c.sub.client, c.sub.rcbRef)) && InstalledAt(s, id, (c.sub.client, c.sub.rcbRef))
    case Delete(t, Some(victim)) =>
      exists id :: Relies(s, t, id, (c.client, c.rcbRef)) && id != victim && !InstalledAt(s, id, (c.client, c.rcbRef))
    case _ => false
  }

  /** What other threads excuse stays excused. */
  lemma ExcuseStands(s: State, step: Step, id: int, k: (nat, string))
    requires Enabled(s, step) && ExcusedBeside(s, step.t, id, k)
    ensures Heard(Next(s, step), id, k)
  {
    var u :| u in s.calls && u != step.t && Excuses(s.calls[u], id, k);
    OthersStand(s, step, u);
    assert Excuses(Next(s, step).calls[u], id, k);
  }

  /** An id is unheard if it relied on its handler or the stepping thread and is left with neither. */
  lemma Unheard(s: State, step: Step, id: int, k: (nat, string))
    requires Enabled(s, step) && Relies(s, step.t, id, k) && id in Next(s, step).handlers
    requires !InstalledAt(Next(s, step), id, k) && !Excuses(At(Next(s, step), step.t), id, k)
    ensures !AllHeard(Next(s, step))
  {
    var s' := Next(s, step);
    forall u | u in s'.calls
      ensures !Excuses(s'.calls[u], id, k)
    {
      if u != step.t {
        OthersStand(s, step, u);
      }
    }
    assert Belongs(s', id, k);
  }

  /** The thread stops excusing the id. */
  lemma HeardByStepper(s: State, step: Step, id: int, k: (nat, string))
    requires Enabled(s, step) && Routed(s) && !Silences(s, step)
    requires id in Next(s, step).handlers && Relies(s, step.t, id, k) && Excuses(At(s, step.t), id, k)
    ensures InstalledAt(Next(s, step), id, k)
  {
  }

  /** The id was installed. */
  lemma HeardWhereInstalled(s: State, step: Step, id: int, k: (nat, string))
    requires Enabled(s, step) && !Silences(s, step)
    requires Relies(s, step.t, id, k) && InstalledAt(s, id, k)
    ensures Heard(Next(s, step), id, k)
  {
    var s' := Next(s, step);
    if step.Uninstall? && k !in s'.installed {
      assert Excuses(s'.calls[step.t], id, k);
    }
  }

  lemma HarmlessStepHears(s: State, step: Step, id: int, k: (nat, string))
    requires Enabled(s, step) && Routed(s) && AllHeard(s) && !Silences(s, step)
    requires id in Next(s, step).handlers && Belongs(Next(s, step), id, k)
    ensures Heard(Next(s, step), id, k)
  {
    var s' := Next(s, step);
    if step.Register? && id == At(s, step.t).id {
      assert Excuses(s'.calls[step.t], id, k);
    } else {
      assert id in s.handlers && Belongs(s, id, k) && Heard(s, id, k);
      if ExcusedBeside(s, step.t, id, k) {
        ExcuseStands(s, step, id, k);
      } else if InstalledAt(s, id, k) {
        HeardWhereInstalled(s, step, id, k);
      } else {
        HeardByStepper(s, step, id, k);
      }
    }
  }

  lemma SilencingStep(s: State, step: Step)
    requires Enabled(s, step) && Owned(s) && Silences(s, step)
    ensures !AllHeard(Next(s, step))
  {
    var c := At(s, step.t);
    match step
    case Install(t) =>
      var k := (c.sub.client, c.sub.rcbRef);
      var id :| Relies(s, t, id, k) && id != c.id;
      Unheard(s, step, id, k);
    case RollBack(t) =>
      var k := (c.sub.client, c.sub.rcbRef);
      var id :| Relies(s, t, id, k) && InstalledAt(s, id, k);
      Unheard(s, step, id, k);
    case Delete(t, Some(victim)) =>
      var k := (c.client, c.rcbRef);
      var id :| Relies(s, t, id, k) && id != victim && !InstalledAt(s, id, k);
      Unheard(s, step, id, k);
    case _ =>
  }

  /** From a state with every id heard, a step of any thread silences one exactly if it is one of the three. */
  lemma StepSilencesExactly(s: State, step: Step)
    requires Enabled(s, step) && Routed(s) && Owned(s) && AllHeard(s)
    ensures AllHeard(Next(s, step)) <==> !Silences(s, step)
  {
    if Silences(s, step) {
      SilencingStep(s, step);
    } else {
      forall id, k | id in Next(s, step).handlers && Belongs(Next(s, step), id, k)
        ensures Heard(Next(s, step), id, k)
      {
        HarmlessStepHears(s, step, id, k);
      }
    }
  }

  // ----- Over runs

  /** In every state the run goes through. */
  ghost predicate AlwaysHeard(tr: Trace)
    requires Runs(INIT, tr)
  {
    match tr
    case Start => AllHeard(INIT)
    case Then(before, _) => AlwaysHeard(before) && AllHeard(End(INIT, tr))
  }

  ghost predicate NoSilencingStep(tr: Trace)
    requires Runs(INIT, tr)
  {
    match tr
    case Start => true
    case Then(before, step) => NoSilencingStep(before) && !Silences(End(INIT, before), step)
  }

  lemma AlwaysHeardAtEnd(tr: Trace)
    requires Runs(INIT, tr) && AlwaysHeard(tr)
    ensures AllHeard(End(INIT, tr))
  {
  }

  /** Under any interleaving, no state of a run has silenced an id exactly if no step of it is one of the three. */
  lemma {:induction false} RunSilencesExactly(tr: Trace)
    requires Runs(INIT, tr) && |End(INIT, tr).draws| <= WORD
    ensures AlwaysHeard(tr) <==> NoSilencingStep(tr)
  {
    match tr
    case Start =>
    case Then(before, step) =>
      assert |End(INIT, before).draws| <= |End(INIT, tr).draws|;
      RunSilencesExactly(before);
      if AlwaysHeard(before) {
        AlwaysHeardAtEnd(before);
        RunStaysRouted(before);
        RunStaysOwned(before);
        StepSilencesExactly(End(INIT, before), step);
      }
  }

  lemma RelyingIsListed(s: State, t: nat, id: int, k: (nat, string))
    requires Routed(s) && Relies(s, t, id, k)
    ensures id in ShareOf(s, k.1).ids
  {
  }

  lemma OrderlyStepIsNotSilencing(s: State, step: Step)
    requires Enabled(s, step) && Routed(s)
    requires forall ref :: Orderly(s, ref)
    ensures !Silences(s, step)
  {
    if step.Install? || step.RollBack? || step.Delete? {
      var c := At(s, step.t);
      var k := if step.Delete? then (c.client, c.rcbRef) else (c.sub.client, c.sub.rcbRef);
      assert Orderly(s, k.1) && WorksOn(s.calls[step.t], k.1) && Shape(ShareOf(s, k.1), c);
      forall id | Relies(s, step.t, id, k)
        ensures if step.Delete? then step.victim == Some(id) else step.Install? && id == c.id
      {
        RelyingIsListed(s, step.t, id, k);
        if step.Delete? {
          assert step.victim.value in ShareOf(s, k.1).ids;
        }
      }
    }
  }

  /** Runs that keep to the discipline take no such step. */
  lemma {:induction false} DisciplinedNeverSilence(tr: Trace)
    requires Runs(INIT, tr) && DisciplinedRun(tr) && |End(INIT, tr).draws| <= WORD
    ensures AlwaysHeard(tr) && NoSilencingStep(tr)
  {
    match tr
    case Start =>
    case Then(before, step) =>
      assert |End(INIT, before).draws| <= |End(INIT, tr).draws|;
      DisciplinedNeverSilence(before);
      RunStaysOrderly(before);
      RunStaysRouted(before);
      OrderlyStepIsNotSilencing(End(INIT, before), step);
      RunSilencesExactly(tr);
  }

  /** For this block registered and installed are one and the same, on every client. */
  ghost predicate TablesMatch(s: State, ref: string) {
    forall id, client :: Belongs(s, id, (client, ref)) ==> (id in s.handlers <==> InstalledAt(s, id, (client, ref)))
  }

  lemma QuietIdMatches(s: State, id: int, k: (nat, string))
    requires Routed(s) && NoneLost(s) && AllHeard(s) && !Busy(s, k.1) && Belongs(s, id, k)
    ensures id in s.handlers <==> InstalledAt(s, id, k)
  {
  }

  /** A run of none of the five steps leaves the tables of a block matching whenever no call is at work on it. */
  lemma HarmlessRunsMatch(tr: Trace, ref: string)
    requires Runs(INIT, tr) && |End(INIT, tr).draws| <= WORD && !Busy(End(INIT, tr), ref)
    requires NoLosingStep(tr) && NoSilencingStep(tr)
    ensures TablesMatch(End(INIT, tr), ref)
  {
    RunLosesExactly(tr);
    NeverLostAtEnd(tr);
    RunSilencesExactly(tr);
    AlwaysHeardAtEnd(tr);
    RunStaysRouted(tr);
    forall id, client | Belongs(End(INIT, tr), id, (client, ref))
      ensures id in End(INIT, tr).handlers <==> InstalledAt(End(INIT, tr), id, (client, ref))
    {
      QuietIdMatches(End(INIT, tr), id, (client, ref));
    }
  }
}
