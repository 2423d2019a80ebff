/**
  No report is lost between an installed C handler and the registry, provided that each control block
  has at most one subscription, live or in progress, across all clients.
 */
module SubscriptionDiscipline {
  import opened Mms
  import opened Subscriptions

  // ----- One control block's share of the state

  /** The ids registered for a control block, and the id installed for it on each client. */
  datatype Share = Share(ids: set<int>, installed: map<nat, int>)

  function Ids(handlers: map<int, Entry>, ref: string): set<int> {
    set id | id in handlers && handlers[id].rcbRef == ref
  }

  function InstalledFor(installed: map<(nat, string), int>, ref: string): map<nat, int> {
    map k | k in installed && k.1 == ref :: k.0 := installed[k]
  }

  function ShareOf(s: State, ref: string): Share {
    Share(Ids(s.handlers, ref), InstalledFor(s.installed, ref))
  }

  lemma IdsAfterAdd(handlers: map<int, Entry>, id: int, e: Entry, ref: string)
    requires id in handlers ==> handlers[id].rcbRef == e.rcbRef
    ensures Ids(handlers[id := e], ref) == Ids(handlers, ref) + if e.rcbRef == ref then {id} else {}
  {
  }

  lemma IdsAfterRemove(handlers: map<int, Entry>, id: int, ref: string)
    ensures Ids(handlers - {id}, ref) == Ids(handlers, ref) - {id}
  {
  }

  lemma InstalledAfterAdd(installed: map<(nat, string), int>, client: nat, r: string, id: int, ref: string)
    ensures InstalledFor(installed[(client, r) := id], ref)
         == if r == ref then InstalledFor(installed, ref)[client := id] else InstalledFor(installed, ref)
  {
  }

  lemma InstalledAfterRemove(installed: map<(nat, string), int>, client: nat, r: string, ref: string)
    ensures InstalledFor(installed - {(client, r)}, ref)
         == if r == ref then InstalledFor(installed, ref) - {client} else InstalledFor(installed, ref)
  {
  }

  /** A call that is subscribing to, or unsubscribing from, the control block. */
  predicate WorksOn(c: Call, ref: string) {
    match c
    case Drawn(sub, _) => sub.rcbRef == ref
    case Registered(sub, _) => sub.rcbRef == ref
    case Installed(sub, _) => sub.rcbRef == ref
    case Refused(sub, _) => sub.rcbRef == ref
    case Unregistered(sub, _) => sub.rcbRef == ref
    case Leaving(_, r) => r == ref
    case Uninstalled(_, r) => r == ref
    case _ => false
  }

  ghost predicate Busy(s: State, ref: string) {
    exists t :: t in s.calls && WorksOn(s.calls[t], ref)
  }

  /**
    What a well-behaved caller waits for before starting a call: nobody is subscribing to or unsubscribing from
    the block; and it is not subscribed to, or, to unsubscribe, is subscribed to by this client only.
   */
  ghost predicate Disciplined(s: State, step: Step) {
    match step
    case Draw(_, sub) => !Busy(s, sub.rcbRef) && ShareOf(s, sub.rcbRef).ids == {}
    case Leave(_, client, ref) => !Busy(s, ref) && ShareOf(s, ref).installed.Keys <= {client}
    case _ => true
  }

  // ----- The invariant, control block by control block

  const ABSENT := Share({}, map[])

  /** Exactly one handler is registered, exactly one is installed, and they are the same. */
  function LiveAs(client: nat, id: int): Share {
    Share({id}, map[client := id])
  }

  ghost predicate AtRest(h: Share) {
    h == ABSENT || exists client :: client in h.installed && h == LiveAs(client, h.installed[client])
  }

  /** What a control block's share looks like while a call works on it. */
  ghost predicate Shape(h: Share, c: Call) {
    match c
    case Drawn(_, _) => h == ABSENT
    case Registered(_, id) => h == Share({id}, map[])
    case Installed(sub, id) => h == LiveAs(sub.client, id)
    case Refused(sub, id) => h == LiveAs(sub.client, id)
    case Unregistered(sub, id) => h == Share({}, map[sub.client := id])
    case Leaving(client, _) => h == ABSENT || (client in h.installed && h == LiveAs(client, h.installed[client]))
    case Uninstalled(_, _) => h.installed == map[] && forall a, b :: a in h.ids && b in h.ids ==> a == b
    case _ => true
  }

  ghost predicate OneWorker(s: State, ref: string) {
    forall t, u :: t in s.calls && u in s.calls && WorksOn(s.calls[t], ref) && WorksOn(s.calls[u], ref) ==> t == u
  }

  ghost predicate Shaped(s: State, ref: string) {
    forall t :: t in s.calls && WorksOn(s.calls[t], ref) ==> Shape(ShareOf(s, ref), s.calls[t])
  }

  ghost predicate Orderly(s: State, ref: string) {
    OneWorker(s, ref) && Shaped(s, ref) && (!Busy(s, ref) ==> AtRest(ShareOf(s, ref)))
  }

  // ----- Each step keeps it

  /** The control block a step works on. */
  function RefOf(s: State, step: Step): Option<string>
    requires Enabled(s, step)
  {
    var c := At(s, step.t);
    match step
    case Draw(_, sub) => Some(sub.rcbRef)
    case Leave(_, _, ref) => Some(ref)
    case Uninstall(_) => Some(c.rcbRef)
    case Delete(_, _) => Some(c.rcbRef)
    case Signal(_, _, _) => None
    case Look(_) => None
    case Invoke(_) => None
    case _ => Some(c.sub.rcbRef)
  }

  /** What a step does to the share of any block. */
  lemma ShareAfter(s: State, step: Step, ref: string)
    requires Enabled(s, step) && Routed(s)
    ensures var c, h, h' := At(s, step.t), ShareOf(s, ref), ShareOf(Next(s, step), ref);
      match step
      case Register(_) => h' == h.(ids := h.ids + if c.sub.rcbRef == ref then {c.id} else {})
      case Unregister(_) => h' == h.(ids := h.ids - {c.id})
      case Delete(_, Some(id)) => h' == h.(ids := h.ids - {id})
      case Install(_) => h' == if c.sub.rcbRef == ref then h.(installed := h.installed[c.sub.client := c.id]) else h
      case RollBack(_) => h' == if c.sub.rcbRef == ref then h.(installed := h.installed - {c.sub.client}) else h
      case Uninstall(_) => h' == if c.rcbRef == ref then h.(installed := h.installed - {c.client}) else h
      case _ => h' == h
  {
    var c := At(s, step.t);
    assert GoodCall(s, c);
    match step
    case Register(_) => IdsAfterAdd(s.handlers, c.id, Entry(c.sub.handler, c.sub.rcbRef), ref);
    case Unregister(_) => IdsAfterRemove(s.handlers, c.id, ref);
    case Delete(_, Some(id)) => IdsAfterRemove(s.handlers, id, ref);
    case Install(_) => InstalledAfterAdd(s.installed, c.sub.client, c.sub.rcbRef, c.id, ref);
    case RollBack(_) => InstalledAfterRemove(s.installed, c.sub.client, c.sub.rcbRef, ref);
    case Uninstall(_) => InstalledAfterRemove(s.installed, c.client, c.rcbRef, ref);
    case _ =>
  }

  /** The id a step removes is not one of another block's. */
  lemma RemovedElsewhere(s: State, step: Step, ref: string)
    requires Enabled(s, step) && Routed(s) && RefOf(s, step) != Some(ref)
    ensures step.Unregister? ==> At(s, step.t).id !in Ids(s.handlers, ref)
    ensures step.Delete? && step.victim.Some? ==> step.victim.value !in Ids(s.handlers, ref)
  {
    assert GoodCall(s, At(s, step.t));
  }

  lemma OtherSharesStay(s: State, step: Step, ref: string)
    requires Enabled(s, step) && Routed(s) && RefOf(s, step) != Some(ref)
    ensures ShareOf(Next(s, step), ref) == ShareOf(s, ref)
  {
    ShareAfter(s, step, ref);
    RemovedElsewhere(s, step, ref);
  }

  lemma OtherCallsStay(s: State, step: Step, ref: string)
    requires Enabled(s, step) && RefOf(s, step) != Some(ref)
    ensures !WorksOn(At(s, step.t), ref) && !WorksOn(At(Next(s, step), step.t), ref)
    ensures forall t :: t != step.t ==> (t in s.calls <==> t in Next(s, step).calls)
    ensures forall t :: t != step.t && t in s.calls ==> Next(s, step).calls[t] == s.calls[t]
  {
  }

  lemma SameWorkersStayOrderly(s: State, s': State, t: nat, ref: string)
    requires Orderly(s, ref) && ShareOf(s', ref) == ShareOf(s, ref)
    requires !WorksOn(At(s, t), ref) && !WorksOn(At(s', t), ref)
    requires forall u :: u != t ==> (u in s.calls <==> u in s'.calls)
    requires forall u :: u != t && u in s.calls ==> s'.calls[u] == s.calls[u]
    ensures Orderly(s', ref)
  {
    forall u | u in s'.calls && WorksOn(s'.calls[u], ref)
      ensures u in s.calls && s'.calls[u] == s.calls[u]
    {
    }
    if Busy(s, ref) {
      var u :| u in s.calls && WorksOn(s.calls[u], ref);
      assert u in s'.calls && WorksOn(s'.calls[u], ref);
    }
  }

  lemma OthersStayOrderly(s: State, step: Step, ref: string)
    requires Enabled(s, step) && Routed(s) && RefOf(s, step) != Some(ref) && Orderly(s, ref)
    ensures Orderly(Next(s, step), ref)
  {
    OtherSharesStay(s, step, ref);
    OtherCallsStay(s, step, ref);
    SameWorkersStayOrderly(s, Next(s, step), step.t, ref);
  }

  /** Where a thread working on a block is after a step, given where it was. */
  function CallAfter(c: Call, step: Step): Call {
    match step
    case Register(_) => if c.Drawn? then Call.Registered(c.sub, c.id) else Idle
    case Install(_) => if c.Registered? then Call.Installed(c.sub, c.id) else Idle
    case Refuse(_) => if c.Installed? then Refused(c.sub, c.id) else Idle
    case Unregister(_) => if c.Refused? then Unregistered(c.sub, c.id) else Idle
    case Uninstall(_) => if c.Leaving? then Uninstalled(c.client, c.rcbRef) else Idle
    case _ => Idle
  }

  lemma SubscriberFits(h: Share, h': Share, c: Call, step: Step)
    requires Shape(h, c)
    requires match step
      case Register(_) => c.Drawn? && h' == h.(ids := h.ids + {c.id})
      case Install(_) => c.Registered? && h' == h.(installed := h.installed[c.sub.client := c.id])
      case Accept(_) => c.Installed? && h' == h
      case Refuse(_) => c.Installed? && h' == h
      case Unregister(_) => c.Refused? && h' == h.(ids := h.ids - {c.id})
      case RollBack(_) => c.Unregistered? && h' == h.(installed := h.installed - {c.sub.client})
      case _ => false
    ensures if step.Accept? || step.RollBack? then AtRest(h') else Shape(h', CallAfter(c, step))
  {
    if step.Accept? {
      assert c.sub.client in h.installed;
    }
  }

  lemma LeaverFits(h: Share, h': Share, c: Call, step: Step)
    requires Shape(h, c)
    requires match step
      case Uninstall(_) => c.Leaving? && h' == h.(installed := h.installed - {c.client})
      case Delete(_, None) => c.Uninstalled? && h' == h && h.ids == {}
      case Delete(_, Some(id)) => c.Uninstalled? && h' == h.(ids := h.ids - {id}) && id in h.ids
      case _ => false
    ensures if step.Delete? then AtRest(h') else Shape(h', CallAfter(c, step))
  {
    if step.Delete? && step.victim.Some? {
      assert forall x :: x in h.ids ==> x == step.victim.value;
      assert h'.ids == {};
    }
  }

  /** The share of the block a step works on, after the step. */
  lemma OwnShareFits(s: State, step: Step, ref: string)
    requires Enabled(s, step) && Routed(s) && RefOf(s, step) == Some(ref) && Disciplined(s, step) && Orderly(s, ref)
    ensures var c := At(Next(s, step), step.t);
      if WorksOn(c, ref) then Shape(ShareOf(Next(s, step), ref), c) else AtRest(ShareOf(Next(s, step), ref))
  {
    ShareAfter(s, step, ref);
    var c, h, h' := At(s, step.t), ShareOf(s, ref), ShareOf(Next(s, step), ref);
    if step.Draw? || step.Leave? {
      assert h' == h;
    } else {
      assert step.t in s.calls && WorksOn(c, ref) && Shape(h, c);
      if step.Uninstall? || step.Delete? {
        if step.Delete? && step.victim.None? {
          forall id
            ensures id !in h.ids
          {
            assert id in s.handlers ==> s.handlers[id].rcbRef != c.rcbRef;
          }
        }
        LeaverFits(h, h', c, step);
      } else {
        SubscriberFits(h, h', c, step);
      }
    }
  }

  lemma OwnStaysOrderly(s: State, step: Step, ref: string)
    requires Enabled(s, step) && Routed(s) && RefOf(s, step) == Some(ref) && Disciplined(s, step) && Orderly(s, ref)
    ensures Orderly(Next(s, step), ref)
  {
    OwnShareFits(s, step, ref);
    var s' := Next(s, step);
    forall u | u in s'.calls && u != step.t
      ensures !WorksOn(s'.calls[u], ref)
    {
      assert s'.calls[u] == s.calls[u];
      if !step.Draw? && !step.Leave? {
        assert step.t in s.calls && WorksOn(s.calls[step.t], ref);
      }
    }
  }

  lemma StepStaysOrderly(s: State, step: Step)
    requires Enabled(s, step) && Routed(s) && Disciplined(s, step)
    requires forall ref :: Orderly(s, ref)
    ensures forall ref :: Orderly(Next(s, step), ref)
  {
    forall ref
      ensures Orderly(Next(s, step), ref)
    {
      if RefOf(s, step) == Some(ref) {
        OwnStaysOrderly(s, step, ref);
      } else {
        OthersStayOrderly(s, step, ref);
      }
    }
  }

  // ----- Over runs

  /** Every call of the run was started as the discipline asks. */
  ghost predicate DisciplinedRun(tr: Trace)
    requires Runs(INIT, tr)
  {
    match tr
    case Start => true
    case Then(before, step) => DisciplinedRun(before) && Disciplined(End(INIT, before), step)
  }

  lemma {:induction false} RunStaysOrderly(tr: Trace)
    requires Runs(INIT, tr) && DisciplinedRun(tr) && |End(INIT, tr).draws| <= WORD
    ensures forall ref :: Orderly(End(INIT, tr), ref)
  {
    match tr
    case Start =>
      forall ref
        ensures ShareOf(INIT, ref) == ABSENT
      {
      }
    case Then(before, step) =>
      var s := End(INIT, before);
      assert |s.draws| <= |End(INIT, tr).draws|;
      RunStaysOrderly(before);
      RunStaysRouted(before);
      StepStaysOrderly(s, step);
  }

  /**
    No lost report window: in every state of a disciplined run, an installed handler id is registered, for the
    same control block, unless some thread is between the two steps of rolling that very installation back.
   */
  lemma InstalledIsRegistered(tr: Trace, client: nat, ref: string)
    requires Runs(INIT, tr) && DisciplinedRun(tr) && |End(INIT, tr).draws| <= WORD
    requires (client, ref) in End(INIT, tr).installed
    ensures var s := End(INIT, tr);
      var id := s.installed[(client, ref)];
      || (id in s.handlers && s.handlers[id].rcbRef == ref)
      || exists t :: t in s.calls && s.calls[t].Unregistered? && s.calls[t].id == id
                     && s.calls[t].sub.client == client && s.calls[t].sub.rcbRef == ref
  {
    RunStaysOrderly(tr);
    var s := End(INIT, tr);
    var id := s.installed[(client, ref)];
    var h := ShareOf(s, ref);
    assert Orderly(s, ref) && client in h.installed && h.installed[client] == id;
    if Busy(s, ref) {
      var t :| t in s.calls && WorksOn(s.calls[t], ref);
      assert Shape(h, s.calls[t]);
      if !s.calls[t].Unregistered? {
        assert id in h.ids;
      }
    } else {
      assert id in h.ids;
    }
  }

  /** When nobody works on a control block, its registered handlers and its installed ones are the same, at most one. */
  lemma QuietBlocksMatch(tr: Trace, ref: string)
    requires Runs(INIT, tr) && DisciplinedRun(tr) && |End(INIT, tr).draws| <= WORD
    requires !Busy(End(INIT, tr), ref)
    ensures AtRest(ShareOf(End(INIT, tr), ref))
  {
    RunStaysOrderly(tr);
    assert Orderly(End(INIT, tr), ref);
  }
}
