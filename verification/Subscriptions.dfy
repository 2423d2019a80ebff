/**
  Report subscriptions as a protocol: subscribe, unsubscribe and report callbacks run on any number of
  threads over one handler registry, one id counter, and one table of installed C handlers per client.
  Each step is atomic in the code: an atomic add, a section under the registry's lock, or a library call.
 */
module Subscriptions {
  import opened Mms

  datatype Subscription = Subscription(client: nat, rcbRef: string, handler: nat)

  /** What the registry holds under an id. */
  datatype Entry = Entry(handler: nat, rcbRef: string)

  // ----- Ids are drawn from a 32-bit counter

  const WORD := 0x1_0000_0000

  function Wrap(i: int): int {
    if i % WORD < WORD / 2 then i % WORD else i % WORD - WORD
  }

  /** The id that the `k`-th draw yields, counting from 0. */
  function IdOf(k: nat): int {
    Wrap(k + 1)
  }

  /** The number of the first draw that yields `id`. */
  function Serial(id: int): nat {
    (id - 1) % WORD
  }

  /** Ids are 32-bit signed integers, each the count of draws up to a multiple of 2^32. */
  lemma IdsAreInt32(k: nat)
    ensures -0x8000_0000 <= IdOf(k) < 0x8000_0000 && (k + 1 - IdOf(k)) % 0x1_0000_0000 == 0
  {
    var q, r := (k + 1) / WORD, (k + 1) % WORD;
    assert k + 1 == WORD * q + r;
    if r < WORD / 2 {
      assert k + 1 - IdOf(k) == WORD * q;
    } else {
      assert k + 1 - IdOf(k) == WORD * (q + 1);
    }
  }

  lemma NextResidue(k: nat)
    ensures (k + 1) % WORD == if k % WORD == WORD - 1 then 0 else k % WORD + 1
  {
    var q, r := k / WORD, k % WORD;
    assert k + 1 == WORD * q + (r + 1);
  }

  /** Two draws yield the same id exactly when the counter has gone round between them. */
  lemma IdsCollide(j: nat, k: nat)
    ensures IdOf(j) == IdOf(k) <==> j % WORD == k % WORD
  {
    NextResidue(j);
    NextResidue(k);
  }

  lemma SerialOfDraw(k: nat)
    requires k < WORD
    ensures Serial(IdOf(k)) == k
    ensures Wrap(Wrap(k) + 1) == IdOf(k)
  {
  }

  // ----- States

  /** How far a thread has got with its call. */
  datatype Call =
    | Idle
    | Drawn(sub: Subscription, id: int)
    | Registered(sub: Subscription, id: int)
    | Installed(sub: Subscription, id: int)         // the enabling request is under way
    | Refused(sub: Subscription, id: int)           // it failed: roll back
    | Unregistered(sub: Subscription, id: int)      // between the two steps of the roll back
    | Leaving(client: nat, rcbRef: string)          // an unsubscribe about to uninstall
    | Uninstalled(client: nat, rcbRef: string)      // an unsubscribe about to delete
    | Signalled(client: nat, rcbRef: string, id: int)   // a report came in for the handler with this id
    | Found(client: nat, rcbRef: string, id: int, entry: Entry)

  /** A handler call: the report's client and control block, the id it was routed by, and the entry used. */
  datatype Delivery = Delivery(client: nat, rcbRef: string, id: int, entry: Entry)

  /** `draws` and `deliveries` record history; no step depends on them. */
  datatype State = State(
    nextId: int,
    handlers: map<int, Entry>,
    installed: map<(nat, string), int>,
    calls: map<nat, Call>,
    draws: seq<Subscription>,
    deliveries: seq<Delivery>
  )

  const INIT := State(0, map[], map[], map[], [], [])

  function At(s: State, t: nat): Call {
    if t in s.calls then s.calls[t] else Idle
  }

  // ----- Steps

  datatype Step =
    | Draw(t: nat, sub: Subscription)
    | Register(t: nat)
    | Install(t: nat)
    | Accept(t: nat)
    | Refuse(t: nat)
    | Unregister(t: nat)
    | RollBack(t: nat)
    | Leave(t: nat, client: nat, rcbRef: string)
    | Uninstall(t: nat)
    | Delete(t: nat, victim: Option<int>)           // the map's iteration order picks the victim
    | Signal(t: nat, client: nat, rcbRef: string)
    | Look(t: nat)
    | Invoke(t: nat)

  predicate Enabled(s: State, step: Step) {
    var c := At(s, step.t);
    match step
    case Draw(_, _) => c.Idle?
    case Register(_) => c.Drawn?
    case Install(_) => c.Registered?
    case Accept(_) => c.Installed?
    case Refuse(_) => c.Installed?
    case Unregister(_) => c.Refused?
    case RollBack(_) => c.Unregistered?
    case Leave(_, _, _) => c.Idle?
    case Uninstall(_) => c.Leaving?
    case Delete(_, None) => c.Uninstalled? && forall id :: id in s.handlers ==> s.handlers[id].rcbRef != c.rcbRef
    case Delete(_, Some(id)) => c.Uninstalled? && id in s.handlers && s.handlers[id].rcbRef == c.rcbRef
    case Signal(_, client, ref) => c.Idle? && (client, ref) in s.installed
    case Look(_) => c.Signalled?
    case Invoke(_) => c.Found?
  }

  function Goto(s: State, t: nat, c: Call): State {
    s.(calls := s.calls[t := c])
  }

  function Next(s: State, step: Step): State
    requires Enabled(s, step)
  {
    var t := step.t;
    var c := At(s, t);
    match step
    case Draw(_, sub) =>
      var id := Wrap(s.nextId + 1);
      Goto(s.(nextId := id, draws := s.draws + [sub]), t, Drawn(sub, id))
    case Register(_) =>
      Goto(s.(handlers := s.handlers[c.id := Entry(c.sub.handler, c.sub.rcbRef)]), t, Registered(c.sub, c.id))
    case Install(_) =>
      Goto(s.(installed := s.installed[(c.sub.client, c.sub.rcbRef) := c.id]), t, Installed(c.sub, c.id))
    case Accept(_) => Goto(s, t, Idle)
    case Refuse(_) => Goto(s, t, Refused(c.sub, c.id))
    case Unregister(_) => Goto(s.(handlers := s.handlers - {c.id}), t, Unregistered(c.sub, c.id))
    case RollBack(_) => Goto(s.(installed := s.installed - {(c.sub.client, c.sub.rcbRef)}), t, Idle)
    case Leave(_, client, ref) => Goto(s, t, Leaving(client, ref))
    case Uninstall(_) => Goto(s.(installed := s.installed - {(c.client, c.rcbRef)}), t, Uninstalled(c.client, c.rcbRef))
    case Delete(_, None) => Goto(s, t, Idle)
    case Delete(_, Some(id)) => Goto(s.(handlers := s.handlers - {id}), t, Idle)
    case Signal(_, client, ref) => Goto(s, t, Signalled(client, ref, s.installed[(client, ref)]))
    case Look(_) => Goto(s, t, if c.id in s.handlers then Found(c.client, c.rcbRef, c.id, s.handlers[c.id]) else Idle)
    case Invoke(_) =>
      Goto(s.(deliveries := s.deliveries + [Delivery(c.client, c.rcbRef, c.id, c.entry)]), t, Idle)
  }

  // ----- Runs

  datatype Trace = Start | Then(before: Trace, step: Step)

  /** Whether the steps of `tr` can be taken from `s`, and where they lead. */
  predicate Runs(s: State, tr: Trace)
    decreases tr, 0
  {
    match tr
    case Start => true
    case Then(before, step) => Runs(s, before) && Enabled(End(s, before), step)
  }

  function End(s: State, tr: Trace): State
    requires Runs(s, tr)
    decreases tr, 1
  {
    match tr
    case Start => s
    case Then(before, step) => Next(End(s, before), step)
  }

  function Append(a: Trace, b: Trace): Trace {
    match b
    case Start => a
    case Then(before, step) => Then(Append(a, before), step)
  }

  lemma {:induction false} RunsInTurn(s: State, a: Trace, b: Trace)
    requires Runs(s, a) && Runs(End(s, a), b)
    ensures Runs(s, Append(a, b)) && End(s, Append(a, b)) == End(End(s, a), b)
  {
    match b
    case Start =>
    case Then(before, step) => RunsInTurn(s, a, before);
  }

  lemma Take(s: State, tr: Trace, step: Step) returns (more: Trace)
    requires Runs(s, tr) && Enabled(End(s, tr), step)
    ensures more == Then(tr, step) && Runs(s, more) && End(s, more) == Next(End(s, tr), step)
  {
    more := Then(tr, step);
  }

  // ----- Routing

  /** `id` was drawn, and by `sub`. */
  predicate DrawnBy(s: State, id: int, sub: Subscription) {
    Serial(id) < |s.draws| && IdOf(Serial(id)) == id && s.draws[Serial(id)] == sub
  }

  predicate GoodCall(s: State, c: Call) {
    match c
    case Drawn(sub, id) => DrawnBy(s, id, sub)
    case Registered(sub, id) => DrawnBy(s, id, sub)
    case Installed(sub, id) => DrawnBy(s, id, sub)
    case Refused(sub, id) => DrawnBy(s, id, sub)
    case Unregistered(sub, id) => DrawnBy(s, id, sub)
    case Signalled(client, ref, id) =>
      Serial(id) < |s.draws| && DrawnBy(s, id, Subscription(client, ref, s.draws[Serial(id)].handler))
    case Found(client, ref, id, entry) =>
      entry.rcbRef == ref && DrawnBy(s, id, Subscription(client, ref, entry.handler))
    case _ => true
  }

  ghost predicate GoodEntries(s: State) {
    forall id :: id in s.handlers ==>
      && Serial(id) < |s.draws| && IdOf(Serial(id)) == id
      && s.handlers[id] == Entry(s.draws[Serial(id)].handler, s.draws[Serial(id)].rcbRef)
  }

  ghost predicate GoodInstalls(s: State) {
    forall k :: k in s.installed ==>
      && Serial(s.installed[k]) < |s.draws|
      && DrawnBy(s, s.installed[k], Subscription(k.0, k.1, s.draws[Serial(s.installed[k])].handler))
  }

  ghost predicate GoodDeliveries(s: State) {
    forall d :: d in s.deliveries ==>
      d.entry.rcbRef == d.rcbRef && DrawnBy(s, d.id, Subscription(d.client, d.rcbRef, d.entry.handler))
  }

  ghost predicate GoodCalls(s: State) {
    forall t :: t in s.calls ==> GoodCall(s, s.calls[t])
  }

  ghost predicate Routed(s: State) {
    s.nextId == Wrap(|s.draws|) && GoodEntries(s) && GoodInstalls(s) && GoodCalls(s) && GoodDeliveries(s)
  }

  /** Draws are only appended, so what was drawn stays drawn. */
  lemma DrawnStays(s: State, step: Step)
    requires Enabled(s, step) && Routed(s) && |Next(s, step).draws| <= WORD
    ensures forall id, sub :: DrawnBy(s, id, sub) ==> DrawnBy(Next(s, step), id, sub)
    ensures forall i :: 0 <= i < |s.draws| ==> Next(s, step).draws[i] == s.draws[i]
    ensures |s.draws| <= |Next(s, step).draws|
    ensures step.Draw? ==> DrawnBy(Next(s, step), Next(s, step).nextId, step.sub)
    ensures Next(s, step).nextId == Wrap(|Next(s, step).draws|)
  {
    if step.Draw? {
      SerialOfDraw(|s.draws|);
    }
  }

  lemma EntriesStayGood(s: State, step: Step)
    requires Enabled(s, step) && Routed(s) && |Next(s, step).draws| <= WORD
    ensures GoodEntries(Next(s, step))
  {
  }

  lemma InstallsStayGood(s: State, step: Step)
    requires Enabled(s, step) && Routed(s) && |Next(s, step).draws| <= WORD
    ensures GoodInstalls(Next(s, step))
  {
  }

  lemma GoodCallStays(s: State, step: Step, c: Call)
    requires Enabled(s, step) && Routed(s) && |Next(s, step).draws| <= WORD && GoodCall(s, c)
    ensures GoodCall(Next(s, step), c)
  {
    DrawnStays(s, step);
  }

  lemma OwnCallStaysGood(s: State, step: Step)
    requires Enabled(s, step) && Routed(s) && |Next(s, step).draws| <= WORD
    ensures GoodCall(Next(s, step), At(Next(s, step), step.t))
  {
    DrawnStays(s, step);
    assert GoodCall(s, At(s, step.t));
  }

  lemma DeliveriesStayGood(s: State, step: Step)
    requires Enabled(s, step) && Routed(s) && |Next(s, step).draws| <= WORD
    ensures GoodDeliveries(Next(s, step))
  {
    DrawnStays(s, step);
    assert GoodCall(s, At(s, step.t));
  }

  /** Every step keeps the routing facts while the counter has not gone round. */
  lemma StepStaysRouted(s: State, step: Step)
    requires Enabled(s, step) && Routed(s) && |Next(s, step).draws| <= WORD
    ensures Routed(Next(s, step))
  {
    DrawnStays(s, step);
    EntriesStayGood(s, step);
    InstallsStayGood(s, step);
    DeliveriesStayGood(s, step);
    OwnCallStaysGood(s, step);
    var s' := Next(s, step);
    forall t | t in s'.calls
      ensures GoodCall(s', s'.calls[t])
    {
      if t != step.t {
        assert s'.calls[t] == s.calls[t];
        GoodCallStays(s, step, s.calls[t]);
      }
    }
  }

  lemma {:induction false} RunStaysRouted(tr: Trace)
    requires Runs(INIT, tr) && |End(INIT, tr).draws| <= WORD
    ensures Routed(End(INIT, tr))
  {
    match tr
    case Start =>
    case Then(before, step) =>
      assert |End(INIT, before).draws| <= |End(INIT, tr).draws|;
      RunStaysRouted(before);
      StepStaysRouted(End(INIT, before), step);
  }

  /**
    Routing, over every run with at most 2^32 subscriptions: a report of a control block received by a
    client reaches the handler, and carries the reference, of the one subscription that drew its id,
    and that subscription was for this very client and control block.
   */
  lemma ReportsReachTheirSubscriber(tr: Trace, d: Delivery)
    requires Runs(INIT, tr) && |End(INIT, tr).draws| <= WORD
    requires d in End(INIT, tr).deliveries
    ensures var draws := End(INIT, tr).draws;
      && d.entry.rcbRef == d.rcbRef
      && (exists k :: 0 <= k < |draws| && IdOf(k) == d.id
                      && draws[k] == Subscription(d.client, d.rcbRef, d.entry.handler))
      && (forall j, k :: 0 <= j < |draws| && 0 <= k < |draws| && IdOf(j) == d.id && IdOf(k) == d.id ==> j == k)
  {
    RunStaysRouted(tr);
    var draws := End(INIT, tr).draws;
    assert IdOf(Serial(d.id)) == d.id;
    forall j, k | 0 <= j < |draws| && 0 <= k < |draws| && IdOf(j) == d.id && IdOf(k) == d.id
      ensures j == k
    {
      SerialOfDraw(j);
      SerialOfDraw(k);
    }
  }
}
