/**
  The cache of control-object clients: who owns the library's objects over whole runs of operate and clear calls.
  Every method holds the client's mutex from start to end, so a run is a sequence of calls.
 */
module ControlCache {
  import opened Mms

  /** Which of the three operate methods; also the type of the value it allocates. */
  datatype Kind = BoolKind | IntKind | FloatKind

  type int32 = i: int | -0x8000_0000 <= i < 0x8000_0000

  /** What the caller asks the control to be set to. */
  datatype CtlValue = BoolCtl(b: bool) | IntCtl(i: int32) | FloatCtl(f: real)
  {
    function Kind(): Kind {
      match this
      case BoolCtl(_) => BoolKind
      case IntCtl(_) => IntKind
      case FloatCtl(_) => FloatKind
    }
  }

  /** A control client the library created, whether the server's ctlVal is an MMS_INTEGER, and for which method. */
  datatype ControlClient = ControlClient(ref: string, isInteger: bool, creator: Kind)

  /** An `MmsValue` the library allocated; `epoch` counts the clears before. */
  datatype Allocated = Allocated(ref: string, epoch: nat, kind: Kind)

  /** One value set and operated with: by which method, on which client, in which value object, and to what. */
  datatype Sent = Sent(ref: string, epoch: nat, kind: Kind, ctrl: nat, value: nat, val: CtlValue)

  datatype CachedControl = CachedControl(ctrl: nat, ctlReuse: Option<nat>)

  /** The cache, and the record of all calls into the library. */
  datatype State = State(
    cache: map<string, CachedControl>,
    clients: seq<ControlClient>,
    values: seq<Allocated>,
    destroyedClients: seq<nat>,
    destroyedValues: seq<nat>,
    sent: seq<Sent>,
    epoch: nat
  )

  const INIT := State(map[], [], [], [], [], [], 0)

  /** What the library answers in one operate call. */
  datatype Answers = Answers(createOk: bool, isInteger: bool, newOk: bool)

  // ----- One call

  datatype Obtained = Obtained(state: State, ok: bool)

  /** Only the integer method requires an integer control. */
  function Obtain(s: State, ref: string, creator: Kind, ans: Answers): Obtained {
    if ref in s.cache then Obtained(s, true)
    else if !ans.createOk then Obtained(s, false)
    else
      var ctrl := |s.clients|;
      var created := s.(clients := s.clients + [ControlClient(ref, ans.isInteger, creator)]);
      if creator.IntKind? && !ans.isInteger then
        Obtained(created.(destroyedClients := s.destroyedClients + [ctrl]), false)
      else
        Obtained(created.(cache := s.cache[ref := CachedControl(ctrl, None)]), true)
  }

  /** The value to reuse for a cached reference, allocated on first use. */
  function Reuse(s: State, ref: string, kind: Kind, newOk: bool): Obtained
    requires ref in s.cache
  {
    if s.cache[ref].ctlReuse.Some? then Obtained(s, true)
    else if !newOk then Obtained(s, false)
    else Obtained(s.(values := s.values + [Allocated(ref, s.epoch, kind)],
                     cache := s.cache[ref := s.cache[ref].(ctlReuse := Some(|s.values|))]), true)
  }

  function Send(s: State, ref: string, val: CtlValue): State
    requires ref in s.cache && s.cache[ref].ctlReuse.Some?
  {
    s.(sent := s.sent + [Sent(ref, s.epoch, val.Kind(), s.cache[ref].ctrl, s.cache[ref].ctlReuse.value, val)])
  }

  function Operate(s: State, val: CtlValue, ref: string, ans: Answers): State {
    var o := Obtain(s, ref, val.Kind(), ans);
    if !o.ok then o.state
    else
      var r := Reuse(o.state, ref, val.Kind(), ans.newOk);
      if !r.ok then r.state else Send(r.state, ref, val)
  }

  /** The references in the order in which the clear visits them: each cached one once. */
  ghost predicate Visits(order: seq<string>, cache: map<string, CachedControl>) {
    && (forall i :: 0 <= i < |order| ==> order[i] in cache)
    && (forall ref :: ref in cache ==> exists i :: 0 <= i < |order| && order[i] == ref)
    && (forall i, j :: 0 <= i < j < |order| ==> order[i] != order[j])
  }

  function Clients(cache: map<string, CachedControl>, order: seq<string>): seq<nat>
    requires forall i :: 0 <= i < |order| ==> order[i] in cache
  {
    seq(|order|, i requires 0 <= i < |order| => cache[order[i]].ctrl)
  }

  function Values(cache: map<string, CachedControl>, order: seq<string>): seq<nat>
    requires forall i :: 0 <= i < |order| ==> order[i] in cache
  {
    if order == [] then []
    else
      var n := |order| - 1;
      Values(cache, order[..n]) + if cache[order[n]].ctlReuse.Some? then [cache[order[n]].ctlReuse.value] else []
  }

  lemma OneMoreVisited(cache: map<string, CachedControl>, order: seq<string>, n: nat)
    requires n < |order| && forall i :: 0 <= i < |order| ==> order[i] in cache
    ensures Clients(cache, order[..n + 1]) == Clients(cache, order[..n]) + [cache[order[n]].ctrl]
    ensures Values(cache, order[..n + 1])
         == Values(cache, order[..n]) + if cache[order[n]].ctlReuse.Some? then [cache[order[n]].ctlReuse.value] else []
  {
    assert order[..n + 1][..n] == order[..n];
  }

  function Clear(s: State, order: seq<string>): State
    requires forall i :: 0 <= i < |order| ==> order[i] in s.cache
  {
    s.(cache := map[], destroyedClients := s.destroyedClients + Clients(s.cache, order),
       destroyedValues := s.destroyedValues + Values(s.cache, order), epoch := s.epoch + 1)
  }

  // ----- The object

  /** The errors an operate method returns, in the order it can meet them, and its success. */
  datatype Outcome = CreateFailed | NotInteger | NewFailed | OperateFailed | Operated

  class ControlObjects {
    var controlCache: map<string, CachedControl>
    ghost var clients: seq<ControlClient>
    ghost var values: seq<Allocated>
    ghost var destroyedClients: seq<nat>
    ghost var destroyedValues: seq<nat>
    ghost var sent: seq<Sent>
    ghost var epoch: nat

    ghost function Value(): State
      reads this
    {
      State(controlCache, clients, values, destroyedClients, destroyedValues, sent, epoch)
    }

    constructor ()
      ensures Value() == INIT
    {
      controlCache := map[];
      clients, values, destroyedClients, destroyedValues, sent, epoch := [], [], [], [], [], 0;
    }

    /** `ctrl` is the handle the library returns: the number of the client it creates, or `None`. */
    method GetOrCreateControlEntryLocked(ref: string, requireMmsInteger: bool, ctrl: Option<nat>, isInteger: bool,
                                         ghost creator: Kind) returns (ok: bool)
      requires requireMmsInteger <==> creator.IntKind?
      requires ctrl.Some? ==> ctrl.value == |clients|
      modifies this
      ensures Obtained(Value(), ok) == Obtain(old(Value()), ref, creator, Answers(ctrl.Some?, isInteger, false))
      ensures ok <==> ref in old(controlCache) || (ctrl.Some? && (requireMmsInteger ==> isInteger))
      ensures controlCache == if ok && ref !in old(controlCache)
                              then old(controlCache)[ref := CachedControl(ctrl.value, None)] else old(controlCache)
      ensures destroyedClients == old(destroyedClients) + if !ok && ctrl.Some? then [ctrl.value] else []
    {
      if ref in controlCache {
        return true;
      }
      if ctrl.None? {
        return false;
      }
      clients := clients + [ControlClient(ref, isInteger, creator)];
      if requireMmsInteger && !isInteger {
        destroyedClients := destroyedClients + [ctrl.value];
        return false;
      }
      controlCache := controlCache[ref := CachedControl(ctrl.value, None)];
      return true;
    }

    /**
      The body the three operate methods share, one per kind of value. `ctrl` and `value` are the handles of the
      client and the value object the library creates, or `None`; `operateOk` is its answer to the operate request.
     */
    method DirectWithNormalSecurity(val: CtlValue, ref: string, ctrl: Option<nat>, isInteger: bool,
                                    value: Option<nat>, operateOk: bool) returns (outcome: Outcome)
      requires ctrl.Some? ==> ctrl.value == |clients|
      requires value.Some? ==> value.value == |values|
      modifies this
      ensures Value() == Operate(old(Value()), val, ref, Answers(ctrl.Some?, isInteger, value.Some?))
      ensures outcome.CreateFailed? <==> ref !in old(controlCache) && ctrl.None?
      ensures outcome.NotInteger? <==> ref !in old(controlCache) && ctrl.Some? && val.IntCtl? && !isInteger
      ensures outcome.NewFailed? <==> && (ref in old(controlCache) || (ctrl.Some? && (val.IntCtl? ==> isInteger)))
                                      && (ref in old(controlCache) ==> old(controlCache)[ref].ctlReuse.None?)
                                      && value.None?
      ensures outcome.CreateFailed? || outcome.NotInteger? || outcome.NewFailed? ==> sent == old(sent)
      ensures outcome.Operated? || outcome.OperateFailed? ==>
                && (outcome.Operated? <==> operateOk)
                && var hit := ref in old(controlCache);
                   var handle := if hit then old(controlCache)[ref].ctrl else ctrl.value;
                   var held := if hit && old(controlCache)[ref].ctlReuse.Some?
                               then old(controlCache)[ref].ctlReuse.value else value.value;
                   && sent == old(sent) + [Sent(ref, old(epoch), val.Kind(), handle, held, val)]
                   && controlCache == old(controlCache)[ref := CachedControl(handle, Some(held))]
    {
      var ok := GetOrCreateControlEntryLocked(ref, val.IntCtl?, ctrl, isInteger, val.Kind());
      if !ok {
        return if ctrl.None? then CreateFailed else NotInteger;
      }
      var e := controlCache[ref];
      if e.ctlReuse.None? {
        if value.None? {
          return NewFailed;
        }
        values := values + [Allocated(ref, epoch, val.Kind())];
        e := e.(ctlReuse := value);
        controlCache := controlCache[ref := e];
      }
      sent := sent + [Sent(ref, epoch, val.Kind(), e.ctrl, e.ctlReuse.value, val)];
      return if operateOk then Operated else OperateFailed;
    }

    /** The loop of the clear. */
    method DestroyEntries(order: seq<string>)
      requires forall i :: 0 <= i < |order| ==> order[i] in controlCache
      modifies this`destroyedClients, this`destroyedValues
      ensures destroyedClients == old(destroyedClients) + Clients(controlCache, order)
      ensures destroyedValues == old(destroyedValues) + Values(controlCache, order)
    {
      for i := 0 to |order|
        invariant destroyedClients == old(destroyedClients) + Clients(controlCache, order[..i])
        invariant destroyedValues == old(destroyedValues) + Values(controlCache, order[..i])
      {
        OneMoreVisited(controlCache, order, i);
        var e := controlCache[order[i]];
        if e.ctlReuse.Some? {
          destroyedValues := destroyedValues + [e.ctlReuse.value];
        }
        destroyedClients := destroyedClients + [e.ctrl];
      }
      assert order[..|order|] == order;
    }

    /** `order` is the order in which the loop happens to visit the cache. */
    method ClearControlObjectCache(order: seq<string>)
      requires Visits(order, controlCache)
      modifies this
      ensures Value() == Clear(old(Value()), order)
    {
      DestroyEntries(order);
      controlCache := map[];
      epoch := epoch + 1;
    }
  }

  // ----- Runs

  datatype Call = OperateCall(val: CtlValue, ref: string, ans: Answers) | ClearCall(order: seq<string>)

  datatype Trace = Start | Then(before: Trace, call: Call)

  ghost predicate Runs(tr: Trace)
    decreases tr, 0
  {
    match tr
    case Start => true
    case Then(before, OperateCall(_, _, _)) => Runs(before)
    case Then(before, ClearCall(order)) => Runs(before) && Visits(order, End(before).cache)
  }

  ghost function End(tr: Trace): State
    requires Runs(tr)
    decreases tr, 1
  {
    match tr
    case Start => INIT
    case Then(before, OperateCall(val, ref, ans)) => Operate(End(before), val, ref, ans)
    case Then(before, ClearCall(order)) => Clear(End(before), order)
  }

  // ----- Ownership

  ghost predicate Distinct(s: seq<nat>) {
    forall i, j :: 0 <= i < j < |s| ==> s[i] != s[j]
  }

  ghost predicate Has(s: seq<nat>, x: nat) {
    exists i :: 0 <= i < |s| && s[i] == x
  }

  ghost predicate ClientCached(s: State, c: nat)
    requires c < |s.clients|
  {
    s.clients[c].ref in s.cache && s.cache[s.clients[c].ref].ctrl == c
  }

  ghost predicate ValueCached(s: State, v: nat)
    requires v < |s.values|
  {
    s.values[v].ref in s.cache && s.cache[s.values[v].ref].ctlReuse == Some(v)
  }

  /** Each client ever created is cached under its reference or destroyed, never both, and destroyed at most once. */
  ghost predicate ClientsOwned(s: State) {
    && Distinct(s.destroyedClients)
    && (forall i :: 0 <= i < |s.destroyedClients| ==> s.destroyedClients[i] < |s.clients|)
    && (forall c :: 0 <= c < |s.clients| ==> (ClientCached(s, c) <==> !Has(s.destroyedClients, c)))
    && (forall ref :: ref in s.cache ==> s.cache[ref].ctrl < |s.clients| && s.clients[s.cache[ref].ctrl].ref == ref)
  }

  /** The same for each value ever allocated. */
  ghost predicate ValuesOwned(s: State) {
    && Distinct(s.destroyedValues)
    && (forall i :: 0 <= i < |s.destroyedValues| ==> s.destroyedValues[i] < |s.values|)
    && (forall v :: 0 <= v < |s.values| ==> (ValueCached(s, v) <==> !Has(s.destroyedValues, v)))
    && (forall ref :: ref in s.cache && s.cache[ref].ctlReuse.Some? ==>
          s.cache[ref].ctlReuse.value < |s.values| && s.values[s.cache[ref].ctlReuse.value].ref == ref)
  }

  lemma HasAppended(s: seq<nat>, t: seq<nat>, x: nat)
    ensures Has(s + t, x) <==> Has(s, x) || Has(t, x)
  {
    if i :| 0 <= i < |s| && s[i] == x {
      assert (s + t)[i] == x;
    }
    if i :| 0 <= i < |t| && t[i] == x {
      assert (s + t)[|s| + i] == x;
    }
  }

  lemma ObtainKeepsOwners(s: State, ref: string, creator: Kind, ans: Answers)
    requires ClientsOwned(s) && ValuesOwned(s)
    ensures ClientsOwned(Obtain(s, ref, creator, ans).state) && ValuesOwned(Obtain(s, ref, creator, ans).state)
  {
    var s' := Obtain(s, ref, creator, ans).state;
    forall c | 0 <= c < |s'.clients|
      ensures ClientCached(s', c) <==> !Has(s'.destroyedClients, c)
    {
      if c < |s.clients| {
        assert ClientCached(s, c) <==> !Has(s.destroyedClients, c);
      }
      HasAppended(s.destroyedClients, [|s.clients|], c);
      assert Has([|s.clients|], c) <==> [|s.clients|][0] == c;
    }
    forall v | 0 <= v < |s'.values|
      ensures ValueCached(s', v) <==> !Has(s'.destroyedValues, v)
    {
      assert ValueCached(s, v) <==> !Has(s.destroyedValues, v);
    }
  }

  lemma ReuseKeepsOwners(s: State, ref: string, kind: Kind, newOk: bool)
    requires ClientsOwned(s) && ValuesOwned(s) && ref in s.cache
    ensures ClientsOwned(Reuse(s, ref, kind, newOk).state) && ValuesOwned(Reuse(s, ref, kind, newOk).state)
  {
    var s' := Reuse(s, ref, kind, newOk).state;
    forall c | 0 <= c < |s'.clients|
      ensures ClientCached(s', c) <==> !Has(s'.destroyedClients, c)
    {
      assert ClientCached(s, c) <==> !Has(s.destroyedClients, c);
    }
    forall v | 0 <= v < |s'.values|
      ensures ValueCached(s', v) <==> !Has(s'.destroyedValues, v)
    {
      if v < |s.values| {
        assert ValueCached(s, v) <==> !Has(s.destroyedValues, v);
      }
    }
  }

  lemma SendKeepsOwners(s: State, ref: string, val: CtlValue)
    requires ClientsOwned(s) && ValuesOwned(s) && ref in s.cache && s.cache[ref].ctlReuse.Some?
    ensures ClientsOwned(Send(s, ref, val)) && ValuesOwned(Send(s, ref, val))
  {
  }

  lemma OperateKeepsOwners(s: State, val: CtlValue, ref: string, ans: Answers)
    requires ClientsOwned(s) && ValuesOwned(s)
    ensures ClientsOwned(Operate(s, val, ref, ans)) && ValuesOwned(Operate(s, val, ref, ans))
  {
    ObtainKeepsOwners(s, ref, val.Kind(), ans);
    var o := Obtain(s, ref, val.Kind(), ans);
    if o.ok {
      ReuseKeepsOwners(o.state, ref, val.Kind(), ans.newOk);
      var r := Reuse(o.state, ref, val.Kind(), ans.newOk);
      if r.ok {
        SendKeepsOwners(r.state, ref, val);
      }
    }
  }

  lemma DistinctAppended(s: seq<nat>, t: seq<nat>)
    requires Distinct(s) && Distinct(t)
    requires forall i :: 0 <= i < |t| ==> !Has(s, t[i])
    ensures Distinct(s + t)
  {
  }

  /** The clear destroys exactly the cached values, each once. */
  lemma {:induction false} ValuesListed(s: State, order: seq<string>)
    requires ValuesOwned(s)
    requires forall i :: 0 <= i < |order| ==> order[i] in s.cache
    requires forall i, j :: 0 <= i < j < |order| ==> order[i] != order[j]
    ensures Distinct(Values(s.cache, order))
    ensures forall k :: 0 <= k < |Values(s.cache, order)| ==>
              var v := Values(s.cache, order)[k];
              v < |s.values| && ValueCached(s, v) && exists i :: 0 <= i < |order| && order[i] == s.values[v].ref
    ensures forall v :: 0 <= v < |s.values| && ValueCached(s, v)
                        && (exists i :: 0 <= i < |order| && order[i] == s.values[v].ref)
              ==> Has(Values(s.cache, order), v)
  {
    if order == [] {
    } else {
      var n := |order| - 1;
      var init, vs := order[..n], Values(s.cache, order[..n]);
      ValuesListed(s, init);
      var last := if s.cache[order[n]].ctlReuse.Some? then [s.cache[order[n]].ctlReuse.value] else [];
      assert Values(s.cache, order) == vs + last;
      forall k | 0 <= k < |vs|
        ensures s.values[vs[k]].ref != order[n]
        ensures exists i :: 0 <= i < |order| && order[i] == s.values[vs[k]].ref
      {
        var i :| 0 <= i < n && init[i] == s.values[vs[k]].ref;
        assert order[i] == s.values[vs[k]].ref;
      }
      if last != [] {
        assert s.values[last[0]].ref == order[n];
        assert !Has(vs, last[0]);
      }
      DistinctAppended(vs, last);
      forall v | 0 <= v < |s.values| && ValueCached(s, v) && exists i :: 0 <= i < |order| && order[i] == s.values[v].ref
        ensures Has(vs + last, v)
      {
        var i :| 0 <= i < |order| && order[i] == s.values[v].ref;
        HasAppended(vs, last, v);
        if i < n {
          assert init[i] == s.values[v].ref;
        } else {
          assert last[0] == v;
        }
      }
    }
  }

  lemma ClearKeepsClients(s: State, order: seq<string>)
    requires ClientsOwned(s) && Visits(order, s.cache)
    ensures ClientsOwned(Clear(s, order))
  {
    var s', cs := Clear(s, order), Clients(s.cache, order);
    forall i | 0 <= i < |cs|
      ensures cs[i] < |s.clients| && s.clients[cs[i]].ref == order[i] && !Has(s.destroyedClients, cs[i])
    {
      assert ClientCached(s, cs[i]);
    }
    DistinctAppended(s.destroyedClients, cs);
    forall c | 0 <= c < |s'.clients|
      ensures Has(s'.destroyedClients, c)
    {
      HasAppended(s.destroyedClients, cs, c);
      if ClientCached(s, c) {
        var i :| 0 <= i < |order| && order[i] == s.clients[c].ref;
        assert cs[i] == c;
      }
    }
  }

  lemma ClearKeepsValues(s: State, order: seq<string>)
    requires ValuesOwned(s) && Visits(order, s.cache)
    ensures ValuesOwned(Clear(s, order))
  {
    var s', vs := Clear(s, order), Values(s.cache, order);
    ValuesListed(s, order);
    DistinctAppended(s.destroyedValues, vs);
    forall v | 0 <= v < |s'.values|
      ensures Has(s'.destroyedValues, v)
    {
      HasAppended(s.destroyedValues, vs, v);
      assert ValueCached(s, v) <==> !Has(s.destroyedValues, v);
    }
  }

  /** Conservation, in every state of every run. */
  lemma {:induction false} EverythingIsOwned(tr: Trace)
    requires Runs(tr)
    ensures ClientsOwned(End(tr)) && ValuesOwned(End(tr))
  {
    match tr
    case Start =>
    case Then(before, OperateCall(val, ref, ans)) =>
      EverythingIsOwned(before);
      OperateKeepsOwners(End(before), val, ref, ans);
    case Then(before, ClearCall(order)) =>
      EverythingIsOwned(before);
      ClearKeepsClients(End(before), order);
      ClearKeepsValues(End(before), order);
  }

  /** After a clear every object the library ever gave out has been destroyed, exactly once. */
  lemma ClearLeavesNothing(tr: Trace)
    requires Runs(tr) && tr.Then? && tr.call.ClearCall?
    ensures forall c :: 0 <= c < |End(tr).clients| ==> Has(End(tr).destroyedClients, c)
    ensures forall v :: 0 <= v < |End(tr).values| ==> Has(End(tr).destroyedValues, v)
    ensures Distinct(End(tr).destroyedClients) && Distinct(End(tr).destroyedValues)
  {
    EverythingIsOwned(tr);
    var s := End(tr);
    forall c | 0 <= c < |s.clients|
      ensures Has(s.destroyedClients, c)
    {
      assert !ClientCached(s, c);
    }
    forall v | 0 <= v < |s.values|
      ensures Has(s.destroyedValues, v)
    {
      assert !ValueCached(s, v);
    }
  }

  /** At most one client per reference is alive at any time. */
  lemma OneLiveClient(tr: Trace, c: nat, d: nat)
    requires Runs(tr) && c < |End(tr).clients| && d < |End(tr).clients|
    requires End(tr).clients[c].ref == End(tr).clients[d].ref
    requires !Has(End(tr).destroyedClients, c) && !Has(End(tr).destroyedClients, d)
    ensures c == d
  {
    EverythingIsOwned(tr);
    assert ClientCached(End(tr), c) && ClientCached(End(tr), d);
  }

  lemma SendsCached(s: State, val: CtlValue, ref: string, ans: Answers)
    requires |Operate(s, val, ref, ans).sent| > |s.sent|
    ensures var s' := Operate(s, val, ref, ans);
      && ref in s'.cache && s'.cache[ref].ctlReuse.Some?
      && s'.sent == s.sent + [Sent(ref, s.epoch, val.Kind(), s'.cache[ref].ctrl, s'.cache[ref].ctlReuse.value, val)]
  {
  }

  /** What an operate call sends goes out on a live client for its reference, in a live value object. */
  lemma SendsAreLive(before: Trace, val: CtlValue, ref: string, ans: Answers)
    requires Runs(before) && |Operate(End(before), val, ref, ans).sent| > |End(before).sent|
    ensures var s := Operate(End(before), val, ref, ans);
      var x := s.sent[|s.sent| - 1];
      && s.sent == End(before).sent + [x] && x.ref == ref && x.val == val
      && x.ctrl < |s.clients| && s.clients[x.ctrl].ref == ref && !Has(s.destroyedClients, x.ctrl)
      && x.value < |s.values| && s.values[x.value].ref == ref && !Has(s.destroyedValues, x.value)
  {
    EverythingIsOwned(before);
    OperateKeepsOwners(End(before), val, ref, ans);
    SendsCached(End(before), val, ref, ans);
    var s := Operate(End(before), val, ref, ans);
    assert ClientCached(s, s.cache[ref].ctrl) && ValueCached(s, s.cache[ref].ctlReuse.value);
  }

  /**
    When an operate call sends: the client is cached, or can be created and is an integer control if one is required;
    and its value is cached or can be allocated. What is cached is what is used.
   */
  lemma SendsExactlyWhenGranted(s: State, val: CtlValue, ref: string, ans: Answers)
    ensures var s', hit := Operate(s, val, ref, ans), ref in s.cache;
      var obtained := hit || (ans.createOk && (val.IntCtl? ==> ans.isInteger));
      var kept := hit && s.cache[ref].ctlReuse.Some?;
      && s'.epoch == s.epoch
      && (val.BoolCtl? <==> val.Kind() == BoolKind) && (val.FloatCtl? <==> val.Kind() == FloatKind)
      && (s'.sent != s.sent <==> obtained && (kept || ans.newOk))
      && (s'.sent != s.sent ==>
            s'.sent == s.sent + [Sent(ref, s.epoch, val.Kind(), if hit then s.cache[ref].ctrl else |s.clients|,
                                      if kept then s.cache[ref].ctlReuse.value else |s.values|, val)])
      && s'.clients
         == s.clients + (if !hit && ans.createOk then [ControlClient(ref, ans.isInteger, val.Kind())] else [])
      && s'.values
         == s.values + if obtained && !kept && ans.newOk then [Allocated(ref, s.epoch, val.Kind())] else []
  {
  }

  // ----- Types

  /** Allocated for the same reference between the same two clears. */
  predicate SameTurn(a: Allocated, b: Allocated) {
    a.ref == b.ref && a.epoch == b.epoch
  }

  ghost predicate SentAsAllocated(s: State, v: nat)
    requires v < |s.values|
  {
    exists i :: 0 <= i < |s.sent| && s.sent[i].value == v && s.sent[i].kind == s.values[v].kind
  }

  /**
    No two values of one reference between two clears; each was sent, first of all, by the method that allocated
    it.
   */
  ghost predicate ValuesTyped(s: State) {
    && (forall v :: 0 <= v < |s.values| ==>
          s.values[v].epoch <= s.epoch && (s.values[v].epoch == s.epoch ==> ValueCached(s, v)))
    && (forall v, w :: 0 <= v < |s.values| && 0 <= w < |s.values| && SameTurn(s.values[v], s.values[w]) ==> v == w)
    && (forall ref :: ref in s.cache && s.cache[ref].ctlReuse.Some? ==>
          && s.cache[ref].ctlReuse.value < |s.values|
          && s.values[s.cache[ref].ctlReuse.value].ref == ref && s.values[s.cache[ref].ctlReuse.value].epoch == s.epoch)
  }

  ghost predicate SentTyped(s: State) {
    && (forall i :: 0 <= i < |s.sent| ==>
          && s.sent[i].value < |s.values|
          && s.values[s.sent[i].value].ref == s.sent[i].ref && s.values[s.sent[i].value].epoch == s.sent[i].epoch)
    && (forall v :: 0 <= v < |s.values| ==> SentAsAllocated(s, v))
  }

  lemma ObtainKeepsTypes(s: State, ref: string, creator: Kind, ans: Answers)
    requires ValuesTyped(s) && SentTyped(s)
    ensures ValuesTyped(Obtain(s, ref, creator, ans).state) && SentTyped(Obtain(s, ref, creator, ans).state)
  {
    var s' := Obtain(s, ref, creator, ans).state;
    forall v | 0 <= v < |s'.values|
      ensures SentAsAllocated(s', v)
    {
      assert SentAsAllocated(s, v);
    }
    forall v | 0 <= v < |s'.values| && s'.values[v].epoch == s'.epoch
      ensures ValueCached(s', v)
    {
      assert ValueCached(s, v);
    }
  }

  lemma ReuseKeepsValueTypes(s: State, ref: string, kind: Kind, newOk: bool)
    requires ValuesTyped(s) && ref in s.cache
    ensures ValuesTyped(Reuse(s, ref, kind, newOk).state)
  {
    var s' := Reuse(s, ref, kind, newOk).state;
    forall v | 0 <= v < |s'.values| && s'.values[v].epoch == s'.epoch
      ensures ValueCached(s', v)
    {
      if v < |s.values| {
        assert ValueCached(s, v);
      }
    }
  }

  /** A fresh value is sent at once, by the method that allocated it. */
  lemma SendKeepsSentTypes(s: State, ref: string, val: CtlValue, newOk: bool)
    requires ValuesTyped(s) && SentTyped(s) && ref in s.cache && Reuse(s, ref, val.Kind(), newOk).ok
    ensures SentTyped(Send(Reuse(s, ref, val.Kind(), newOk).state, ref, val))
  {
    var s' := Send(Reuse(s, ref, val.Kind(), newOk).state, ref, val);
    forall v | 0 <= v < |s'.values|
      ensures SentAsAllocated(s', v)
    {
      if v < |s.values| {
        assert SentAsAllocated(s, v);
        var i :| 0 <= i < |s.sent| && s.sent[i].value == v && s.sent[i].kind == s.values[v].kind;
        assert s'.sent[i] == s.sent[i];
      } else {
        assert s'.sent[|s.sent|].value == v;
      }
    }
  }

  lemma SendKeepsValueTypes(s: State, ref: string, val: CtlValue)
    requires ValuesTyped(s) && ref in s.cache && s.cache[ref].ctlReuse.Some?
    ensures ValuesTyped(Send(s, ref, val))
  {
  }

  lemma OperateKeepsTypes(s: State, val: CtlValue, ref: string, ans: Answers)
    requires ValuesTyped(s) && SentTyped(s)
    ensures ValuesTyped(Operate(s, val, ref, ans)) && SentTyped(Operate(s, val, ref, ans))
  {
    ObtainKeepsTypes(s, ref, val.Kind(), ans);
    var o := Obtain(s, ref, val.Kind(), ans);
    if o.ok {
      var r := Reuse(o.state, ref, val.Kind(), ans.newOk);
      ReuseKeepsValueTypes(o.state, ref, val.Kind(), ans.newOk);
      if r.ok {
        SendKeepsSentTypes(o.state, ref, val, ans.newOk);
        SendKeepsValueTypes(r.state, ref, val);
      }
    }
  }

  lemma ClearKeepsTypes(s: State, order: seq<string>)
    requires ValuesTyped(s) && SentTyped(s) && forall i :: 0 <= i < |order| ==> order[i] in s.cache
    ensures ValuesTyped(Clear(s, order)) && SentTyped(Clear(s, order))
  {
    forall v | 0 <= v < |s.values|
      ensures SentAsAllocated(Clear(s, order), v)
    {
      assert SentAsAllocated(s, v);
    }
  }

  lemma {:induction false} RunKeepsTypes(tr: Trace)
    requires Runs(tr)
    ensures ValuesTyped(End(tr)) && SentTyped(End(tr))
  {
    match tr
    case Start =>
    case Then(before, OperateCall(val, ref, ans)) =>
      RunKeepsTypes(before);
      OperateKeepsTypes(End(before), val, ref, ans);
    case Then(before, ClearCall(order)) =>
      RunKeepsTypes(before);
      ClearKeepsTypes(End(before), order);
  }

  /**
    In every run: each value is only ever set as its own type exactly when no reference is operated by
    two different methods between two clears.
   */
  lemma TypesMatch(tr: Trace)
    requires Runs(tr)
    ensures var s := End(tr);
      (forall i :: 0 <= i < |s.sent| ==>
         s.sent[i].value < |s.values| && s.values[s.sent[i].value].kind == s.sent[i].kind)
      <==>
      (forall i, j :: 0 <= i < |s.sent| && 0 <= j < |s.sent|
                      && s.sent[i].ref == s.sent[j].ref && s.sent[i].epoch == s.sent[j].epoch
         ==> s.sent[i].kind == s.sent[j].kind)
  {
    RunKeepsTypes(tr);
    var s := End(tr);
    forall i, j | 0 <= i < |s.sent| && 0 <= j < |s.sent|
      ensures s.sent[i].value == s.sent[j].value
         <==> s.sent[i].ref == s.sent[j].ref && s.sent[i].epoch == s.sent[j].epoch
    {
      assert SameTurn(s.values[s.sent[i].value], s.values[s.sent[j].value])
        <==> s.sent[i].ref == s.sent[j].ref && s.sent[i].epoch == s.sent[j].epoch;
    }
    forall i | 0 <= i < |s.sent|
      ensures SentAsAllocated(s, s.sent[i].value)
    {
    }
  }

  // ----- The integer check

  predicate Passed(c: ControlClient) {
    c.creator.IntKind? ==> c.isInteger
  }

  /** A client cached by the integer method is an integer control, and so is one operated that this method created. */
  ghost predicate Checked(s: State) {
    && (forall ref :: ref in s.cache ==> s.cache[ref].ctrl < |s.clients| && Passed(s.clients[s.cache[ref].ctrl]))
    && (forall i :: 0 <= i < |s.sent| ==> s.sent[i].ctrl < |s.clients| && Passed(s.clients[s.sent[i].ctrl]))
  }

  lemma ObtainKeepsChecked(s: State, ref: string, creator: Kind, ans: Answers)
    requires Checked(s)
    ensures Checked(Obtain(s, ref, creator, ans).state)
  {
  }

  lemma ReuseKeepsChecked(s: State, ref: string, kind: Kind, newOk: bool)
    requires Checked(s) && ref in s.cache
    ensures Checked(Reuse(s, ref, kind, newOk).state)
  {
  }

  lemma SendKeepsChecked(s: State, ref: string, val: CtlValue)
    requires Checked(s) && ref in s.cache && s.cache[ref].ctlReuse.Some?
    ensures Checked(Send(s, ref, val))
  {
  }

  lemma OperateKeepsChecked(s: State, val: CtlValue, ref: string, ans: Answers)
    requires Checked(s)
    ensures Checked(Operate(s, val, ref, ans))
  {
    ObtainKeepsChecked(s, ref, val.Kind(), ans);
    var o := Obtain(s, ref, val.Kind(), ans);
    if o.ok {
      ReuseKeepsChecked(o.state, ref, val.Kind(), ans.newOk);
      var r := Reuse(o.state, ref, val.Kind(), ans.newOk);
      if r.ok {
        SendKeepsChecked(r.state, ref, val);
      }
    }
  }

  /**
    In every run: if the integer method operates a control whose value is no MMS_INTEGER, then another method had
    created the cached client, so that the check was skipped. The documentation promises an error in all cases.
   */
  lemma {:induction false} IntegerCheckSkippedOnlyOnHits(tr: Trace)
    requires Runs(tr)
    ensures Checked(End(tr))
  {
    match tr
    case Start =>
    case Then(before, OperateCall(val, ref, ans)) =>
      IntegerCheckSkippedOnlyOnHits(before);
      OperateKeepsChecked(End(before), val, ref, ans);
    case Then(before, ClearCall(_)) => IntegerCheckSkippedOnlyOnHits(before);
  }

  /** One call of the integer method operates such a control exactly when the cache holds it already. */
  lemma IntegerCheckSkipped(tr: Trace, i: int32, ref: string, ans: Answers)
    requires Runs(tr)
    ensures var s, s' := End(tr), Operate(End(tr), IntCtl(i), ref, ans);
      (|s'.sent| > |s.sent| && s'.sent[|s.sent|].ctrl < |s'.clients| && !s'.clients[s'.sent[|s.sent|].ctrl].isInteger)
      <==>
      (ref in s.cache && s.cache[ref].ctrl < |s.clients| && !s.clients[s.cache[ref].ctrl].isInteger
        && (s.cache[ref].ctlReuse.Some? || ans.newOk))
  {
  }

  /** A run in which it happens: the boolean method caches the control, then the integer method operates it. */
  lemma IntegerCheckSkippedInRun(ref: string) returns (tr: Trace)
    ensures Runs(tr)
    ensures var s := End(tr);
      && s.clients == [ControlClient(ref, false, BoolKind)]
      && s.values == [Allocated(ref, 0, BoolKind)]
      && s.sent == [Sent(ref, 0, BoolKind, 0, 0, BoolCtl(true)), Sent(ref, 0, IntKind, 0, 0, IntCtl(1))]
  {
    var ans := Answers(true, false, true);
    var one := Then(Start, OperateCall(BoolCtl(true), ref, ans));
    assert End(one).cache == map[ref := CachedControl(0, Some(0))];
    tr := Then(one, OperateCall(IntCtl(1), ref, ans));
    assert End(tr).sent == End(one).sent + [Sent(ref, 0, IntKind, 0, 0, IntCtl(1))];
  }
}
