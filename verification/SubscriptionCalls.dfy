/**
  Subscribe, unsubscribe and candidate calls made one at a time, on the shared registry object; and the runs
  of the concurrent protocol that such calls are.
 */
module SubscriptionCalls {
  import opened Mms
  import opened Subscriptions
  import opened ReportBuilder

  /** What the calls share: the id counter, the registry, and the library's table of installed handlers. */
  datatype Registry = Registry(nextId: int, handlers: map<int, Entry>, installed: map<(nat, string), int>)

  function RegistryOf(s: State): Registry {
    Registry(s.nextId, s.handlers, s.installed)
  }

  /** How the server answers a subscription: reading the block fails, or enabling it fails, or neither. */
  datatype Reply = Unreadable | EnableRefused | EnableAccepted

  function KeyOf(sub: Subscription): (nat, string) {
    (sub.client, sub.rcbRef)
  }

  function EntryOf(sub: Subscription): Entry {
    Entry(sub.handler, sub.rcbRef)
  }

  /** The registry after one subscribe call. */
  function Subscribed(g: Registry, sub: Subscription, reply: Reply): Registry {
    var id := Wrap(g.nextId + 1);
    match reply
    case Unreadable => g
    case EnableRefused => Registry(id, g.handlers - {id}, g.installed - {KeyOf(sub)})
    case EnableAccepted => Registry(id, g.handlers[id := EntryOf(sub)], g.installed[KeyOf(sub) := id])
  }

  /** The registries one unsubscribe call may leave: of the entries with the reference, some one is deleted. */
  ghost predicate Unsubscribed(g: Registry, client: nat, ref: string, g': Registry) {
    && g'.nextId == g.nextId
    && g'.installed == g.installed - {(client, ref)}
    && if forall id :: id in g.handlers ==> g.handlers[id].rcbRef != ref then g'.handlers == g.handlers
       else exists id :: id in g.handlers && g.handlers[id].rcbRef == ref && g'.handlers == g.handlers - {id}
  }

  // ----- The calls themselves

  datatype Failure = Failure(ref: string, reply: Reply)

  const ERR_MSG_MAX := 20

  datatype HandlerCall = HandlerCall(handler: nat, report: Report)

  /** Each candidate is tried as it is and then with "01" appended. */
  function Attempts(candidates: seq<string>): (refs: seq<string>)
    ensures |refs| == 2 * |candidates|
  {
    if candidates == [] then [] else [candidates[0], candidates[0] + "01"] + Attempts(candidates[1..])
  }

  lemma {:induction false} AttemptsAt(candidates: seq<string>, i: nat)
    requires i < |candidates|
    ensures Attempts(candidates)[2 * i] == candidates[i]
    ensures Attempts(candidates)[2 * i + 1] == candidates[i] + "01"
  {
    if i == 0 {
    } else {
      AttemptsAt(candidates[1..], i - 1);
      assert Attempts(candidates)[2..] == Attempts(candidates[1..]);
      assert Attempts(candidates)[2..][2 * (i - 1)] == Attempts(candidates)[2 * i];
      assert Attempts(candidates)[2..][2 * (i - 1) + 1] == Attempts(candidates)[2 * i + 1];
    }
  }

  /** The first attempt from `k` on that the server accepts, or the number of attempts. */
  function Tries(refs: seq<string>, reply: nat -> Reply, k: nat): (n: nat)
    ensures n <= |refs|
    decreases |refs| - k
  {
    if k >= |refs| then |refs| else if reply(k).EnableAccepted? then k else Tries(refs, reply, k + 1)
  }

  function AfterAttempts(g: Registry, client: nat, refs: seq<string>, handler: nat,
                         reply: nat -> Reply, n: nat): Registry
    requires n <= |refs|
  {
    if n == 0 then g
    else
      var before := AfterAttempts(g, client, refs, handler, reply, n - 1);
      Subscribed(before, Subscription(client, refs[n - 1], handler), reply(n - 1))
  }

  /** The messages kept of `n` failed attempts. */
  function Messages(refs: seq<string>, reply: nat -> Reply, n: nat): seq<Failure>
    requires n <= |refs|
  {
    seq(if n <= ERR_MSG_MAX then n else ERR_MSG_MAX, k requires 0 <= k < n => Failure(refs[k], reply(k)))
  }

  /** They are those of the first attempts, 20 at most. */
  lemma FirstTwentyMessages(refs: seq<string>, reply: nat -> Reply, n: nat)
    requires n <= |refs|
    ensures |Messages(refs, reply, n)| == if n <= 20 then n else 20
    ensures forall k :: 0 <= k < n && k < 20 ==> Messages(refs, reply, n)[k] == Failure(refs[k], reply(k))
  {
  }

  /** The messages after one more attempt. */
  function Kept(errs: seq<Failure>, ref: string, reply: Reply): seq<Failure> {
    if reply.EnableAccepted? || |errs| >= ERR_MSG_MAX then errs else errs + [Failure(ref, reply)]
  }

  lemma MessagesKept(refs: seq<string>, reply: nat -> Reply, n: nat)
    requires n < |refs|
    ensures !reply(n).EnableAccepted? ==>
              Messages(refs, reply, n + 1) == Kept(Messages(refs, reply, n), refs[n], reply(n))
  {
  }

  /** What one round of the candidate loop does to the three quantities its invariant follows. */
  lemma OneRound(g: Registry, client: nat, refs: seq<string>, handler: nat, reply: nat -> Reply, n: nat)
    requires n + 2 <= |refs|
    ensures Tries(refs, reply, n) == if reply(n).EnableAccepted? then n
                                     else if reply(n + 1).EnableAccepted? then n + 1
                                     else Tries(refs, reply, n + 2)
    ensures var zero := AfterAttempts(g, client, refs, handler, reply, n);
      var one := Subscribed(zero, Subscription(client, refs[n], handler), reply(n));
      && AfterAttempts(g, client, refs, handler, reply, n + 1) == one
      && AfterAttempts(g, client, refs, handler, reply, n + 2)
         == Subscribed(one, Subscription(client, refs[n + 1], handler), reply(n + 1))
    ensures reply(n).EnableAccepted? ==> Kept(Messages(refs, reply, n), refs[n], reply(n)) == Messages(refs, reply, n)
    ensures !reply(n).EnableAccepted? ==>
              Kept(Messages(refs, reply, n), refs[n], reply(n)) == Messages(refs, reply, n + 1)
    ensures !reply(n + 1).EnableAccepted? ==>
              Kept(Messages(refs, reply, n + 1), refs[n + 1], reply(n + 1)) == Messages(refs, reply, n + 2)
  {
    MessagesKept(refs, reply, n);
    MessagesKept(refs, reply, n + 1);
  }

  /** Where a round leaves the candidate loop: done at the first accepted attempt, or two attempts on. */
  lemma RoundOutcome(g: Registry, client: nat, refs: seq<string>, handler: nat, reply: nat -> Reply, n: nat,
                     after: Registry, chosen: Option<string>, errs': seq<Failure>)
    requires n + 2 <= |refs|
    requires var first := Subscribed(AfterAttempts(g, client, refs, handler, reply, n),
                                     Subscription(client, refs[n], handler), reply(n));
      after == if reply(n).EnableAccepted? then first
               else Subscribed(first, Subscription(client, refs[n + 1], handler), reply(n + 1))
    requires chosen == if reply(n).EnableAccepted? then Some(refs[n])
                       else if reply(n + 1).EnableAccepted? then Some(refs[n + 1])
                       else None
    requires errs' == Kept(Kept(Messages(refs, reply, n), refs[n], reply(n)), refs[n + 1],
                           if reply(n).EnableAccepted? then reply(n) else reply(n + 1))
    ensures var m := Tries(refs, reply, n);
      if chosen.Some? then
        && m < |refs| && chosen == Some(refs[m])
        && after == AfterAttempts(g, client, refs, handler, reply, m + 1) && errs' == Messages(refs, reply, m)
      else
        && m == Tries(refs, reply, n + 2)
        && after == AfterAttempts(g, client, refs, handler, reply, n + 2) && errs' == Messages(refs, reply, n + 2)
  {
    OneRound(g, client, refs, handler, reply, n);
  }

  class ReportRegistry {
    var nextId: int
    var handlers: map<int, Entry>
    var installed: map<(nat, string), int>

    function Value(): Registry
      reads this
    {
      Registry(nextId, handlers, installed)
    }

    constructor ()
      ensures Value() == Registry(0, map[], map[])
    {
      nextId, handlers, installed := 0, map[], map[];
    }

    method SubscribeReport(client: nat, rcbRef: string, handler: nat, reply: Reply) returns (ok: bool)
      modifies this
      ensures ok == reply.EnableAccepted?
      ensures Value() == Subscribed(old(Value()), Subscription(client, rcbRef, handler), reply)
      ensures reply.Unreadable? ==> unchanged(this)
      ensures !reply.Unreadable? ==> nextId == Wrap(old(nextId) + 1)
      ensures reply.EnableRefused? ==>
                handlers == old(handlers) - {nextId} && installed == old(installed) - {(client, rcbRef)}
      ensures reply.EnableAccepted? ==> handlers == old(handlers)[nextId := Entry(handler, rcbRef)]
                                        && installed == old(installed)[(client, rcbRef) := nextId]
    {
      if reply.Unreadable? {
        return false;
      }
      nextId := Wrap(nextId + 1);
      var id := nextId;
      handlers := handlers[id := Entry(handler, rcbRef)];
      installed := installed[(client, rcbRef) := id];
      if reply.EnableRefused? {
        handlers := handlers - {id};
        installed := installed - {(client, rcbRef)};
        return false;
      }
      return true;
    }

    /**
      A report the library hands over under a handler id: nothing, or one call of the handler registered under the
      id, with a report that carries its entry's reference and one entry per member.
     */
    method GoReportCallback(handlerID: int, cr: ClientReport, mallocOk: bool) returns (call: Option<HandlerCall>)
      ensures call == if handlerID in handlers
                      then Some(HandlerCall(handlers[handlerID].handler,
                                            ReportOf(handlers[handlerID].rcbRef, cr, mallocOk)))
                      else None
    {
      if handlerID !in handlers {
        return None;
      }
      var entry := handlers[handlerID];
      var report := BuildReport(entry.rcbRef, cr, mallocOk);
      return Some(HandlerCall(entry.handler, report));
    }

    /** `order` is the order in which the loop happens to visit the entries; it stops at the first match. */
    method UnsubscribeReport(client: nat, rcbRef: string, order: seq<int>)
      requires forall i :: 0 <= i < |order| ==> order[i] in handlers
      requires forall id :: id in handlers ==> exists i :: 0 <= i < |order| && order[i] == id
      modifies this
      ensures Unsubscribed(old(Value()), client, rcbRef, Value())
    {
      installed := installed - {(client, rcbRef)};
      for i := 0 to |order|
        invariant handlers == old(handlers) && nextId == old(nextId)
        invariant installed == old(installed) - {(client, rcbRef)}
        invariant forall k :: 0 <= k < i ==> handlers[order[k]].rcbRef != rcbRef
      {
        var id := order[i];
        if handlers[id].rcbRef == rcbRef {
          handlers := handlers - {id};
          break;
        }
      }
    }

    /** One round of the candidate loop: the candidate, then the candidate with "01". */
    method TryCandidate(client: nat, base: string, handler: nat, first: Reply, second: Reply, errs: seq<Failure>)
      returns (chosen: Option<string>, errs': seq<Failure>)
      modifies this
      ensures var g := Subscribed(old(Value()), Subscription(client, base, handler), first);
        Value() == if first.EnableAccepted? then g
                   else Subscribed(g, Subscription(client, base + "01", handler), second)
      ensures chosen == if first.EnableAccepted? then Some(base)
                        else if second.EnableAccepted? then Some(base + "01")
                        else None
      ensures errs' == Kept(Kept(errs, base, first), base + "01", if first.EnableAccepted? then first else second)
    {
      errs' := errs;
      var ok := SubscribeReport(client, base, handler, first);
      if ok {
        return Some(base), errs';
      } else if |errs'| < ERR_MSG_MAX {
        errs' := errs' + [Failure(base, first)];
      }
      var alt := base + "01";
      ok := SubscribeReport(client, alt, handler, second);
      if ok {
        return Some(alt), errs';
      } else if |errs'| < ERR_MSG_MAX {
        errs' := errs' + [Failure(alt, second)];
      }
      return None, errs';
    }

    /** `reply(k)` is the server's answer to the `k`-th attempt. The errors of the first attempts are kept. */
    method SubscribeReportWithCandidates(client: nat, candidates: seq<string>, handler: nat, reply: nat -> Reply)
      returns (chosen: Option<string>, errs: seq<Failure>)
      modifies this
      ensures var refs := Attempts(candidates);
        var n := Tries(refs, reply, 0);
        && chosen == (if n < |refs| then Some(refs[n]) else None)
        && Value() == AfterAttempts(old(Value()), client, refs, handler, reply, if n < |refs| then n + 1 else n)
        && errs == Messages(refs, reply, n)
    {
      errs := [];
      ghost var refs, g := Attempts(candidates), Value();
      for i := 0 to |candidates|
        invariant Tries(refs, reply, 0) == Tries(refs, reply, 2 * i)
        invariant Value() == AfterAttempts(g, client, refs, handler, reply, 2 * i)
        invariant errs == Messages(refs, reply, 2 * i)
      {
        AttemptsAt(candidates, i);
        chosen, errs := TryCandidate(client, candidates[i], handler, reply(2 * i), reply(2 * i + 1), errs);
        RoundOutcome(g, client, refs, handler, reply, 2 * i, Value(), chosen, errs);
        if chosen.Some? {
          return;
        }
      }
      return None, errs;
    }
  }

  // ----- Unsubscribing a block that is shared

  /** Every installed handler has its registry entry. */
  ghost predicate AllRegistered(g: Registry) {
    forall k :: k in g.installed ==> g.installed[k] in g.handlers && g.handlers[g.installed[k]].rcbRef == k.1
  }

  /**
    From a registry with nothing missing, an unsubscribe keeps it so, whatever entry its loop meets first,
    exactly when no other client has a handler installed for the block.
   */
  lemma UnsubscribeKeepsOthers(g: Registry, client: nat, ref: string)
    requires AllRegistered(g)
    ensures (forall g' :: Unsubscribed(g, client, ref, g') ==> AllRegistered(g'))
       <==> (forall k :: k in g.installed && k.1 == ref ==> k.0 == client)
  {
    if k :| k in g.installed && k.1 == ref && k.0 != client {
      var id := g.installed[k];
      var g' := Registry(g.nextId, g.handlers - {id}, g.installed - {(client, ref)});
      assert Unsubscribed(g, client, ref, g');
      assert k in g'.installed;
      assert !AllRegistered(g');
    } else {
      forall g' | Unsubscribed(g, client, ref, g')
        ensures AllRegistered(g')
      {
      }
    }
  }

  predicate EntryFor(g: Registry, id: int, ref: string) {
    id in g.handlers && g.handlers[id].rcbRef == ref
  }

  /** It removes every entry for the block exactly when there is at most one. */
  lemma UnsubscribeRemovesAll(g: Registry, client: nat, ref: string)
    ensures (forall g' :: Unsubscribed(g, client, ref, g') ==> forall id :: !EntryFor(g', id, ref))
       <==> (forall a, b :: EntryFor(g, a, ref) && EntryFor(g, b, ref) ==> a == b)
  {
    if a, b :| EntryFor(g, a, ref) && EntryFor(g, b, ref) && a != b {
      var g' := Registry(g.nextId, g.handlers - {a}, g.installed - {(client, ref)});
      assert Unsubscribed(g, client, ref, g');
      assert EntryFor(g', b, ref);
    } else {
      forall g' | Unsubscribed(g, client, ref, g')
        ensures forall id :: !EntryFor(g', id, ref)
      {
        if x :| EntryFor(g, x, ref) {
          var d :| d in g.handlers && g.handlers[d].rcbRef == ref && g'.handlers == g.handlers - {d};
          assert EntryFor(g, d, ref);
          forall id
            ensures !EntryFor(g', id, ref)
          {
            assert EntryFor(g', id, ref) ==> EntryFor(g, id, ref) && id != d;
          }
        } else {
          forall id
            ensures !EntryFor(g', id, ref)
          {
            assert EntryFor(g, id, ref) <==> id in g.handlers && g.handlers[id].rcbRef == ref;
          }
        }
      }
    }
  }
}
