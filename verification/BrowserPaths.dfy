/**
  Every way through a browse result, from element to element, be it an attribute or a sub-element: what it finds,
  and that the requests are made once per such way, in order.
 */
module BrowserPaths {
  import opened Browser

  /** One step on the way: to which child, and whether to its attribute element or to its sub-element. */
  datatype Turn = Turn(child: nat, viaDAI: bool)

  datatype Element = OfDAI(d: DAI) | OfSDI(s: SDI)
  {
    function Name(): string {
      if OfDAI? then d.name else s.name
    }

    /** An attribute element has sub-elements only. */
    predicate Has(t: Turn) {
      if t.viaDAI then OfSDI? && t.child < |s.dai| else t.child < |if OfDAI? then d.sdi else s.sdi|
    }

    function Get(t: Turn): Element
      requires Has(t)
    {
      if t.viaDAI then OfDAI(s.dai[t.child]) else OfSDI((if OfDAI? then d.sdi else s.sdi)[t.child])
    }
  }

  /** The way exists in the result. */
  predicate Exists(e: Element, way: seq<Turn>)
    decreases |way|
  {
    way == [] || (e.Has(way[0]) && Exists(e.Get(way[0]), way[1..]))
  }

  function Reached(e: Element, way: seq<Turn>): Element
    requires Exists(e, way)
    decreases |way|
  {
    if way == [] then e else Reached(e.Get(way[0]), way[1..])
  }

  /** No attribute element right below another. */
  predicate Allowed(way: seq<Turn>, fromDAI: bool) {
    way == [] || (!(fromDAI && way[0].viaDAI) && Allowed(way[1..], way[0].viaDAI))
  }

  function Numbers(way: seq<Turn>): seq<nat> {
    if way == [] then [] else [way[0].child] + Numbers(way[1..])
  }

  function NodeAt(n: Node, path: seq<nat>): Node
    requires Leads(n, path)
    decreases |path|
  {
    if path == [] then n else NodeAt(n.children[path[0]], path[1..])
  }

  /** References are spelled with dots, level by level. */
  lemma {:induction false} RefIsSpelled(n: Node, ref: string, path: seq<nat>, i: nat)
    requires Leads(n, path) && Leads(n, path + [i])
    ensures NodeAt(n, path).readable && i < |NodeAt(n, path).children|
    ensures RefAt(n, ref, path + [i]) == RefAt(n, ref, path) + "." + NodeAt(n, path).children[i].name
    decreases |path|
  {
    if path == [] {
      assert path + [i] == [i];
    } else {
      var c := n.children[path[0]];
      assert (path + [i])[1..] == path[1..] + [i];
      RefIsSpelled(c, ChildRef(ref, c), path[1..], i);
    }
  }

  // ----- What is found

  lemma {:induction false} ElementsAt(ns: seq<Node>)
    ensures |DAIsOf(ns)| == |SDIsOf(ns)| == |ns|
    ensures forall i :: 0 <= i < |ns| ==>
              && DAIsOf(ns)[i] == DAI(ns[i].name, SOME_VALUE, SDIs(ns[i]))
              && SDIsOf(ns)[i] == SDI(ns[i].name, DAIs(ns[i]), SDIs(ns[i]))
  {
    if ns == [] {
    } else {
      ElementsAt(ns[..|ns| - 1]);
    }
  }

  /** The element that stands for a node: of either kind, with what browsing the node returned. */
  predicate StandsFor(e: Element, n: Node) {
    match e
    case OfDAI(d) => d == DAI(n.name, "SomeValue", SDIs(n))
    case OfSDI(s) => s == SDI(n.name, DAIs(n), SDIs(n))
  }

  lemma TurnStandsFor(e: Element, n: Node, t: Turn)
    requires StandsFor(e, n)
    ensures e.Has(t) <==> !(e.OfDAI? && t.viaDAI) && n.readable && t.child < |n.children|
    ensures e.Has(t) ==> StandsFor(e.Get(t), n.children[t.child]) && e.Get(t).OfDAI? == t.viaDAI
  {
    ElementsAt(n.children);
  }

  lemma {:induction false} WayStandsFor(e: Element, n: Node, way: seq<Turn>)
    requires StandsFor(e, n)
    ensures Exists(e, way) <==> Allowed(way, e.OfDAI?) && Leads(n, Numbers(way))
    ensures Exists(e, way) ==> StandsFor(Reached(e, way), NodeAt(n, Numbers(way)))
                               && (way != [] ==> Reached(e, way).OfDAI? == way[|way| - 1].viaDAI)
    decreases |way|
  {
    if way == [] {
    } else {
      TurnStandsFor(e, n, way[0]);
      assert Numbers(way)[1..] == Numbers(way[1..]);
      if e.Has(way[0]) {
        WayStandsFor(e.Get(way[0]), n.children[way[0].child], way[1..]);
      }
    }
  }

  /**
    However attribute elements and sub-elements alternate, a way through what browsing `n` returned exists exactly if
    it leads down the readable directory and never from one attribute element into another; it ends at an element
    with the node's name and, if that is an attribute element, the placeholder value.
   */
  lemma EveryWayReproduces(n: Node, way: seq<Turn>)
    ensures var top := OfSDI(SDI(n.name, DAIs(n), SDIs(n)));
      && (Exists(top, way) <==> Allowed(way, false) && Leads(n, Numbers(way)))
      && (Exists(top, way) ==>
            var e := Reached(top, way);
            && e.Name() == NodeAt(n, Numbers(way)).name
            && (e.OfDAI? <==> way != [] && way[|way| - 1].viaDAI)
            && (e.OfDAI? ==> e.d.val == "SomeValue"))
  {
    WayStandsFor(OfSDI(SDI(n.name, DAIs(n), SDIs(n))), n, way);
  }

  // ----- What is requested

  /** Ways in the order of the calls: a node before what is below it, and its attribute call before the other. */
  predicate Earlier(a: seq<Turn>, b: seq<Turn>) {
    && b != []
    && (|| a == []
        || a[0].child < b[0].child
        || (a[0].child == b[0].child && a[0].viaDAI && !b[0].viaDAI)
        || (a[0] == b[0] && Earlier(a[1..], b[1..])))
  }

  ghost predicate InOrder(ways: seq<seq<Turn>>) {
    forall j, k :: 0 <= j < k < |ways| ==> Earlier(ways[j], ways[k])
  }

  predicate Walkable(n: Node, fromDAI: bool, way: seq<Turn>) {
    Allowed(way, fromDAI) && Leads(n, Numbers(way))
  }

  /** The log requests the nodes the ways lead to, one after the other. */
  ghost predicate Logged(n: Node, ref: string, fromDAI: bool, ways: seq<seq<Turn>>, log: seq<string>) {
    && |ways| == |log|
    && forall k :: 0 <= k < |log| ==>
         Walkable(n, fromDAI, ways[k]) && log[k] == RefAt(n, ref, Numbers(ways[k]))
  }

  function Under(t: Turn, ways: seq<seq<Turn>>): (r: seq<seq<Turn>>)
    ensures |r| == |ways| && forall k :: 0 <= k < |r| ==> r[k] == [t] + ways[k]
  {
    seq(|ways|, k requires 0 <= k < |ways| => [t] + ways[k])
  }

  lemma UnderLogged(n: Node, ref: string, fromDAI: bool, t: Turn, ways: seq<seq<Turn>>, log: seq<string>)
    requires n.readable && t.child < |n.children| && !(fromDAI && t.viaDAI)
    requires Logged(n.children[t.child], ref + "." + n.children[t.child].name, t.viaDAI, ways, log) && InOrder(ways)
    ensures Logged(n, ref, fromDAI, Under(t, ways), log) && InOrder(Under(t, ways))
  {
    forall k | 0 <= k < |log|
      ensures var way := [t] + ways[k];
        Walkable(n, fromDAI, way) && log[k] == RefAt(n, ref, Numbers(way))
    {
      assert ([t] + ways[k])[1..] == ways[k];
      assert Numbers([t] + ways[k])[1..] == Numbers(ways[k]);
    }
    forall j, k | 0 <= j < k < |ways|
      ensures Earlier([t] + ways[j], [t] + ways[k])
    {
      assert ([t] + ways[j])[1..] == ways[j] && ([t] + ways[k])[1..] == ways[k];
    }
  }

  /** A way to walk starts with a call the client makes and goes on below that child. */
  lemma WalkStarts(n: Node, fromDAI: bool, way: seq<Turn>)
    requires Walkable(n, fromDAI, way) && way != []
    ensures n.readable && way[0].child < |n.children| && !(fromDAI && way[0].viaDAI)
    ensures Walkable(n.children[way[0].child], way[0].viaDAI, way[1..])
  {
    assert Numbers(way)[1..] == Numbers(way[1..]);
  }

  lemma UnderHas(t: Turn, ways: seq<seq<Turn>>, way: seq<Turn>)
    requires way != [] && way[0] == t && way[1..] in ways
    ensures way in Under(t, ways)
  {
    var k :| 0 <= k < |ways| && ways[k] == way[1..];
    assert Under(t, ways)[k] == [t] + ways[k] == way;
  }

  lemma LoggedBoth(n: Node, ref: string, fromDAI: bool, a: seq<seq<Turn>>, b: seq<seq<Turn>>,
                   alog: seq<string>, blog: seq<string>)
    requires Logged(n, ref, fromDAI, a, alog) && Logged(n, ref, fromDAI, b, blog) && InOrder(a) && InOrder(b)
    requires forall j, k :: 0 <= j < |a| && 0 <= k < |b| ==> Earlier(a[j], b[k])
    ensures Logged(n, ref, fromDAI, a + b, alog + blog) && InOrder(a + b)
  {
  }

  function LogOf(n: Node, ref: string, fromDAI: bool, m: nat): seq<string>
    requires m <= |n.children|
  {
    if fromDAI then DAIRequestsOf(n.children[..m], ref) else SDIRequestsOf(n.children[..m], ref)
  }

  function LogOfChild(n: Node, ref: string, fromDAI: bool, i: nat): seq<string>
    requires i < |n.children|
  {
    var c, cref := n.children[i], ref + "." + n.children[i].name;
    if fromDAI then SDIRequests(c, cref) else DAIRequests(c, cref) + SDIRequests(c, cref)
  }

  /**
    The directory requests of a browse call, for attributes or for sub-elements: one for each way to walk through its
    result, in the order above, for the reference of the node the way leads to.
   */
  lemma {:induction false} CallsInOrder(n: Node, ref: string, fromDAI: bool) returns (ways: seq<seq<Turn>>)
    ensures Logged(n, ref, fromDAI, ways, if fromDAI then DAIRequests(n, ref) else SDIRequests(n, ref))
    ensures InOrder(ways)
    ensures forall way: seq<Turn> :: Walkable(n, fromDAI, way) ==> way in ways
    decreases n, 3, 0
  {
    var below := [];
    if n.readable {
      below := ChildrenInOrder(n, ref, fromDAI, |n.children|);
      assert n.children[..|n.children|] == n.children;
    }
    LoggedBoth(n, ref, fromDAI, [[]], below, [ref], if n.readable then LogOf(n, ref, fromDAI, |n.children|) else []);
    ways := [[]] + below;
    forall way: seq<Turn> | Walkable(n, fromDAI, way)
      ensures way in ways
    {
      if way == [] {
        assert ways[0] == way;
      } else {
        WalkStarts(n, fromDAI, way);
        assert way in below;
      }
    }
  }

  /** The requests of the calls for the first `m` children. */
  lemma {:induction false} ChildrenInOrder(n: Node, ref: string, fromDAI: bool, m: nat)
    returns (ways: seq<seq<Turn>>)
    requires n.readable && m <= |n.children|
    ensures Logged(n, ref, fromDAI, ways, LogOf(n, ref, fromDAI, m)) && InOrder(ways)
    ensures forall k :: 0 <= k < |ways| ==> ways[k] != [] && ways[k][0].child < m
    ensures forall way: seq<Turn> :: Walkable(n, fromDAI, way) && way != [] && way[0].child < m ==> way in ways
    decreases n, 2, m
  {
    if m == 0 {
      ways := [];
    } else {
      var before := ChildrenInOrder(n, ref, fromDAI, m - 1);
      var here := ChildInOrder(n, ref, fromDAI, m - 1);
      assert n.children[..m][..m - 1] == n.children[..m - 1];
      var log := LogOfChild(n, ref, fromDAI, m - 1);
      assert LogOf(n, ref, fromDAI, m) == LogOf(n, ref, fromDAI, m - 1) + log;
      LoggedBoth(n, ref, fromDAI, before, here, LogOf(n, ref, fromDAI, m - 1), log);
      ways := before + here;
    }
  }

  lemma {:induction false} ChildInOrder(n: Node, ref: string, fromDAI: bool, i: nat) returns (ways: seq<seq<Turn>>)
    requires n.readable && i < |n.children|
    ensures Logged(n, ref, fromDAI, ways, LogOfChild(n, ref, fromDAI, i)) && InOrder(ways)
    ensures forall k :: 0 <= k < |ways| ==> ways[k] != [] && ways[k][0].child == i
    ensures forall way: seq<Turn> :: Walkable(n, fromDAI, way) && way != [] && way[0].child == i ==> way in ways
    decreases n, 1, 0
  {
    var s := CallInOrder(n, ref, fromDAI, Turn(i, false));
    if fromDAI {
      ways := s;
      forall way: seq<Turn> | Walkable(n, fromDAI, way) && way != [] && way[0].child == i
        ensures way in ways
      {
        WalkStarts(n, fromDAI, way);
        assert way[0] == Turn(i, false);
      }
    } else {
      var d := CallInOrder(n, ref, fromDAI, Turn(i, true));
      var c, cref := n.children[i], ref + "." + n.children[i].name;
      LoggedBoth(n, ref, fromDAI, d, s, DAIRequests(c, cref), SDIRequests(c, cref));
      ways := d + s;
      forall way: seq<Turn> | Walkable(n, fromDAI, way) && way != [] && way[0].child == i
        ensures way in ways
      {
        assert way[0] == Turn(i, true) || way[0] == Turn(i, false);
      }
    }
  }

  /** The ways that start with one turn. */
  lemma {:induction false} CallInOrder(n: Node, ref: string, fromDAI: bool, t: Turn) returns (ways: seq<seq<Turn>>)
    requires n.readable && t.child < |n.children| && !(fromDAI && t.viaDAI)
    ensures var c, cref := n.children[t.child], ref + "." + n.children[t.child].name;
      Logged(n, ref, fromDAI, ways, if t.viaDAI then DAIRequests(c, cref) else SDIRequests(c, cref))
    ensures InOrder(ways)
    ensures forall k :: 0 <= k < |ways| ==> ways[k] != [] && ways[k][0] == t
    ensures forall way: seq<Turn> :: Walkable(n, fromDAI, way) && way != [] && way[0] == t ==> way in ways
    decreases n, 0, 0
  {
    var c, cref := n.children[t.child], ref + "." + n.children[t.child].name;
    var below := CallsInOrder(c, cref, t.viaDAI);
    UnderLogged(n, ref, fromDAI, t, below, if t.viaDAI then DAIRequests(c, cref) else SDIRequests(c, cref));
    ways := Under(t, below);
    forall way: seq<Turn> | Walkable(n, fromDAI, way) && way != [] && way[0] == t
      ensures way in ways
    {
      WalkStarts(n, fromDAI, way);
      UnderHas(t, below, way);
    }
  }
}
