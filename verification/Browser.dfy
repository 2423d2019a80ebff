/** Browsing a data object's directory into SCL elements: what comes out, and what it costs in requests. */
module Browser {

  /** What the server holds under a reference. A node that is not readable answers directory requests with an error. */
  datatype Node = Node(name: string, readable: bool, children: seq<Node>)
  {
    function Listed(): seq<Node> {
      if readable then children else []
    }
  }

  datatype DAI = DAI(name: string, val: string, sdi: seq<SDI>)
  datatype SDI = SDI(name: string, dai: seq<DAI>, sdi: seq<SDI>)

  const SOME_VALUE := "SomeValue"

  function ChildRef(ref: string, child: Node): string {
    ref + "." + child.name
  }

  // ----- What the two browse functions return and request

  function DAIs(n: Node): seq<DAI>
    decreases n, 1
  {
    if n.readable then DAIsOf(n.children) else []
  }

  function DAIsOf(ns: seq<Node>): seq<DAI>
    decreases ns, 0
  {
    if ns == [] then [] else DAIsOf(ns[..|ns| - 1]) + [DAI(ns[|ns| - 1].name, SOME_VALUE, SDIs(ns[|ns| - 1]))]
  }

  function SDIs(n: Node): seq<SDI>
    decreases n, 1
  {
    if n.readable then SDIsOf(n.children) else []
  }

  function SDIsOf(ns: seq<Node>): seq<SDI>
    decreases ns, 0
  {
    if ns == [] then []
    else SDIsOf(ns[..|ns| - 1]) + [SDI(ns[|ns| - 1].name, DAIs(ns[|ns| - 1]), SDIs(ns[|ns| - 1]))]
  }

  function DAIRequests(n: Node, ref: string): seq<string>
    decreases n, 1
  {
    [ref] + if n.readable then DAIRequestsOf(n.children, ref) else []
  }

  function DAIRequestsOf(ns: seq<Node>, ref: string): seq<string>
    decreases ns, 0
  {
    if ns == [] then []
    else DAIRequestsOf(ns[..|ns| - 1], ref) + SDIRequests(ns[|ns| - 1], ChildRef(ref, ns[|ns| - 1]))
  }

  function SDIRequests(n: Node, ref: string): seq<string>
    decreases n, 1
  {
    [ref] + if n.readable then SDIRequestsOf(n.children, ref) else []
  }

  function SDIRequestsOf(ns: seq<Node>, ref: string): seq<string>
    decreases ns, 0
  {
    if ns == [] then []
    else
      var c := ns[|ns| - 1];
      SDIRequestsOf(ns[..|ns| - 1], ref) + (DAIRequests(c, ChildRef(ref, c)) + SDIRequests(c, ChildRef(ref, c)))
  }

  /** A client, with the directory requests it has sent. */
  class IedClient {
    var requests: seq<string>

    constructor ()
      ensures requests == []
    {
      requests := [];
    }

    method GetDataDirectory(n: Node, ref: string) returns (ok: bool, list: seq<Node>)
      modifies this
      ensures requests == old(requests) + [ref] && ok == n.readable && list == n.Listed()
    {
      requests := requests + [ref];
      return n.readable, n.Listed();
    }

    /** `n` is what the server holds under `ref`. */
    method BrowseDataAttributesSCL(n: Node, ref: string) returns (dais: seq<DAI>)
      modifies this
      ensures dais == DAIs(n) && requests == old(requests) + DAIRequests(n, ref)
      decreases n
    {
      dais := [];
      var ok, list := GetDataDirectory(n, ref);
      if !ok {
        return;
      }
      for i := 0 to |list|
        invariant dais == DAIsOf(list[..i])
        invariant requests == old(requests) + [ref] + DAIRequestsOf(list[..i], ref)
      {
        assert list[..i + 1][..i] == list[..i];
        var childRef := ref + "." + list[i].name;
        var sdi := BrowseSDISCL(list[i], childRef);
        dais := dais + [DAI(list[i].name, SOME_VALUE, sdi)];
      }
      assert list[..|list|] == list;
    }

    method BrowseSDISCL(n: Node, ref: string) returns (sdis: seq<SDI>)
      modifies this
      ensures sdis == SDIs(n) && requests == old(requests) + SDIRequests(n, ref)
      decreases n
    {
      sdis := [];
      var ok, list := GetDataDirectory(n, ref);
      if !ok {
        return;
      }
      for i := 0 to |list|
        invariant sdis == SDIsOf(list[..i])
        invariant requests == old(requests) + [ref] + SDIRequestsOf(list[..i], ref)
      {
        assert list[..i + 1][..i] == list[..i];
        var childRef := ref + "." + list[i].name;
        var dai := BrowseDataAttributesSCL(list[i], childRef);
        var sdi := BrowseSDISCL(list[i], childRef);
        sdis := sdis + [SDI(list[i].name, dai, sdi)];
      }
      assert list[..|list|] == list;
    }
  }

  // ----- Shape: the result reproduces the readable part of the directory, twice over

  datatype Tree = Tree(name: string, kids: seq<Tree>)

  function Readable(n: Node): Tree
    decreases n, 1
  {
    Tree(n.name, if n.readable then ReadableAll(n.children) else [])
  }

  function ReadableAll(ns: seq<Node>): seq<Tree>
    decreases ns, 0
  {
    if ns == [] then [] else ReadableAll(ns[..|ns| - 1]) + [Readable(ns[|ns| - 1])]
  }

  /** Following sub-elements only through SDI elements. */
  function ViaSDI(s: SDI): Tree
    decreases s, 1
  {
    Tree(s.name, ViaSDIs(s.sdi))
  }

  function ViaSDIs(ss: seq<SDI>): seq<Tree>
    decreases ss, 0
  {
    if ss == [] then [] else ViaSDIs(ss[..|ss| - 1]) + [ViaSDI(ss[|ss| - 1])]
  }

  /** Through a DAI element first. */
  function ViaDAIs(ds: seq<DAI>): seq<Tree> {
    if ds == [] then [] else ViaDAIs(ds[..|ds| - 1]) + [Tree(ds[|ds| - 1].name, ViaSDIs(ds[|ds| - 1].sdi))]
  }

  lemma {:induction false} SDIsReproduce(n: Node)
    ensures ViaSDIs(SDIs(n)) == Readable(n).kids
    decreases n, 1
  {
    if !n.readable {
    } else {
      SDIsOfReproduce(n.children);
    }
  }

  lemma {:induction false} SDIsOfReproduce(ns: seq<Node>)
    ensures ViaSDIs(SDIsOf(ns)) == ReadableAll(ns)
    decreases ns, 0
  {
    if ns == [] {
    } else {
      var c := ns[|ns| - 1];
      SDIsOfReproduce(ns[..|ns| - 1]);
      SDIsReproduce(c);
      var ss := SDIsOf(ns);
      assert ss[..|ss| - 1] == SDIsOf(ns[..|ns| - 1]);
    }
  }

  lemma {:induction false} DAIsOfReproduce(ns: seq<Node>)
    ensures ViaDAIs(DAIsOf(ns)) == ReadableAll(ns)
  {
    if ns == [] {
    } else {
      var c := ns[|ns| - 1];
      DAIsOfReproduce(ns[..|ns| - 1]);
      SDIsReproduce(c);
      var ds := DAIsOf(ns);
      assert ds[..|ds| - 1] == DAIsOf(ns[..|ns| - 1]);
    }
  }

  /** The browse result, read either way, is the readable subtree. */
  lemma {:induction false} DAIsReproduce(n: Node)
    ensures ViaDAIs(DAIs(n)) == Readable(n).kids
  {
    if !n.readable {
    } else {
      DAIsOfReproduce(n.children);
    }
  }

  // ----- Cost: the number of requests grows like the Fibonacci numbers

  function Fib(n: nat): nat {
    if n < 2 then n else Fib(n - 1) + Fib(n - 2)
  }

  function Count(log: seq<string>, r: string): nat {
    if log == [] then 0 else Count(log[..|log| - 1], r) + if log[|log| - 1] == r then 1 else 0
  }

  lemma {:induction false} CountAppended(a: seq<string>, b: seq<string>, r: string)
    ensures Count(a + b, r) == Count(a, r) + Count(b, r)
    decreases |b|
  {
    if b == [] {
      assert a + b == a;
    } else {
      CountAppended(a, b[..|b| - 1], r);
      assert (a + b)[..|a + b| - 1] == a + b[..|b| - 1];
    }
  }

  /**
    Each reachable node with reference `r`, weighted with a Fibonacci number: `Fib(w)` at `n`, and one index on
    per level.
   */
  function Weight(n: Node, ref: string, r: string, w: nat): nat
    decreases n, 1
  {
    (if ref == r then Fib(w) else 0) + if n.readable then WeightOf(n.children, ref, r, w + 1) else 0
  }

  function WeightOf(ns: seq<Node>, ref: string, r: string, w: nat): nat
    decreases ns, 0
  {
    if ns == [] then 0
    else WeightOf(ns[..|ns| - 1], ref, r, w) + Weight(ns[|ns| - 1], ChildRef(ref, ns[|ns| - 1]), r, w)
  }

  lemma {:induction false} WeightsAdd(n: Node, ref: string, r: string, w: nat)
    ensures Weight(n, ref, r, w) + Weight(n, ref, r, w + 1) == Weight(n, ref, r, w + 2)
    decreases n, 1
  {
    if !n.readable {
    } else {
      WeightsOfAdd(n.children, ref, r, w + 1);
    }
  }

  lemma {:induction false} WeightsOfAdd(ns: seq<Node>, ref: string, r: string, w: nat)
    ensures WeightOf(ns, ref, r, w) + WeightOf(ns, ref, r, w + 1) == WeightOf(ns, ref, r, w + 2)
    decreases ns, 0
  {
    if ns == [] {
    } else {
      WeightsOfAdd(ns[..|ns| - 1], ref, r, w);
      WeightsAdd(ns[|ns| - 1], ChildRef(ref, ns[|ns| - 1]), r, w);
    }
  }

  lemma CountOne(ref: string, r: string)
    ensures Count([ref], r) == if ref == r then 1 else 0
  {
  }

  /**
    Browsing from a data object requests `r` as often as its nodes weigh, counting from Fib(1); browsing from an
    SDI, counting from Fib(2).
   */
  lemma {:induction false} RequestsWeigh(n: Node, ref: string, r: string)
    ensures Count(DAIRequests(n, ref), r) == Weight(n, ref, r, 1)
    ensures Count(SDIRequests(n, ref), r) == Weight(n, ref, r, 2)
    decreases n, 1
  {
    CountOne(ref, r);
    if n.readable {
      RequestsOfWeigh(n.children, ref, r);
      CountAppended([ref], DAIRequestsOf(n.children, ref), r);
      CountAppended([ref], SDIRequestsOf(n.children, ref), r);
    } else {
      assert [ref] + [] == [ref];
    }
  }

  lemma {:induction false} RequestsOfWeigh(ns: seq<Node>, ref: string, r: string)
    ensures Count(DAIRequestsOf(ns, ref), r) == WeightOf(ns, ref, r, 2)
    ensures Count(SDIRequestsOf(ns, ref), r) == WeightOf(ns, ref, r, 3)
    decreases ns, 0
  {
    if ns == [] {
    } else {
      var init, c := ns[..|ns| - 1], ns[|ns| - 1];
      var cref := ChildRef(ref, c);
      RequestsOfWeigh(init, ref, r);
      RequestsWeigh(c, cref, r);
      WeightsAdd(c, cref, r, 1);
      CountAppended(DAIRequestsOf(init, ref), SDIRequests(c, cref), r);
      CountAppended(SDIRequestsOf(init, ref), DAIRequests(c, cref) + SDIRequests(c, cref), r);
      CountAppended(DAIRequests(c, cref), SDIRequests(c, cref), r);
    }
  }

  // ----- One node

  /** A way down the readable part of the directory, by child numbers. */
  predicate Leads(n: Node, path: seq<nat>)
    decreases |path|
  {
    path == [] || (n.readable && path[0] < |n.children| && Leads(n.children[path[0]], path[1..]))
  }

  function RefAt(n: Node, ref: string, path: seq<nat>): string
    requires Leads(n, path)
    decreases |path|
  {
    if path == [] then ref
    else RefAt(n.children[path[0]], ChildRef(ref, n.children[path[0]]), path[1..])
  }

  /** No other node has the reference of the node at `path`. */
  ghost predicate OnlyOneAt(n: Node, ref: string, path: seq<nat>)
    requires Leads(n, path)
  {
    forall p: seq<nat> :: Leads(n, p) && RefAt(n, ref, p) == RefAt(n, ref, path) ==> p == path
  }

  ghost predicate Nowhere(n: Node, ref: string, r: string) {
    forall p: seq<nat> :: Leads(n, p) ==> RefAt(n, ref, p) != r
  }

  lemma Descend(n: Node, ref: string, i: nat, p: seq<nat>)
    requires n.readable && i < |n.children| && Leads(n.children[i], p)
    ensures Leads(n, [i] + p) && RefAt(n, ref, [i] + p) == RefAt(n.children[i], ChildRef(ref, n.children[i]), p)
  {
  }

  lemma ChildNowhere(n: Node, ref: string, r: string, i: nat)
    requires n.readable && i < |n.children|
    requires forall p: seq<nat> :: Leads(n, p) && p != [] && p[0] == i ==> RefAt(n, ref, p) != r
    ensures Nowhere(n.children[i], ChildRef(ref, n.children[i]), r)
  {
    forall p: seq<nat> | Leads(n.children[i], p)
      ensures RefAt(n.children[i], ChildRef(ref, n.children[i]), p) != r
    {
      Descend(n, ref, i, p);
      assert ([i] + p)[0] == i;
    }
  }

  lemma {:induction false} NowhereWeighsNothing(n: Node, ref: string, r: string, w: nat)
    requires Nowhere(n, ref, r)
    ensures Weight(n, ref, r, w) == 0
    decreases n, 1, 0
  {
    assert Leads(n, []) && RefAt(n, ref, []) == ref;
    if n.readable {
      forall i | 0 <= i < |n.children|
        ensures Nowhere(n.children[i], ChildRef(ref, n.children[i]), r)
      {
        ChildNowhere(n, ref, r, i);
      }
      NowhereWeighsNothingOf(n.children, ref, r, w + 1);
    }
  }

  lemma {:induction false} NowhereWeighsNothingOf(ns: seq<Node>, ref: string, r: string, w: nat)
    requires forall i :: 0 <= i < |ns| ==> Nowhere(ns[i], ChildRef(ref, ns[i]), r)
    ensures WeightOf(ns, ref, r, w) == 0
    decreases ns, 0, 0
  {
    if ns == [] {
    } else {
      NowhereWeighsNothing(ns[|ns| - 1], ChildRef(ref, ns[|ns| - 1]), r, w);
      NowhereWeighsNothingOf(ns[..|ns| - 1], ref, r, w);
    }
  }

  /** The only child with weight. */
  lemma {:induction false} OneChildWeighs(ns: seq<Node>, ref: string, r: string, w: nat, k: nat)
    requires k < |ns|
    requires forall i :: 0 <= i < |ns| && i != k ==> Nowhere(ns[i], ChildRef(ref, ns[i]), r)
    ensures WeightOf(ns, ref, r, w) == Weight(ns[k], ChildRef(ref, ns[k]), r, w)
    decreases |ns|
  {
    var init := ns[..|ns| - 1];
    if k == |ns| - 1 {
      NowhereWeighsNothingOf(init, ref, r, w);
    } else {
      NowhereWeighsNothing(ns[|ns| - 1], ChildRef(ref, ns[|ns| - 1]), r, w);
      OneChildWeighs(init, ref, r, w, k);
    }
  }

  lemma {:induction false} OneNodeWeighs(n: Node, ref: string, r: string, w: nat, path: seq<nat>)
    requires Leads(n, path) && RefAt(n, ref, path) == r
    requires forall p: seq<nat> :: Leads(n, p) && RefAt(n, ref, p) == r ==> p == path
    ensures Weight(n, ref, r, w) == Fib(w + |path|)
    decreases |path|
  {
    assert Leads(n, []) && RefAt(n, ref, []) == ref;
    if path == [] {
      if n.readable {
        forall i | 0 <= i < |n.children|
          ensures Nowhere(n.children[i], ChildRef(ref, n.children[i]), r)
        {
          ChildNowhere(n, ref, r, i);
        }
        NowhereWeighsNothingOf(n.children, ref, r, w + 1);
      }
    } else {
      var k := path[0];
      forall i | 0 <= i < |n.children| && i != k
        ensures Nowhere(n.children[i], ChildRef(ref, n.children[i]), r)
      {
        ChildNowhere(n, ref, r, i);
      }
      OneChildWeighs(n.children, ref, r, w + 1, k);
      var c := n.children[k];
      forall p: seq<nat> | Leads(c, p) && RefAt(c, ChildRef(ref, c), p) == r
        ensures p == path[1..]
      {
        Descend(n, ref, k, p);
        assert ([k] + p)[1..] == p;
      }
      OneNodeWeighs(c, ChildRef(ref, c), r, w + 1, path[1..]);
    }
  }

  /**
    Browsing a data object requests the directory of a node `k` levels below it exactly Fib(k + 1) times,
    if no other node has the same reference.
   */
  lemma NodeRequestedFibTimes(n: Node, ref: string, path: seq<nat>)
    requires Leads(n, path) && OnlyOneAt(n, ref, path)
    ensures Count(DAIRequests(n, ref), RefAt(n, ref, path)) == Fib(|path| + 1)
  {
    RequestsWeigh(n, ref, RefAt(n, ref, path));
    OneNodeWeighs(n, ref, RefAt(n, ref, path), 1, path);
  }
}
