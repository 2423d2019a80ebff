/** The SCL type templates of a data set and the memoised lookup of a data object's type in them. */
module SclTypes {
  import opened Mms

  datatype DA = DA(name: string, fc: string)
  datatype DOType = DOType(id: string, das: seq<DA>)
  datatype DO = DO(name: string, typ: string)
  datatype LNodeType = LNodeType(id: string, lnClass: string, dos: seq<DO>)
  datatype Templates = Templates(lNodeTypes: seq<LNodeType>, doTypes: seq<DOType>)

  datatype FCDAEntry = FCDAEntry(ldInst: string, prefix: string, lnClass: string, lnInst: string,
                                 doName: string, daName: string, fc: string)

  /** The arguments of one lookup. */
  datatype Query = Query(prefix: string, lnClass: string, name: string)

  /** What the lookup returns when it finds nothing. */
  const NO_TYPE := DOType("", [])

  // ----- The lookup without its cache

  function DOTypeIdIn(dos: seq<DO>, name: string): string {
    if dos == [] then "" else if dos[0].name == name then dos[0].typ else DOTypeIdIn(dos[1..], name)
  }

  predicate Describes(t: LNodeType, q: Query) {
    t.id == q.prefix + q.lnClass || t.lnClass == q.lnClass
  }

  /** Only the first node type that fits is searched. */
  function DOTypeId(ts: seq<LNodeType>, q: Query): string {
    if ts == [] then "" else if Describes(ts[0], q) then DOTypeIdIn(ts[0].dos, q.name) else DOTypeId(ts[1..], q)
  }

  function FindDOType(ts: seq<DOType>, id: string): Option<DOType> {
    if ts == [] then None else if ts[0].id == id then Some(ts[0]) else FindDOType(ts[1..], id)
  }

  function Search(tm: Templates, q: Query): Option<DOType> {
    FindDOType(tm.doTypes, DOTypeId(tm.lNodeTypes, q))
  }

  function PlainLookup(tm: Templates, q: Query): DOType {
    var t := Search(tm, q);
    if t.Some? then t.value else NO_TYPE
  }

  lemma {:induction false} FirstNamed(dos: seq<DO>, name: string) returns (k: nat)
    ensures k <= |dos| && (k < |dos| ==> dos[k].name == name) && forall x :: 0 <= x < k ==> dos[x].name != name
    ensures DOTypeIdIn(dos, name) == if k < |dos| then dos[k].typ else ""
  {
    if dos == [] || dos[0].name == name {
      k := 0;
    } else {
      k := FirstNamed(dos[1..], name);
      k := k + 1;
    }
  }

  lemma {:induction false} FirstFitting(ts: seq<LNodeType>, q: Query) returns (i: nat)
    ensures i <= |ts| && (i < |ts| ==> ts[i].id == q.prefix + q.lnClass || ts[i].lnClass == q.lnClass)
    ensures forall x :: 0 <= x < i ==> ts[x].id != q.prefix + q.lnClass && ts[x].lnClass != q.lnClass
    ensures DOTypeId(ts, q) == if i < |ts| then DOTypeIdIn(ts[i].dos, q.name) else ""
  {
    if ts == [] || Describes(ts[0], q) {
      i := 0;
    } else {
      i := FirstFitting(ts[1..], q);
      i := i + 1;
    }
  }

  lemma {:induction false} FirstWithId(ts: seq<DOType>, id: string) returns (m: nat)
    ensures m <= |ts| && (m < |ts| ==> ts[m].id == id) && forall x :: 0 <= x < m ==> ts[x].id != id
    ensures FindDOType(ts, id) == if m < |ts| then Some(ts[m]) else None
  {
    if ts == [] || ts[0].id == id {
      m := 0;
    } else {
      m := FirstWithId(ts[1..], id);
      m := m + 1;
    }
  }

  /**
    First matches all the way: of the node types that fit, by name or by class, only the first, number `i`, is
    searched; in it the first data object so named, number `k`, gives the id, which is empty if there is none; and of
    the types with that id the first, number `m`, is found.
   */
  lemma LookupIsFirstMatch(tm: Templates, q: Query) returns (i: nat, k: nat, id: string, m: nat)
    ensures var nodes, types := tm.lNodeTypes, tm.doTypes;
      && i <= |nodes| && (i < |nodes| ==> nodes[i].id == q.prefix + q.lnClass || nodes[i].lnClass == q.lnClass)
      && (forall x :: 0 <= x < i ==> nodes[x].id != q.prefix + q.lnClass && nodes[x].lnClass != q.lnClass)
      && (i < |nodes| ==> k <= |nodes[i].dos| && (k < |nodes[i].dos| ==> nodes[i].dos[k].name == q.name)
                          && forall x :: 0 <= x < k ==> nodes[i].dos[x].name != q.name)
      && id == (if i < |nodes| && k < |nodes[i].dos| then nodes[i].dos[k].typ else "")
      && m <= |types| && (m < |types| ==> types[m].id == id) && (forall x :: 0 <= x < m ==> types[x].id != id)
      && (Search(tm, q).Some? <==> m < |types|)
      && PlainLookup(tm, q) == if m < |types| then types[m] else DOType("", [])
  {
    i := FirstFitting(tm.lNodeTypes, q);
    k := 0;
    if i < |tm.lNodeTypes| {
      k := FirstNamed(tm.lNodeTypes[i].dos, q.name);
    }
    id := DOTypeId(tm.lNodeTypes, q);
    m := FirstWithId(tm.doTypes, id);
  }

  // ----- The lookup with its cache

  function Key(q: Query): string {
    q.prefix + q.lnClass + "/" + q.name
  }

  type Cache = map<string, DOType>

  function CachedLookup(cache: Cache, tm: Templates, q: Query): (DOType, Cache) {
    if Key(q) in cache then (cache[Key(q)], cache)
    else
      var t := Search(tm, q);
      if t.Some? then (t.value, cache[Key(q) := t.value]) else (NO_TYPE, cache)
  }

  /** A data set with the templates it was loaded with; only the cache changes. */
  class DataSetDetail {
    const iedName: string
    const fcdas: seq<FCDAEntry>
    const templates: Templates
    var doTypes: Cache

    constructor (iedName: string, fcdas: seq<FCDAEntry>, templates: Templates)
      ensures this.iedName == iedName && this.fcdas == fcdas && this.templates == templates && doTypes == map[]
    {
      this.iedName, this.fcdas, this.templates, this.doTypes := iedName, fcdas, templates, map[];
    }

    method GetDOType(prefix: string, lnClass: string, name: string) returns (t: DOType)
      modifies this`doTypes
      ensures (t, doTypes) == CachedLookup(old(doTypes), templates, Query(prefix, lnClass, name))
      ensures prefix + lnClass + "/" + name in old(doTypes) ==>
                doTypes == old(doTypes) && t == doTypes[prefix + lnClass + "/" + name]
      ensures prefix + lnClass + "/" + name !in old(doTypes) ==>
                t == PlainLookup(templates, Query(prefix, lnClass, name))
                && (doTypes == old(doTypes) || doTypes == old(doTypes)[prefix + lnClass + "/" + name := t])
                && (t != DOType("", []) ==> prefix + lnClass + "/" + name in doTypes)
    {
      ghost var q := Query(prefix, lnClass, name);
      var key := prefix + lnClass + "/" + name;
      if key in doTypes {
        return doTypes[key];
      }
      var doTypeId := "";
      var lNodeTypes := templates.lNodeTypes;
      for i := 0 to |lNodeTypes|
        invariant doTypeId == ""
        invariant DOTypeId(lNodeTypes, q) == DOTypeId(lNodeTypes[i..], q)
      {
        var lNodeType := lNodeTypes[i];
        if lNodeType.id == prefix + lnClass || lNodeType.lnClass == lnClass {
          for k := 0 to |lNodeType.dos|
            invariant doTypeId == ""
            invariant DOTypeIdIn(lNodeType.dos, name) == DOTypeIdIn(lNodeType.dos[k..], name)
          {
            if lNodeType.dos[k].name == name {
              doTypeId := lNodeType.dos[k].typ;
              break;
            }
          }
          break;
        }
      }
      assert doTypeId == DOTypeId(lNodeTypes, q);
      for i := 0 to |templates.doTypes|
        invariant doTypes == old(doTypes)
        invariant FindDOType(templates.doTypes, doTypeId) == FindDOType(templates.doTypes[i..], doTypeId)
      {
        var doType := templates.doTypes[i];
        if doType.id == doTypeId {
          doTypes := doTypes[key := doType];
          return doType;
        }
      }
      return NO_TYPE;
    }
  }

  // ----- Sequences of lookups on one data set

  function CacheAfter(tm: Templates, qs: seq<Query>): Cache {
    if qs == [] then map[] else CachedLookup(CacheAfter(tm, qs[..|qs| - 1]), tm, qs[|qs| - 1]).1
  }

  /** What the `j`-th of the lookups `qs` returns, the cache being empty before the first. */
  function Answer(tm: Templates, qs: seq<Query>, j: nat): DOType
    requires j < |qs|
  {
    CachedLookup(CacheAfter(tm, qs[..j]), tm, qs[j]).0
  }

  ghost predicate KeysTellApart(qs: seq<Query>) {
    forall i, j :: 0 <= i < |qs| && 0 <= j < |qs| && Key(qs[i]) == Key(qs[j]) ==> qs[i] == qs[j]
  }

  ghost predicate Transparent(qs: seq<Query>) {
    forall tm: Templates, j: nat :: j < |qs| ==> Answer(tm, qs, j) == PlainLookup(tm, qs[j])
  }

  /** The cache says nothing wrong about any of the queries. */
  ghost predicate Truthful(cache: Cache, tm: Templates, qs: seq<Query>) {
    forall q :: q in qs && Key(q) in cache ==> Search(tm, q) == Some(cache[Key(q)])
  }

  lemma LookupKeepsTruth(cache: Cache, tm: Templates, qs: seq<Query>, q: Query)
    requires KeysTellApart(qs) && q in qs && Truthful(cache, tm, qs)
    ensures CachedLookup(cache, tm, q).0 == PlainLookup(tm, q)
    ensures Truthful(CachedLookup(cache, tm, q).1, tm, qs)
  {
  }

  /** What is cached was found by some lookup with that key. */
  lemma {:induction false} CachedWasFound(tm: Templates, qs: seq<Query>, key: string) returns (i: nat)
    requires key in CacheAfter(tm, qs)
    ensures i < |qs| && Key(qs[i]) == key && Search(tm, qs[i]) == Some(CacheAfter(tm, qs)[key])
  {
    var n := |qs| - 1;
    if key in CacheAfter(tm, qs[..n]) {
      i := CachedWasFound(tm, qs[..n], key);
    } else {
      i := n;
    }
  }

  /** The answer of a lookup that could have been found by search is cached, and stays. */
  lemma {:induction false} AnswerStaysCached(tm: Templates, qs: seq<Query>, i: nat)
    requires i < |qs| && Search(tm, qs[i]).Some?
    ensures Key(qs[i]) in CacheAfter(tm, qs) && CacheAfter(tm, qs)[Key(qs[i])] == Answer(tm, qs, i)
    decreases |qs|
  {
    var n := |qs| - 1;
    if i < n {
      AnswerStaysCached(tm, qs[..n], i);
      assert qs[..n][..i] == qs[..i];
    }
  }

  /** A lookup's answer is cached for a later one with the same key, if search could have found it. */
  lemma AnsweredAlike(tm: Templates, qs: seq<Query>, i: nat, j: nat)
    requires i < j < |qs| && Key(qs[i]) == Key(qs[j]) && Search(tm, qs[i]).Some?
    ensures Answer(tm, qs, j) == Answer(tm, qs, i)
  {
    AnswerStaysCached(tm, qs[..j], i);
    assert qs[..j][..i] == qs[..i];
  }

  /** A lookup is answered as without a cache unless an earlier one with its key found another type. */
  lemma AnsweredRight(tm: Templates, qs: seq<Query>, j: nat)
    requires j < |qs|
    requires forall i :: 0 <= i < j && Key(qs[i]) == Key(qs[j]) && Search(tm, qs[i]).Some? ==>
               PlainLookup(tm, qs[i]) == PlainLookup(tm, qs[j])
    ensures Answer(tm, qs, j) == PlainLookup(tm, qs[j])
  {
    if Key(qs[j]) in CacheAfter(tm, qs[..j]) {
      var i := CachedWasFound(tm, qs[..j], Key(qs[j]));
      assert qs[..j][i] == qs[i];
    }
  }

  /**
    On given templates the lookups are answered as without a cache exactly if, whenever search finds a type for one,
    it finds the same for every later one with its key.
   */
  lemma AnswersArePlain(tm: Templates, qs: seq<Query>)
    ensures (forall j: nat :: j < |qs| ==> Answer(tm, qs, j) == PlainLookup(tm, qs[j]))
       <==> (forall i, j :: 0 <= i < j < |qs| && Key(qs[i]) == Key(qs[j]) && Search(tm, qs[i]).Some? ==>
               PlainLookup(tm, qs[i]) == PlainLookup(tm, qs[j]))
  {
    if forall j: nat :: j < |qs| ==> Answer(tm, qs, j) == PlainLookup(tm, qs[j]) {
      forall i, j | 0 <= i < j < |qs| && Key(qs[i]) == Key(qs[j]) && Search(tm, qs[i]).Some?
        ensures PlainLookup(tm, qs[i]) == PlainLookup(tm, qs[j])
      {
        AnsweredAlike(tm, qs, i, j);
      }
    }
    if forall i, j :: 0 <= i < j < |qs| && Key(qs[i]) == Key(qs[j]) && Search(tm, qs[i]).Some? ==>
         PlainLookup(tm, qs[i]) == PlainLookup(tm, qs[j]) {
      forall j: nat | j < |qs|
        ensures Answer(tm, qs, j) == PlainLookup(tm, qs[j])
      {
        AnsweredRight(tm, qs, j);
      }
    }
  }

  lemma SamePrefix(p: Query, q: Query)
    requires Key(p) == Key(q) && |p.lnClass| == |q.lnClass|
    ensures |p.name| == |q.name| ==> p == q
  {
    assert |p.name| == |q.name| ==> |p.prefix| == |q.prefix|;
    var n, c := |p.prefix|, |p.lnClass|;
    assert p.prefix == Key(p)[..n] && p.lnClass == Key(p)[n..n + c] && p.name == Key(p)[n + c + 1..];
    if n == |q.prefix| {
      assert q.prefix == Key(q)[..n] && q.lnClass == Key(q)[n..n + c] && q.name == Key(q)[n + c + 1..];
    }
  }

  lemma FindInOne(t: DOType, id: string)
    ensures FindDOType([t], id) == if t.id == id then Some(t) else None
  {
  }

  /** Two different queries with one key: some templates hold a type for the first and none for the second. */
  lemma Separator(p: Query, q: Query, das: seq<DA>) returns (tm: Templates, t: DOType)
    requires p != q && Key(p) == Key(q)
    ensures tm.doTypes == [t] && t != NO_TYPE && t.das == das
    ensures Search(tm, p) == Some(t) && Search(tm, q) == None
  {
    t := DOType("T", das);
    if p.lnClass != q.lnClass {
      var other := q.prefix + q.lnClass + "x";
      assert |other| != |q.prefix + q.lnClass|;
      tm := Templates([LNodeType(other, p.lnClass, [DO(p.name, "T")])], [t]);
      assert !Describes(tm.lNodeTypes[0], q);
    } else {
      SamePrefix(p, q);
      tm := Templates([LNodeType("", p.lnClass, [DO(p.name, "T")])], [t]);
    }
    var ln := tm.lNodeTypes[0];
    assert tm.lNodeTypes[1..] == [] && ln.dos[1..] == [];
    assert DOTypeId([], q) == "" && DOTypeIdIn([], q.name) == "";
    assert DOTypeId(tm.lNodeTypes, q) == if Describes(ln, q) then DOTypeIdIn(ln.dos, q.name) else DOTypeId([], q);
    FindInOne(t, "");
  }

  /** With a single type to be found, it is what is cached. */
  lemma OnlyTypeCached(tm: Templates, t: DOType, qs: seq<Query>, i: nat)
    requires tm.doTypes == [t] && i < |qs| && Search(tm, qs[i]).Some?
    ensures Key(qs[i]) in CacheAfter(tm, qs) && CacheAfter(tm, qs)[Key(qs[i])] == t
  {
    AnswerStaysCached(tm, qs, i);
    var k := CachedWasFound(tm, qs, Key(qs[i]));
    FindInOne(t, DOTypeId(tm.lNodeTypes, qs[k]));
  }

  /**
    The memo is transparent, on every set of templates, for exactly those sequences of lookups
    whose keys tell the queries apart.
   */
  lemma MemoTransparency(qs: seq<Query>)
    ensures Transparent(qs) <==> KeysTellApart(qs)
  {
    if i, j :| 0 <= i < j < |qs| && Key(qs[i]) == Key(qs[j]) && qs[i] != qs[j] {
      var tm, t := Separator(qs[i], qs[j], []);
      AnswersArePlain(tm, qs);
      assert PlainLookup(tm, qs[i]) != PlainLookup(tm, qs[j]);
    } else {
      forall tm: Templates, j: nat | j < |qs|
        ensures Answer(tm, qs, j) == PlainLookup(tm, qs[j])
      {
        AnswersArePlain(tm, qs);
      }
    }
  }

  /** Two such queries, and templates under which the memo answers the second with the type of the first. */
  lemma MemoAnswersWrongly() returns (tm: Templates, t: DOType)
    ensures var p, q := Query("A", "BCDE", "x"), Query("AB", "CDE", "x");
      && p != q && Key(p) == Key(q)
      && Answer(tm, [p, q], 1) == t && t != NO_TYPE
      && PlainLookup(tm, q) == NO_TYPE
  {
    var p, q := Query("A", "BCDE", "x"), Query("AB", "CDE", "x");
    assert p.lnClass[0] != q.lnClass[0];
    assert Key(p) == "ABCDE/x" && Key(q) == "ABCDE/x";
    tm, t := Separator(p, q, []);
    assert [p, q][..1] == [p];
    OnlyTypeCached(tm, t, [p, q][..1], 0);
  }

  // ----- When keys tell queries apart

  /** Logical node classes have four characters, and names of data objects hold no slash. */
  predicate WellFormed(q: Query) {
    |q.lnClass| == 4 && '/' !in q.name
  }

  lemma SlashIsLast(p: Query, q: Query)
    requires Key(p) == Key(q)
    ensures '/' in p.name || |p.name| <= |q.name|
  {
    var k := |p.name| - |q.name| - 1;
    if k >= 0 {
      assert Key(p)[|p.prefix + p.lnClass| + 1 + k] == p.name[k];
      assert Key(q)[|q.prefix + q.lnClass|] == '/';
    }
  }

  /** The key, a bare concatenation, is injective on well-formed queries. */
  lemma KeyInjective(p: Query, q: Query)
    requires WellFormed(p) && WellFormed(q) && Key(p) == Key(q)
    ensures p == q
  {
    SlashIsLast(p, q);
    SlashIsLast(q, p);
    SamePrefix(p, q);
  }

  /** Hence on well-formed queries every lookup returns what the search without a cache returns. */
  lemma WellFormedLookups(qs: seq<Query>)
    requires forall q :: q in qs ==> WellFormed(q)
    ensures Transparent(qs)
  {
    forall i, j | 0 <= i < |qs| && 0 <= j < |qs| && Key(qs[i]) == Key(qs[j])
      ensures qs[i] == qs[j]
    {
      KeyInjective(qs[i], qs[j]);
    }
    MemoTransparency(qs);
  }
}
