/** The compilation of a data set's SCL description into a list of named index pairs. */
module SchemaCompiler {
  import opened Mms
  import opened SclTypes

  datatype SchemaLeaf = SchemaLeaf(path: string, fcdaIdx: nat, daIdx: int)

  datatype DataSetSchema = DataSetSchema(leaves: seq<SchemaLeaf>, fcdaCount: nat)

  function BasePath(iedName: string, f: FCDAEntry): string {
    iedName + f.ldInst + "/" + f.prefix + f.lnClass + f.lnInst + "." + f.doName
  }

  function QueryOf(f: FCDAEntry): Query {
    Query(f.prefix, f.lnClass, f.doName)
  }

  /** The attributes with one of the functional constraints `fcs`, in definition order. */
  function Matching(das: seq<DA>, fcs: set<string>): seq<DA> {
    if das == [] then []
    else if das[|das| - 1].fc in fcs then Matching(das[..|das| - 1], fcs) + [das[|das| - 1]]
    else Matching(das[..|das| - 1], fcs)
  }

  lemma {:induction false} MatchingSelectsUpTo(das: seq<DA>, fcs: set<string>, n: nat) returns (at: seq<nat>)
    requires n <= |das|
    ensures SelectsUpTo(das, (da: DA) => da.fc in fcs, n, at) && |Matching(das[..n], fcs)| == |at|
    ensures forall j :: 0 <= j < |at| ==> Matching(das[..n], fcs)[j] == das[at[j]]
  {
    if n == 0 {
      at := [];
    } else {
      at := MatchingSelectsUpTo(das, fcs, n - 1);
      SelectsOneMore(das, (da: DA) => da.fc in fcs, n - 1, at);
      assert das[..n][..n - 1] == das[..n - 1];
      at := if das[n - 1].fc in fcs then at + [n - 1] else at;
    }
  }

  /** The attributes selected are those with such a constraint, each once, in their order. */
  lemma MatchingSelects(das: seq<DA>, fcs: set<string>) returns (at: seq<nat>)
    ensures Selects(das, (da: DA) => da.fc in fcs, at) && |Matching(das, fcs)| == |at|
    ensures forall j :: 0 <= j < |at| ==> Matching(das, fcs)[j] == das[at[j]]
  {
    at := MatchingSelectsUpTo(das, fcs, |das|);
    assert das[..|das|] == das;
  }

  /** The leaves of the `idx`-th entry, given the type of its data object. */
  function EntryLeaves(iedName: string, f: FCDAEntry, idx: nat, das: seq<DA>): seq<SchemaLeaf> {
    if f.daName != "" then [SchemaLeaf(BasePath(iedName, f) + "." + f.daName, idx, -1)]
    else
      var ms := Matching(das, {f.fc});
      seq(|ms|, j requires 0 <= j < |ms| => SchemaLeaf(BasePath(iedName, f) + "." + ms[j].name, idx, j))
  }

  /** What compiling the entries produces, and what it leaves in the type cache it starts with. */
  function Compiled(iedName: string, fcdas: seq<FCDAEntry>, tm: Templates, cache: Cache): (seq<SchemaLeaf>, Cache) {
    if fcdas == [] then ([], cache)
    else
      var n := |fcdas| - 1;
      var (leaves, c) := Compiled(iedName, fcdas[..n], tm, cache);
      if fcdas[n].daName != "" then (leaves + EntryLeaves(iedName, fcdas[n], n, []), c)
      else
        var (t, c') := CachedLookup(c, tm, QueryOf(fcdas[n]));
        (leaves + EntryLeaves(iedName, fcdas[n], n, t.das), c')
  }

  /** The inner loop: one leaf per attribute with the entry's functional constraint. */
  method AppendDOLeaves(before: seq<SchemaLeaf>, iedName: string, fcda: FCDAEntry, base: string, idx: nat, das: seq<DA>)
    returns (leaves: seq<SchemaLeaf>)
    requires fcda.daName == "" && base == BasePath(iedName, fcda)
    ensures leaves == before + EntryLeaves(iedName, fcda, idx, das)
  {
    leaves := before;
    var subIdx := 0;
    for i := 0 to |das|
      invariant subIdx == |Matching(das[..i], {fcda.fc})|
      invariant leaves == before + EntryLeaves(iedName, fcda, idx, das[..i])
    {
      assert das[..i + 1][..i] == das[..i];
      var da := das[i];
      if da.fc != fcda.fc {
        continue;
      }
      leaves := leaves + [SchemaLeaf(base + "." + da.name, idx, subIdx)];
      subIdx := subIdx + 1;
    }
    assert das[..|das|] == das;
  }

  method BuildDataSetSchema(detail: DataSetDetail) returns (schema: DataSetSchema)
    modifies detail`doTypes
    ensures (schema.leaves, detail.doTypes)
         == Compiled(detail.iedName, detail.fcdas, detail.templates, old(detail.doTypes))
    ensures schema.fcdaCount == |detail.fcdas|
  {
    ghost var cache := detail.doTypes;
    var leaves := [];
    for idx := 0 to |detail.fcdas|
      invariant (leaves, detail.doTypes) == Compiled(detail.iedName, detail.fcdas[..idx], detail.templates, cache)
    {
      assert detail.fcdas[..idx + 1][..idx] == detail.fcdas[..idx];
      var fcda := detail.fcdas[idx];
      var base := detail.iedName + fcda.ldInst + "/" + fcda.prefix + fcda.lnClass + fcda.lnInst + "." + fcda.doName;
      if fcda.daName != "" {
        leaves := leaves + [SchemaLeaf(base + "." + fcda.daName, idx, -1)];
        continue;
      }
      var doType := detail.GetDOType(fcda.prefix, fcda.lnClass, fcda.doName);
      leaves := AppendDOLeaves(leaves, detail.iedName, fcda, base, idx, doType.das);
    }
    assert detail.fcdas[..|detail.fcdas|] == detail.fcdas;
    schema := DataSetSchema(leaves, |detail.fcdas|);
  }

  // ----- Compilation does not see the cache

  /** The lookups the compilation makes. */
  function DOQueries(fcdas: seq<FCDAEntry>): seq<Query> {
    if fcdas == [] then []
    else DOQueries(fcdas[..|fcdas| - 1]) + if fcdas[|fcdas| - 1].daName == "" then [QueryOf(fcdas[|fcdas| - 1])] else []
  }

  /** The attributes of entry `f`'s data object, by plain search. */
  function DAsOf(tm: Templates, f: FCDAEntry): seq<DA> {
    if f.daName != "" then [] else PlainLookup(tm, QueryOf(f)).das
  }

  function PlainLeaves(iedName: string, fcdas: seq<FCDAEntry>, tm: Templates): seq<SchemaLeaf> {
    if fcdas == [] then []
    else
      var n := |fcdas| - 1;
      PlainLeaves(iedName, fcdas[..n], tm) + EntryLeaves(iedName, fcdas[n], n, DAsOf(tm, fcdas[n]))
  }

  /** With a truthful cache and keys that tell the looked-up types apart, the leaves are those of the plain search. */
  lemma {:induction false} CompilationIgnoresCache(
    iedName: string, fcdas: seq<FCDAEntry>, tm: Templates, cache: Cache, qs: seq<Query>)
    requires KeysTellApart(qs) && Truthful(cache, tm, qs)
    requires forall q :: q in DOQueries(fcdas) ==> q in qs
    ensures Compiled(iedName, fcdas, tm, cache).0 == PlainLeaves(iedName, fcdas, tm)
    ensures Truthful(Compiled(iedName, fcdas, tm, cache).1, tm, qs)
  {
    if fcdas == [] {
    } else {
      var n := |fcdas| - 1;
      CompilationIgnoresCache(iedName, fcdas[..n], tm, cache, qs);
      if fcdas[n].daName == "" {
        assert DOQueries(fcdas)[|DOQueries(fcdas[..n])|] == QueryOf(fcdas[n]);
        LookupKeepsTruth(Compiled(iedName, fcdas[..n], tm, cache).1, tm, qs, QueryOf(fcdas[n]));
      }
    }
  }

  // ----- What the leaves are

  /** The path of any leaf, whatever the cache said: the parts of its entry's reference in order, then a name. */
  lemma {:induction false} CompiledPath(iedName: string, fcdas: seq<FCDAEntry>, tm: Templates, cache: Cache, k: nat)
    returns (name: string)
    requires k < |Compiled(iedName, fcdas, tm, cache).0|
    ensures var leaf := Compiled(iedName, fcdas, tm, cache).0[k];
      && leaf.fcdaIdx < |fcdas|
      && var f := fcdas[leaf.fcdaIdx];
         && leaf.path == iedName + f.ldInst + "/" + f.prefix + f.lnClass + f.lnInst + "." + f.doName + "." + name
         && (f.daName != "" ==> name == f.daName && leaf.daIdx == -1)
         && (f.daName == "" ==> leaf.daIdx >= 0)
  {
    var n := |fcdas| - 1;
    var (leaves, c) := Compiled(iedName, fcdas[..n], tm, cache);
    if k < |leaves| {
      name := CompiledPath(iedName, fcdas[..n], tm, cache, k);
    } else {
      var f := fcdas[n];
      name := if f.daName != "" then f.daName
              else Matching(CachedLookup(c, tm, QueryOf(f)).0.das, {f.fc})[k - |leaves|].name;
    }
  }

  ghost predicate Before(a: SchemaLeaf, b: SchemaLeaf) {
    a.fcdaIdx < b.fcdaIdx || (a.fcdaIdx == b.fcdaIdx && a.daIdx < b.daIdx)
  }

  /** What a leaf must say: it names the member itself, or the `daIdx`-th attribute with the entry's constraint. */
  ghost predicate Locates(iedName: string, fcdas: seq<FCDAEntry>, tm: Templates, leaf: SchemaLeaf) {
    && leaf.fcdaIdx < |fcdas|
    && var f := fcdas[leaf.fcdaIdx];
       if f.daName != "" then leaf.daIdx == -1 && leaf.path == BasePath(iedName, f) + "." + f.daName
       else
         var ms := Matching(DAsOf(tm, f), {f.fc});
         0 <= leaf.daIdx < |ms| && leaf.path == BasePath(iedName, f) + "." + ms[leaf.daIdx].name
  }

  lemma EntryLeavesLocate(iedName: string, fcdas: seq<FCDAEntry>, tm: Templates, leaf: SchemaLeaf)
    requires fcdas != []
    ensures var n := |fcdas| - 1;
            leaf in EntryLeaves(iedName, fcdas[n], n, DAsOf(tm, fcdas[n]))
            <==> leaf.fcdaIdx == n && Locates(iedName, fcdas, tm, leaf)
  {
    var n := |fcdas| - 1;
    var es := EntryLeaves(iedName, fcdas[n], n, DAsOf(tm, fcdas[n]));
    if leaf.fcdaIdx == n && Locates(iedName, fcdas, tm, leaf) {
      assert leaf == es[if fcdas[n].daName != "" then 0 else leaf.daIdx];
    }
  }

  /** A leaf is produced exactly when it locates something. */
  lemma {:induction false} LeavesAreTheLocations(
    iedName: string, fcdas: seq<FCDAEntry>, tm: Templates, leaf: SchemaLeaf)
    ensures leaf in PlainLeaves(iedName, fcdas, tm) <==> Locates(iedName, fcdas, tm, leaf)
  {
    if fcdas == [] {
    } else {
      LeavesAreTheLocations(iedName, fcdas[..|fcdas| - 1], tm, leaf);
      EntryLeavesLocate(iedName, fcdas, tm, leaf);
    }
  }

  /** Leaves come in strictly increasing order of member index, then attribute index: none twice. */
  lemma {:induction false} LeavesAreSorted(iedName: string, fcdas: seq<FCDAEntry>, tm: Templates)
    ensures forall a, b :: 0 <= a < b < |PlainLeaves(iedName, fcdas, tm)| ==>
              Before(PlainLeaves(iedName, fcdas, tm)[a], PlainLeaves(iedName, fcdas, tm)[b])
  {
    if fcdas == [] {
    } else {
      var n := |fcdas| - 1;
      var init, last := PlainLeaves(iedName, fcdas[..n], tm), EntryLeaves(iedName, fcdas[n], n, DAsOf(tm, fcdas[n]));
      LeavesAreSorted(iedName, fcdas[..n], tm);
      forall a | 0 <= a < |init|
        ensures init[a].fcdaIdx < n
      {
        assert init[a] in init;
        LeavesAreTheLocations(iedName, fcdas[..n], tm, init[a]);
      }
      assert forall b :: 0 <= b < |last| ==> last[b].fcdaIdx == n;
    }
  }

  lemma FirstIsMember(s: seq<SchemaLeaf>)
    ensures s != [] ==> s[0] in s
  {
  }

  /** The two facts above pin the sequence down: any sorted list of exactly the locations is the compiled one. */
  lemma {:induction false} SortedListIsUnique(a: seq<SchemaLeaf>, b: seq<SchemaLeaf>)
    requires forall x :: x in a <==> x in b
    requires forall i, j :: 0 <= i < j < |a| ==> Before(a[i], a[j])
    requires forall i, j :: 0 <= i < j < |b| ==> Before(b[i], b[j])
    ensures a == b
    decreases |a|
  {
    FirstIsMember(b);
    if a != [] {
      var x := a[|a| - 1];
      assert x in b;
      var y := b[|b| - 1];
      assert y in a;
      assert x == y;
      var a', b' := a[..|a| - 1], b[..|b| - 1];
      forall z
        ensures z in a' <==> z in b'
      {
        assert z in a <==> z in a' || z == x;
        assert z in b <==> z in b' || z == x;
        assert !Before(x, x);
      }
      SortedListIsUnique(a', b');
    }
  }

  /**
    A leaf of entry `f` is named, part by part, IED name, logical device, slash, prefix, class and instance of the
    logical node, dot, data object, dot, and then: the attribute the entry names; or, if it names none, the attribute
    at the leaf's place among those of the data object's type, by plain search, that have the entry's constraint.
   */
  lemma LeafPath(iedName: string, fcdas: seq<FCDAEntry>, tm: Templates, leaf: SchemaLeaf)
    returns (name: string, at: seq<nat>)
    requires leaf in PlainLeaves(iedName, fcdas, tm)
    ensures leaf.fcdaIdx < |fcdas|
    ensures var f := fcdas[leaf.fcdaIdx];
      && leaf.path == iedName + f.ldInst + "/" + f.prefix + f.lnClass + f.lnInst + "." + f.doName + "." + name
      && (f.daName != "" ==> name == f.daName && leaf.daIdx == -1)
      && (f.daName == "" ==>
            var das := PlainLookup(tm, Query(f.prefix, f.lnClass, f.doName)).das;
            && Selects(das, (da: DA) => da.fc in {f.fc}, at)
            && 0 <= leaf.daIdx < |at| && name == das[at[leaf.daIdx]].name)
  {
    LeavesAreTheLocations(iedName, fcdas, tm, leaf);
    var f := fcdas[leaf.fcdaIdx];
    at := [];
    if f.daName != "" {
      name := f.daName;
    } else {
      at := MatchingSelects(DAsOf(tm, f), {f.fc});
      name := Matching(DAsOf(tm, f), {f.fc})[leaf.daIdx].name;
    }
  }

  /** And there is such a leaf for every entry that names an attribute, and for every attribute selected otherwise. */
  lemma LeafIsThere(iedName: string, fcdas: seq<FCDAEntry>, tm: Templates, i: nat, j: nat, at: seq<nat>)
    requires i < |fcdas|
    ensures var f := fcdas[i];
      var base := iedName + f.ldInst + "/" + f.prefix + f.lnClass + f.lnInst + "." + f.doName;
      var das := PlainLookup(tm, Query(f.prefix, f.lnClass, f.doName)).das;
      && (f.daName != "" ==> SchemaLeaf(base + "." + f.daName, i, -1) in PlainLeaves(iedName, fcdas, tm))
      && (f.daName == "" && Selects(das, (da: DA) => da.fc in {f.fc}, at) && j < |at| ==>
            SchemaLeaf(base + "." + das[at[j]].name, i, j) in PlainLeaves(iedName, fcdas, tm))
  {
    var f, das := fcdas[i], DAsOf(tm, fcdas[i]);
    var base := BasePath(iedName, f);
    if f.daName != "" {
      LeavesAreTheLocations(iedName, fcdas, tm, SchemaLeaf(base + "." + f.daName, i, -1));
    } else if Selects(das, (da: DA) => da.fc in {f.fc}, at) && j < |at| {
      var here := MatchingSelects(das, {f.fc});
      SelectsIsUnique(das, (da: DA) => da.fc in {f.fc}, at, here);
      LeavesAreTheLocations(iedName, fcdas, tm, SchemaLeaf(base + "." + das[at[j]].name, i, j));
    }
  }

  // ----- Compiling from an empty cache

  lemma {:induction false} CompiledCache(iedName: string, fcdas: seq<FCDAEntry>, tm: Templates)
    ensures Compiled(iedName, fcdas, tm, map[]).1 == CacheAfter(tm, DOQueries(fcdas))
  {
    if fcdas == [] {
    } else {
      var n := |fcdas| - 1;
      CompiledCache(iedName, fcdas[..n], tm);
      if fcdas[n].daName == "" {
        assert DOQueries(fcdas)[..|DOQueries(fcdas)| - 1] == DOQueries(fcdas[..n]);
      } else {
        assert DOQueries(fcdas) == DOQueries(fcdas[..n]);
      }
    }
  }

  lemma {:induction false} CompiledPrefix(iedName: string, fcdas: seq<FCDAEntry>, tm: Templates, n: nat)
    requires n <= |fcdas|
    ensures Compiled(iedName, fcdas[..n], tm, map[]).0 <= Compiled(iedName, fcdas, tm, map[]).0
    decreases |fcdas|
  {
    if n == |fcdas| {
      assert fcdas[..n] == fcdas;
    } else {
      CompiledPrefix(iedName, fcdas[..|fcdas| - 1], tm, n);
      assert fcdas[..|fcdas| - 1][..n] == fcdas[..n];
    }
  }

  /** The entry the `j`-th lookup is made for. */
  lemma {:induction false} EntryOfQuery(fcdas: seq<FCDAEntry>, j: nat) returns (b: nat)
    requires j < |DOQueries(fcdas)|
    ensures b < |fcdas| && fcdas[b].daName == "" && QueryOf(fcdas[b]) == DOQueries(fcdas)[j]
    ensures DOQueries(fcdas[..b]) == DOQueries(fcdas)[..j]
  {
    var n := |fcdas| - 1;
    if j == |DOQueries(fcdas[..n])| {
      b := n;
    } else {
      b := EntryOfQuery(fcdas[..n], j);
      assert fcdas[..n][..b] == fcdas[..b];
      assert DOQueries(fcdas)[..j] == DOQueries(fcdas[..n])[..j];
    }
  }

  /** Where the memo errs for the second of two entries, that entry gets a leaf the plain search does not give it. */
  lemma ExtraLeaf(iedName: string, fcdas: seq<FCDAEntry>, i: nat, j: nat) returns (tm: Templates)
    requires i < j < |DOQueries(fcdas)|
    requires Key(DOQueries(fcdas)[i]) == Key(DOQueries(fcdas)[j]) && DOQueries(fcdas)[i] != DOQueries(fcdas)[j]
    ensures Compiled(iedName, fcdas, tm, map[]).0 != PlainLeaves(iedName, fcdas, tm)
  {
    var qs := DOQueries(fcdas);
    var b := EntryOfQuery(fcdas, j);
    var da := DA("a", fcdas[b].fc);
    var t;
    tm, t := Separator(qs[i], qs[j], [da]);
    OnlyTypeCached(tm, t, qs[..j], i);
    CompiledCache(iedName, fcdas[..b], tm);
    assert [da][..0] == [] && Matching([da], {da.fc}) == [da];
    var leaf := SchemaLeaf(BasePath(iedName, fcdas[b]) + "." + da.name, b, 0);
    var upTo := Compiled(iedName, fcdas[..b + 1], tm, map[]).0;
    assert fcdas[..b + 1][..b] == fcdas[..b];
    assert upTo == Compiled(iedName, fcdas[..b], tm, map[]).0 + EntryLeaves(iedName, fcdas[b], b, [da]);
    assert upTo[|upTo| - 1] == leaf;
    CompiledPrefix(iedName, fcdas, tm, b + 1);
    assert Compiled(iedName, fcdas, tm, map[]).0[|upTo| - 1] == leaf;
    LeavesAreTheLocations(iedName, fcdas, tm, leaf);
  }

  /**
    A detail just loaded compiles to the leaves of the plain search, under all templates, exactly if the keys tell
    the looked-up types apart.
   */
  lemma FreshCompilation(iedName: string, fcdas: seq<FCDAEntry>)
    ensures (forall tm :: Compiled(iedName, fcdas, tm, map[]).0 == PlainLeaves(iedName, fcdas, tm))
       <==> KeysTellApart(DOQueries(fcdas))
  {
    var qs := DOQueries(fcdas);
    if i, j :| 0 <= i < j < |qs| && Key(qs[i]) == Key(qs[j]) && qs[i] != qs[j] {
      var tm := ExtraLeaf(iedName, fcdas, i, j);
    } else {
      forall tm
        ensures Compiled(iedName, fcdas, tm, map[]).0 == PlainLeaves(iedName, fcdas, tm)
      {
        CompilationIgnoresCache(iedName, fcdas, tm, map[], qs);
      }
    }
  }

  lemma {:induction false} DOQueriesOfEntries(fcdas: seq<FCDAEntry>)
    requires forall f :: f in fcdas && f.daName == "" ==> WellFormed(QueryOf(f))
    ensures forall i :: 0 <= i < |DOQueries(fcdas)| ==> WellFormed(DOQueries(fcdas)[i])
  {
    if fcdas == [] {
    } else {
      assert fcdas[|fcdas| - 1] in fcdas;
      forall f | f in fcdas[..|fcdas| - 1]
        ensures f in fcdas
      {
      }
      DOQueriesOfEntries(fcdas[..|fcdas| - 1]);
    }
  }

  lemma WellFormedKeys(fcdas: seq<FCDAEntry>)
    requires forall f :: f in fcdas && f.daName == "" ==> WellFormed(QueryOf(f))
    ensures KeysTellApart(DOQueries(fcdas))
  {
    var qs := DOQueries(fcdas);
    DOQueriesOfEntries(fcdas);
    forall i, j | 0 <= i < |qs| && 0 <= j < |qs| && Key(qs[i]) == Key(qs[j])
      ensures qs[i] == qs[j]
    {
      KeyInjective(qs[i], qs[j]);
    }
  }

  /** In particular if its entries are well-formed. */
  lemma WellFormedCompilation(iedName: string, fcdas: seq<FCDAEntry>, tm: Templates)
    requires forall f :: f in fcdas && f.daName == "" ==> WellFormed(QueryOf(f))
    ensures Compiled(iedName, fcdas, tm, map[]).0 == PlainLeaves(iedName, fcdas, tm)
  {
    WellFormedKeys(fcdas);
    FreshCompilation(iedName, fcdas);
  }

  // ----- Rank and select

  /** How many of the attributes before `i` have one of the constraints. */
  function Rank(das: seq<DA>, fcs: set<string>, i: nat): nat
    requires i <= |das|
  {
    if i == 0 then 0 else Rank(das, fcs, i - 1) + if das[i - 1].fc in fcs then 1 else 0
  }

  lemma {:induction false} RankSelect(das: seq<DA>, fcs: set<string>, n: nat)
    requires n <= |das|
    ensures |Matching(das[..n], fcs)| == Rank(das, fcs, n)
    ensures forall i :: 0 <= i < n && das[i].fc in fcs ==>
              Rank(das, fcs, i) < Rank(das, fcs, n) && Matching(das[..n], fcs)[Rank(das, fcs, i)] == das[i]
  {
    if n == 0 {
    } else {
      RankSelect(das, fcs, n - 1);
      assert das[..n][..n - 1] == das[..n - 1];
    }
  }

  /** Every selected attribute has a position, and its rank there is its index. */
  lemma {:induction false} SelectPosition(das: seq<DA>, fcs: set<string>, n: nat, j: nat) returns (i: nat)
    requires n <= |das| && j < Rank(das, fcs, n)
    ensures i < n && das[i].fc in fcs && Rank(das, fcs, i) == j
  {
    if das[n - 1].fc in fcs && Rank(das, fcs, n - 1) == j {
      i := n - 1;
    } else {
      i := SelectPosition(das, fcs, n - 1, j);
    }
  }

  lemma RankAt(das: seq<DA>, fcs: set<string>, i: nat)
    requires i < |das| && das[i].fc in fcs
    ensures Rank(das, fcs, i) < |Matching(das, fcs)| && Matching(das, fcs)[Rank(das, fcs, i)] == das[i]
  {
    RankSelect(das, fcs, |das|);
    assert das[..|das|] == das;
  }

  lemma SelectAt(das: seq<DA>, fcs: set<string>, j: nat) returns (i: nat)
    requires j < |Matching(das, fcs)|
    ensures i < |das| && das[i].fc in fcs && Rank(das, fcs, i) == j && Matching(das, fcs)[j] == das[i]
  {
    RankSelect(das, fcs, |das|);
    assert das[..|das|] == das;
    i := SelectPosition(das, fcs, |das|, j);
  }

  // ----- The name search of the older read path

  const MEASURED := {"MX", "ST"}

  /** The name of the `index`-th attribute with constraint MX or ST. */
  function DANameAt(das: seq<DA>, index: int): string {
    var ms := Matching(das, MEASURED);
    if 0 <= index < |ms| then ms[index].name else ""
  }

  lemma {:induction false} MatchingPrefix(das: seq<DA>, fcs: set<string>, n: nat)
    requires n <= |das|
    ensures Matching(das[..n], fcs) <= Matching(das, fcs)
    decreases |das|
  {
    if n == |das| {
      assert das[..n] == das;
    } else {
      MatchingPrefix(das[..|das| - 1], fcs, n);
      assert das[..|das| - 1][..n] == das[..n];
    }
  }

  method FindDAName(das: seq<DA>, index: int) returns (name: string)
    ensures name == DANameAt(das, index)
  {
    var realIndex := 0;
    for i := 0 to |das|
      invariant realIndex == |Matching(das[..i], MEASURED)|
      invariant 0 <= index ==> realIndex <= index
    {
      assert das[..i + 1][..i] == das[..i];
      var da := das[i];
      if da.fc != "MX" && da.fc != "ST" {
        continue;
      }
      if realIndex == index {
        MatchingPrefix(das, MEASURED, i + 1);
        return da.name;
      }
      realIndex := realIndex + 1;
    }
    assert das[..|das|] == das;
    return "";
  }

  /** The older search counts the attributes with constraint MX or ST, from 0, and finds nothing beyond them. */
  lemma NameIsOfMeasured(das: seq<DA>, index: int) returns (at: seq<nat>)
    ensures Selects(das, (da: DA) => da.fc in {"MX", "ST"}, at)
    ensures DANameAt(das, index) == if 0 <= index < |at| then das[at[index]].name else ""
  {
    at := MatchingSelects(das, {"MX", "ST"});
  }

  /** The names in an attribute list are proper and tell the attributes apart. */
  predicate ProperNames(das: seq<DA>) {
    && (forall i :: 0 <= i < |das| ==> das[i].name != "")
    && (forall i, j :: 0 <= i < j < |das| ==> das[i].name != das[j].name)
  }

  /** The constraint is MX or ST, and no attribute with the other of the two comes before position `i`. */
  predicate InStep(das: seq<DA>, fc: string, i: nat)
    requires i < |das|
  {
    fc in MEASURED && forall k :: 0 <= k < i && das[k].fc in MEASURED ==> das[k].fc == fc
  }

  lemma {:induction false} RanksInStep(das: seq<DA>, fc: string, n: nat)
    requires n <= |das| && fc in MEASURED
    ensures Rank(das, {fc}, n) <= Rank(das, MEASURED, n)
    ensures Rank(das, {fc}, n) == Rank(das, MEASURED, n)
       <==> forall k :: 0 <= k < n && das[k].fc in MEASURED ==> das[k].fc == fc
  {
    if n == 0 {
    } else {
      RanksInStep(das, fc, n - 1);
    }
  }

  /** An index finds attribute `i` exactly if it is its rank among the measured ones. */
  lemma FoundExactly(das: seq<DA>, i: nat, j: nat)
    requires ProperNames(das) && i < |das|
    ensures DANameAt(das, j) == das[i].name <==> das[i].fc in MEASURED && Rank(das, MEASURED, i) == j
  {
    if das[i].fc in MEASURED {
      RankAt(das, MEASURED, i);
    }
    if j < |Matching(das, MEASURED)| {
      var k := SelectAt(das, MEASURED, j);
      assert DANameAt(das, j) == das[k].name;
    }
  }

  /**
    Attribute `i` is found under its index among those with its constraint exactly if the two numberings are in
    step.
   */
  lemma FoundInStep(das: seq<DA>, fc: string, i: nat)
    requires ProperNames(das) && i < |das| && das[i].fc == fc
    ensures DANameAt(das, Rank(das, {fc}, i)) == das[i].name <==> InStep(das, fc, i)
  {
    FoundExactly(das, i, Rank(das, {fc}, i));
    if fc in MEASURED {
      RanksInStep(das, fc, i);
    }
  }

  lemma SamePathEnd(base: string, x: string, y: string)
    ensures base + "." + x == base + "." + y <==> x == y
  {
    if base + "." + x == base + "." + y {
      assert x == (base + "." + x)[|base| + 1..];
      assert y == (base + "." + y)[|base| + 1..];
    }
  }

  /**
    The leaves of a data object are all named as the older search names them exactly if, before each attribute with
    the entry's constraint, that constraint is the only one of MX and ST.
   */
  lemma PathsMatchFindDAName(iedName: string, f: FCDAEntry, idx: nat, das: seq<DA>)
    requires f.daName == "" && ProperNames(das)
    ensures var leaves := EntryLeaves(iedName, f, idx, das);
      (forall j :: 0 <= j < |leaves| ==>
         leaves[j].path == BasePath(iedName, f) + "." + DANameAt(das, leaves[j].daIdx))
      <==> (forall i :: 0 <= i < |das| && das[i].fc == f.fc ==> InStep(das, f.fc, i))
  {
    var leaves, ms := EntryLeaves(iedName, f, idx, das), Matching(das, {f.fc});
    forall j | 0 <= j < |leaves|
      ensures exists i :: 0 <= i < |das| && das[i].fc == f.fc && Rank(das, {f.fc}, i) == j
      ensures leaves[j].path == BasePath(iedName, f) + "." + DANameAt(das, j) <==> ms[j].name == DANameAt(das, j)
    {
      var i := SelectAt(das, {f.fc}, j);
      SamePathEnd(BasePath(iedName, f), ms[j].name, DANameAt(das, j));
    }
    forall i | 0 <= i < |das| && das[i].fc == f.fc
      ensures var j := Rank(das, {f.fc}, i);
        j < |ms| && ms[j] == das[i] && (DANameAt(das, j) == ms[j].name <==> InStep(das, f.fc, i))
    {
      RankAt(das, {f.fc}, i);
      FoundInStep(das, f.fc, i);
    }
  }

  lemma MatchingOfTwo(a: DA, b: DA, fcs: set<string>)
    ensures Matching([a, b], fcs) == (if a.fc in fcs then [a] else []) + if b.fc in fcs then [b] else []
  {
    assert [a, b][..1] == [a] && [a][..0] == [];
    assert Matching([a], fcs) == if a.fc in fcs then [a] else [];
  }

  /** An entry for MX, with an ST attribute before the MX one: the only leaf is for "b", and its index finds "a". */
  lemma LeafNamedDifferently(iedName: string, f: FCDAEntry, idx: nat)
    requires f.daName == "" && f.fc == "MX"
    ensures var das := [DA("a", "ST"), DA("b", "MX")];
      && EntryLeaves(iedName, f, idx, das) == [SchemaLeaf(BasePath(iedName, f) + "." + "b", idx, 0)]
      && DANameAt(das, 0) == "a"
  {
    var a, b := DA("a", "ST"), DA("b", "MX");
    MatchingOfTwo(a, b, {f.fc});
    MatchingOfTwo(a, b, MEASURED);
    assert a.fc[0] != b.fc[0];
    assert Matching([a, b], {f.fc}) == [b] && Matching([a, b], MEASURED) == [a, b];
  }

  lemma {:induction false} MatchingMembers(das: seq<DA>, fcs: set<string>, da: DA)
    ensures da in Matching(das, fcs) <==> da in das && da.fc in fcs
  {
    if das == [] {
    } else {
      MatchingMembers(das[..|das| - 1], fcs, da);
      assert das == das[..|das| - 1] + [das[|das| - 1]];
    }
  }

  lemma {:induction false} Disagreement(das: seq<DA>, fcs: set<string>, gcs: set<string>)
    requires Matching(das, fcs) != Matching(das, gcs)
    ensures exists da :: da in das && da.fc in fcs + gcs && (da.fc in fcs <==> da.fc !in gcs)
  {
    var last := das[|das| - 1];
    if last.fc in fcs <==> last.fc in gcs {
      Disagreement(das[..|das| - 1], fcs, gcs);
    } else {
      assert last in das;
    }
  }

  lemma SelectionsAgree(das: seq<DA>, fcs: set<string>, gcs: set<string>)
    ensures Matching(das, fcs) == Matching(das, gcs) <==> forall da :: da in das ==> (da.fc in fcs <==> da.fc in gcs)
  {
    if Matching(das, fcs) == Matching(das, gcs) {
      forall da | da in das
        ensures da.fc in fcs <==> da.fc in gcs
      {
        MatchingMembers(das, fcs, da);
        MatchingMembers(das, gcs, da);
      }
    } else {
      Disagreement(das, fcs, gcs);
    }
  }

  /** The name of the `index`-th attribute with the constraint `fc`, and none beyond the last. */
  function LeafNameAt(das: seq<DA>, fc: string, index: int): string {
    var ms := Matching(das, {fc});
    if 0 <= index < |ms| then ms[index].name else ""
  }

  lemma SameNameSameAttribute(das: seq<DA>, fc: string, j: nat)
    requires ProperNames(das) && LeafNameAt(das, fc, j) == DANameAt(das, j)
    requires j < |Matching(das, {fc})| || j < |Matching(das, MEASURED)|
    ensures j < |Matching(das, {fc})| && j < |Matching(das, MEASURED)|
    ensures Matching(das, {fc})[j] == Matching(das, MEASURED)[j]
  {
    if j < |Matching(das, {fc})| {
      var i := SelectAt(das, {fc}, j);
    }
    if j < |Matching(das, MEASURED)| {
      var k := SelectAt(das, MEASURED, j);
    }
  }

  /**
    Under every index, those beyond the last included, both numberings yield the same name exactly if the attributes
    with the entry's constraint are those with constraint MX or ST.
   */
  lemma NumberingsAgree(das: seq<DA>, fc: string)
    requires ProperNames(das)
    ensures (forall j: nat :: LeafNameAt(das, fc, j) == DANameAt(das, j))
       <==> (forall da :: da in das ==> (da.fc == fc <==> da.fc in MEASURED))
  {
    var a, b := Matching(das, {fc}), Matching(das, MEASURED);
    SelectionsAgree(das, {fc}, MEASURED);
    if forall j: nat :: LeafNameAt(das, fc, j) == DANameAt(das, j) {
      if |a| != |b| {
        SameNameSameAttribute(das, fc, if |a| < |b| then |a| else |b|);
      }
      forall j | 0 <= j < |a|
        ensures a[j] == b[j]
      {
        SameNameSameAttribute(das, fc, j);
      }
    }
  }
}
