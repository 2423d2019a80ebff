/** From a data set's SCL description to named values: compiling and reading put together. */
module CompiledReads {
  import opened Mms
  import opened SclTypes
  import opened SchemaCompiler
  import opened Resolvers
  import opened SchemaReads

  // ----- When the compiled paths are distinct

  /** What stands before the data object's name in a path. */
  function NodePath(iedName: string, f: FCDAEntry): string {
    iedName + f.ldInst + "/" + f.prefix + f.lnClass + f.lnInst
  }

  /** Dots occur in a path only between node, data object and attribute. */
  predicate DotFree(iedName: string, f: FCDAEntry) {
    '.' !in NodePath(iedName, f) && '.' !in f.doName
  }

  /** The name a leaf adds to its entry's base path. */
  ghost function LeafName(iedName: string, fcdas: seq<FCDAEntry>, tm: Templates, leaf: SchemaLeaf): string
    requires Locates(iedName, fcdas, tm, leaf)
  {
    var f := fcdas[leaf.fcdaIdx];
    if f.daName != "" then f.daName else Matching(DAsOf(tm, f), {f.fc})[leaf.daIdx].name
  }

  /** No two leaves are for the same attribute of the same data object. */
  ghost predicate NamesApart(iedName: string, fcdas: seq<FCDAEntry>, tm: Templates) {
    forall a, b ::
      Locates(iedName, fcdas, tm, a) && Locates(iedName, fcdas, tm, b)
      && BasePath(iedName, fcdas[a.fcdaIdx]) == BasePath(iedName, fcdas[b.fcdaIdx])
      && LeafName(iedName, fcdas, tm, a) == LeafName(iedName, fcdas, tm, b)
      ==> a == b
  }

  lemma DotPlace(a: string, x: string, b: string, y: string)
    requires a + "." + x == b + "." + y
    ensures '.' in b || |b| <= |a|
  {
    assert (a + "." + x)[|a|] == '.';
    if |a| < |b| {
      assert (b + "." + y)[|a|] == b[|a|];
    }
  }

  /** A dot-free front ends at the first dot, so what follows is determined too. */
  lemma FirstDot(a: string, x: string, b: string, y: string)
    requires '.' !in a && '.' !in b && a + "." + x == b + "." + y
    ensures a == b && x == y
  {
    DotPlace(a, x, b, y);
    DotPlace(b, y, a, x);
    assert a == (a + "." + x)[..|a|] && b == (b + "." + y)[..|b|];
    assert x == (a + "." + x)[|a| + 1..] && y == (b + "." + y)[|b| + 1..];
  }

  lemma PathParts(iedName: string, f: FCDAEntry, x: string, g: FCDAEntry, y: string)
    requires DotFree(iedName, f) && DotFree(iedName, g)
    ensures BasePath(iedName, f) + "." + x == BasePath(iedName, g) + "." + y
       <==> BasePath(iedName, f) == BasePath(iedName, g) && x == y
  {
    var p, q := NodePath(iedName, f), NodePath(iedName, g);
    if BasePath(iedName, f) + "." + x == BasePath(iedName, g) + "." + y {
      assert BasePath(iedName, f) + "." + x == p + "." + (f.doName + "." + x);
      assert BasePath(iedName, g) + "." + y == q + "." + (g.doName + "." + y);
      FirstDot(p, f.doName + "." + x, q, g.doName + "." + y);
      FirstDot(f.doName, x, g.doName, y);
    }
  }

  lemma LocatedPath(iedName: string, fcdas: seq<FCDAEntry>, tm: Templates, leaf: SchemaLeaf)
    requires Locates(iedName, fcdas, tm, leaf)
    ensures leaf.path == BasePath(iedName, fcdas[leaf.fcdaIdx]) + "." + LeafName(iedName, fcdas, tm, leaf)
  {
  }

  /** If dots only separate, the compiled paths are distinct exactly if no attribute is compiled twice. */
  lemma PathsAreDistinct(iedName: string, fcdas: seq<FCDAEntry>, tm: Templates)
    requires forall i :: 0 <= i < |fcdas| ==> DotFree(iedName, fcdas[i])
    ensures DistinctPaths(PlainLeaves(iedName, fcdas, tm)) <==> NamesApart(iedName, fcdas, tm)
  {
    var leaves := PlainLeaves(iedName, fcdas, tm);
    LeavesAreSorted(iedName, fcdas, tm);
    forall leaf
      ensures leaf in leaves <==> Locates(iedName, fcdas, tm, leaf)
    {
      LeavesAreTheLocations(iedName, fcdas, tm, leaf);
    }
    forall a, b | Locates(iedName, fcdas, tm, a) && Locates(iedName, fcdas, tm, b)
      ensures a.path == b.path
         <==> BasePath(iedName, fcdas[a.fcdaIdx]) == BasePath(iedName, fcdas[b.fcdaIdx])
              && LeafName(iedName, fcdas, tm, a) == LeafName(iedName, fcdas, tm, b)
    {
      LocatedPath(iedName, fcdas, tm, a);
      LocatedPath(iedName, fcdas, tm, b);
      PathParts(iedName, fcdas[a.fcdaIdx], LeafName(iedName, fcdas, tm, a),
                fcdas[b.fcdaIdx], LeafName(iedName, fcdas, tm, b));
    }
    if NamesApart(iedName, fcdas, tm) {
      forall i, j | 0 <= i < j < |leaves|
        ensures leaves[i].path != leaves[j].path
      {
        assert leaves[i] in leaves && leaves[j] in leaves && Before(leaves[i], leaves[j]);
      }
    }
    if DistinctPaths(leaves) {
      forall a, b | a in leaves && b in leaves && a.path == b.path
        ensures a == b
      {
        var i :| 0 <= i < |leaves| && leaves[i] == a;
        var j :| 0 <= j < |leaves| && leaves[j] == b;
      }
    }
  }

  lemma PartsJoined(a: string, x: string, b: string, c: string)
    ensures a + x + b + c == a + x + (b + c)
  {
  }

  lemma NodeJoined(p: string, l: string, x: string, c: string, i: string)
    ensures p + l + "/" + x + c + i == p + l + ("/" + x + c + i)
  {
  }

  lemma Cancel(a: string, x: string, y: string, b: string)
    requires a + x + b == a + y + b
    ensures x == y
  {
    assert |x| == |y|;
    assert x == (a + x + b)[|a|..|a| + |x|] && y == (a + y + b)[|a|..|a| + |y|];
  }

  lemma TwoDots(p: string, d: string, x: string, q: string, e: string, y: string)
    requires '.' !in p && '.' !in d && '.' !in q && '.' !in e && p + "." + d + "." + x == q + "." + e + "." + y
    ensures p == q && d == e && x == y
  {
    assert p + "." + d + "." + x == p + "." + (d + "." + x) && q + "." + e + "." + y == q + "." + (e + "." + y);
    FirstDot(p, d + "." + x, q, e + "." + y);
    FirstDot(d, x, e, y);
  }

  /** Equal paths of two leaves come from one node reference, one data object and one name. */
  lemma SamePath(iedName: string, fcdas: seq<FCDAEntry>, tm: Templates, a: SchemaLeaf, b: SchemaLeaf)
    returns (x: string, y: string)
    requires a in PlainLeaves(iedName, fcdas, tm) && b in PlainLeaves(iedName, fcdas, tm) && a.path == b.path
    ensures a.fcdaIdx < |fcdas| && b.fcdaIdx < |fcdas|
    ensures var f, g := fcdas[a.fcdaIdx], fcdas[b.fcdaIdx];
      DotFree(iedName, f) && DotFree(iedName, g) ==>
        && iedName + f.ldInst + "/" + f.prefix + f.lnClass + f.lnInst
           == iedName + g.ldInst + "/" + g.prefix + g.lnClass + g.lnInst
        && f.doName == g.doName && x == y
  {
    var ps, qs;
    x, ps := LeafPath(iedName, fcdas, tm, a);
    y, qs := LeafPath(iedName, fcdas, tm, b);
    var f, g := fcdas[a.fcdaIdx], fcdas[b.fcdaIdx];
    if DotFree(iedName, f) && DotFree(iedName, g) {
      TwoDots(NodePath(iedName, f), f.doName, x, NodePath(iedName, g), g.doName, y);
    }
  }

  lemma PartIsTold(p: string, f: FCDAEntry, g: FCDAEntry)
    requires p + f.ldInst + "/" + f.prefix + f.lnClass + f.lnInst
          == p + g.ldInst + "/" + g.prefix + g.lnClass + g.lnInst
    ensures g == f.(lnInst := g.lnInst) ==> f.lnInst == g.lnInst
    ensures g == f.(lnClass := g.lnClass) ==> f.lnClass == g.lnClass
  {
    if g == f.(lnInst := g.lnInst) {
      Cancel(p + f.ldInst + "/" + f.prefix + f.lnClass, f.lnInst, g.lnInst, "");
    } else if g == f.(lnClass := g.lnClass) {
      Cancel(p + f.ldInst + "/" + f.prefix, f.lnClass, g.lnClass, f.lnInst);
    }
  }

  lemma FrontPartIsTold(p: string, f: FCDAEntry, g: FCDAEntry)
    requires p + f.ldInst + "/" + f.prefix + f.lnClass + f.lnInst
          == p + g.ldInst + "/" + g.prefix + g.lnClass + g.lnInst
    ensures g == f.(prefix := g.prefix) ==> f.prefix == g.prefix
    ensures g == f.(ldInst := g.ldInst) ==> f.ldInst == g.ldInst
  {
    if g == f.(prefix := g.prefix) {
      PartsJoined(p + f.ldInst + "/", f.prefix, f.lnClass, f.lnInst);
      PartsJoined(p + f.ldInst + "/", g.prefix, f.lnClass, f.lnInst);
      Cancel(p + f.ldInst + "/", f.prefix, g.prefix, f.lnClass + f.lnInst);
    } else if g == f.(ldInst := g.ldInst) {
      NodeJoined(p, f.ldInst, f.prefix, f.lnClass, f.lnInst);
      NodeJoined(p, g.ldInst, f.prefix, f.lnClass, f.lnInst);
      Cancel(p, f.ldInst, g.ldInst, "/" + f.prefix + f.lnClass + f.lnInst);
    }
  }

  /** Entries that differ in one part of their reference only, such as the node's instance, have no path in common. */
  lemma OnePartApart(iedName: string, fcdas: seq<FCDAEntry>, tm: Templates, a: SchemaLeaf, b: SchemaLeaf)
    requires a in PlainLeaves(iedName, fcdas, tm) && b in PlainLeaves(iedName, fcdas, tm) && a.path == b.path
    ensures a.fcdaIdx < |fcdas| && b.fcdaIdx < |fcdas|
    ensures var f, g := fcdas[a.fcdaIdx], fcdas[b.fcdaIdx];
      DotFree(iedName, f) && DotFree(iedName, g) ==>
        && (g == f.(lnInst := g.lnInst) ==> f == g)
        && (g == f.(lnClass := g.lnClass) ==> f == g)
        && (g == f.(prefix := g.prefix) ==> f == g)
        && (g == f.(ldInst := g.ldInst) ==> f == g)
        && (g == f.(doName := g.doName) ==> f == g)
  {
    var x, y := SamePath(iedName, fcdas, tm, a, b);
    var f, g := fcdas[a.fcdaIdx], fcdas[b.fcdaIdx];
    if DotFree(iedName, f) && DotFree(iedName, g) {
      PartIsTold(iedName, f, g);
      FrontPartIsTold(iedName, f, g);
    }
  }

  // ----- What the map holds after compiling, reading and applying

  /** The value a leaf stands for: one level of a one-element structure is unwrapped. */
  function Unwrapped(g: GoValue): GoValue {
    if g.Typed? && |g.members| == 1 then g.members[0].value else g
  }

  lemma LeafShows(values: seq<GoMmsValue>, leaves: seq<SchemaLeaf>, out: map<string, GoValue>, leaf: SchemaLeaf)
    requires DistinctPaths(leaves) && leaf in leaves && AppliedLeaf(values, leaf).Some?
    ensures leaf.path in Filled(out, leaves, AppliedLeaves(values, leaves))
    ensures Filled(out, leaves, AppliedLeaves(values, leaves))[leaf.path] == AppliedLeaf(values, leaf).value
  {
    var vals := AppliedLeaves(values, leaves);
    var i :| 0 <= i < |leaves| && leaves[i] == leaf;
    assert WritesLast(leaves, vals, i);
    FilledAt(out, leaves, vals, leaf.path);
    LastWriteIs(leaves, vals, i);
  }

  lemma ElementApplied(noTs: bool, top: MmsValue, values: seq<GoMmsValue>, path: string, i: nat, j: nat)
    requires Decodes(noTs, top, values) && i < |values|
    requires top.Element(i).Structure? && j < |Visible(top.Element(i).elems)|
    ensures !top.Element(i).elems[j].Null?
    ensures AppliedLeaf(values, SchemaLeaf(path, i, j)) == Some(Unwrapped(Resolved(noTs, top.Element(i).elems[j])))
  {
    ResolvedMemberAt(noTs, top.Element(i).elems, j);
  }

  /** Entry `i` is a data object with an attribute number `j`, and member `i` has an element `j` for it. */
  predicate HasElement(top: MmsValue, fcdas: seq<FCDAEntry>, tm: Templates, i: nat, j: nat) {
    && i < |fcdas| && i < top.Size()
    && fcdas[i].daName == "" && j < |Matching(DAsOf(tm, fcdas[i]), {fcdas[i].fc})|
    && top.Element(i).Structure? && j < |Visible(top.Element(i).elems)|
  }

  /** The path of attribute `j` of entry `i` holds that element. */
  ghost predicate ShowsElement(noTs: bool, top: MmsValue, iedName: string, fcdas: seq<FCDAEntry>, tm: Templates,
                               m: map<string, GoValue>, i: nat, j: nat)
    requires HasElement(top, fcdas, tm, i, j)
  {
    var path := BasePath(iedName, fcdas[i]) + "." + Matching(DAsOf(tm, fcdas[i]), {fcdas[i].fc})[j].name;
    var e := top.Element(i).elems[j];
    !e.Null? && path in m && m[path] == Unwrapped(Resolved(noTs, e))
  }

  /** Entry `i` names an attribute itself. */
  predicate HasMember(top: MmsValue, fcdas: seq<FCDAEntry>, i: nat) {
    i < |fcdas| && i < top.Size() && fcdas[i].daName != "" && !top.Element(i).Null?
  }

  /** Its path holds member `i`. */
  ghost predicate ShowsMember(noTs: bool, top: MmsValue, iedName: string, fcdas: seq<FCDAEntry>,
                              m: map<string, GoValue>, i: nat)
    requires HasMember(top, fcdas, i)
  {
    var path := BasePath(iedName, fcdas[i]) + "." + fcdas[i].daName;
    path in m && m[path] == Resolved(noTs, top.Element(i))
  }

  lemma ElementIsShown(noTs: bool, top: MmsValue, values: seq<GoMmsValue>, iedName: string,
                       fcdas: seq<FCDAEntry>, tm: Templates, out: map<string, GoValue>, i: nat, j: nat)
    requires Decodes(noTs, top, values) && DistinctPaths(PlainLeaves(iedName, fcdas, tm))
    requires HasElement(top, fcdas, tm, i, j)
    ensures var leaves := PlainLeaves(iedName, fcdas, tm);
      ShowsElement(noTs, top, iedName, fcdas, tm, Filled(out, leaves, AppliedLeaves(values, leaves)), i, j)
  {
    var leaves := PlainLeaves(iedName, fcdas, tm);
    var name := Matching(DAsOf(tm, fcdas[i]), {fcdas[i].fc})[j].name;
    var leaf := SchemaLeaf(BasePath(iedName, fcdas[i]) + "." + name, i, j);
    LeavesAreTheLocations(iedName, fcdas, tm, leaf);
    ElementApplied(noTs, top, values, leaf.path, i, j);
    LeafShows(values, leaves, out, leaf);
  }

  lemma MemberIsShown(noTs: bool, top: MmsValue, values: seq<GoMmsValue>, iedName: string,
                      fcdas: seq<FCDAEntry>, tm: Templates, out: map<string, GoValue>, i: nat)
    requires Decodes(noTs, top, values) && DistinctPaths(PlainLeaves(iedName, fcdas, tm))
    requires HasMember(top, fcdas, i)
    ensures var leaves := PlainLeaves(iedName, fcdas, tm);
      ShowsMember(noTs, top, iedName, fcdas, Filled(out, leaves, AppliedLeaves(values, leaves)), i)
  {
    var leaves := PlainLeaves(iedName, fcdas, tm);
    var leaf := SchemaLeaf(BasePath(iedName, fcdas[i]) + "." + fcdas[i].daName, i, -1);
    LeavesAreTheLocations(iedName, fcdas, tm, leaf);
    LeafShows(values, leaves, out, leaf);
  }

  // ----- Through the cache

  /** The keys tell the looked-up types apart, and the cache says nothing wrong about any of them. */
  ghost predicate Sound(fcdas: seq<FCDAEntry>, tm: Templates, cache: Cache) {
    KeysTellApart(DOQueries(fcdas)) && Truthful(cache, tm, DOQueries(fcdas))
  }

  /** A detail just loaded is sound if its entries are well-formed. */
  lemma WellFormedIsSound(fcdas: seq<FCDAEntry>, tm: Templates)
    requires forall f :: f in fcdas && f.daName == "" ==> WellFormed(QueryOf(f))
    ensures Sound(fcdas, tm, map[])
  {
    WellFormedKeys(fcdas);
  }

  /**
    For a data set whose member `i` is a data object: what was compiled through a sound cache puts element `j` of
    member `i` under the path of the `j`-th attribute with the entry's constraint, whatever the map held before.
   */
  lemma AttributeIsElement(noTs: bool, top: MmsValue, values: seq<GoMmsValue>, iedName: string, fcdas: seq<FCDAEntry>,
                           tm: Templates, cache: Cache, out: map<string, GoValue>, i: nat, j: nat)
    requires Decodes(noTs, top, values) && Sound(fcdas, tm, cache)
    requires DistinctPaths(Compiled(iedName, fcdas, tm, cache).0) && HasElement(top, fcdas, tm, i, j)
    ensures var leaves := Compiled(iedName, fcdas, tm, cache).0;
      ShowsElement(noTs, top, iedName, fcdas, tm, Filled(out, leaves, AppliedLeaves(values, leaves)), i, j)
  {
    CompilationIgnoresCache(iedName, fcdas, tm, cache, DOQueries(fcdas));
    ElementIsShown(noTs, top, values, iedName, fcdas, tm, out, i, j);
  }

  /** And where the entry names an attribute itself, its path ends up with member `i`. */
  lemma AttributeIsMember(noTs: bool, top: MmsValue, values: seq<GoMmsValue>, iedName: string, fcdas: seq<FCDAEntry>,
                          tm: Templates, cache: Cache, out: map<string, GoValue>, i: nat)
    requires Decodes(noTs, top, values) && Sound(fcdas, tm, cache)
    requires DistinctPaths(Compiled(iedName, fcdas, tm, cache).0) && HasMember(top, fcdas, i)
    ensures var leaves := Compiled(iedName, fcdas, tm, cache).0;
      ShowsMember(noTs, top, iedName, fcdas, Filled(out, leaves, AppliedLeaves(values, leaves)), i)
  {
    CompilationIgnoresCache(iedName, fcdas, tm, cache, DOQueries(fcdas));
    MemberIsShown(noTs, top, values, iedName, fcdas, tm, out, i);
  }

  /** Every attribute that has an element, and every entry that names an attribute, is shown in the map. */
  ghost predicate ShowsAll(noTs: bool, top: MmsValue, iedName: string, fcdas: seq<FCDAEntry>, tm: Templates,
                           m: map<string, GoValue>)
  {
    && (forall i, j :: HasElement(top, fcdas, tm, i, j) ==> ShowsElement(noTs, top, iedName, fcdas, tm, m, i, j))
    && (forall i :: HasMember(top, fcdas, i) ==> ShowsMember(noTs, top, iedName, fcdas, m, i))
  }

  lemma SoundlyCompiledShowsAll(noTs: bool, top: MmsValue, values: seq<GoMmsValue>, iedName: string,
                                fcdas: seq<FCDAEntry>, tm: Templates, cache: Cache, out: map<string, GoValue>)
    requires Decodes(noTs, top, values) && Sound(fcdas, tm, cache)
    requires DistinctPaths(Compiled(iedName, fcdas, tm, cache).0)
    ensures var leaves := Compiled(iedName, fcdas, tm, cache).0;
      ShowsAll(noTs, top, iedName, fcdas, tm, Filled(out, leaves, AppliedLeaves(values, leaves)))
  {
    var leaves := Compiled(iedName, fcdas, tm, cache).0;
    var m := Filled(out, leaves, AppliedLeaves(values, leaves));
    forall i, j | HasElement(top, fcdas, tm, i, j)
      ensures ShowsElement(noTs, top, iedName, fcdas, tm, m, i, j)
    {
      AttributeIsElement(noTs, top, values, iedName, fcdas, tm, cache, out, i, j);
    }
    forall i | HasMember(top, fcdas, i)
      ensures ShowsMember(noTs, top, iedName, fcdas, m, i)
    {
      AttributeIsMember(noTs, top, values, iedName, fcdas, tm, cache, out, i);
    }
  }

  /** The three calls in a row; a sound cache stays sound, so they may be made any number of times. */
  method CompileReadApply(detail: DataSetDetail, noTs: bool, reply: Option<MmsValue>, size: nat, out: PathMap)
    returns (ok: bool)
    requires reply.Some? ==> size == reply.value.Size() && forall i :: 0 <= i < size ==> !reply.value.Element(i).Null?
    modifies detail`doTypes, out
    ensures ok <==> reply.Some?
    ensures !ok ==> out.m == old(out.m)
    ensures ok ==>
              exists values ::
                var leaves := Compiled(detail.iedName, detail.fcdas, detail.templates, old(detail.doTypes)).0;
                && Decodes(noTs, reply.value, values)
                && out.m == Filled(old(out.m), leaves, AppliedLeaves(values, leaves))
    ensures Sound(detail.fcdas, detail.templates, old(detail.doTypes)) ==>
              && Sound(detail.fcdas, detail.templates, detail.doTypes)
              && (ok && DistinctPaths(PlainLeaves(detail.iedName, detail.fcdas, detail.templates)) ==>
                    ShowsAll(noTs, reply.value, detail.iedName, detail.fcdas, detail.templates, out.m))
  {
    ghost var cache := detail.doTypes;
    var schema := BuildDataSetSchema(detail);
    if Sound(detail.fcdas, detail.templates, cache) {
      CompilationIgnoresCache(detail.iedName, detail.fcdas, detail.templates, cache, DOQueries(detail.fcdas));
    }
    var values := ReadDataSetValues(noTs, reply, size);
    if values.None? {
      return false;
    }
    ghost var before := out.m;
    ApplySchema(schema, values.value, out);
    assert Decodes(noTs, reply.value, values.value);
    if Sound(detail.fcdas, detail.templates, cache) && DistinctPaths(schema.leaves) {
      SoundlyCompiledShowsAll(noTs, reply.value, values.value, detail.iedName, detail.fcdas, detail.templates,
                              cache, before);
    }
    return true;
  }
}
