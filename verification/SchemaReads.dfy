/** The two interpreters of a compiled schema: over decoded values, and directly over the library's values. */
module SchemaReads {
  import opened Mms
  import opened SchemaCompiler
  import opened Resolvers

  /** A Go map that callers share and that a read writes into. */
  class PathMap {
    var m: map<string, GoValue>
  }

  // ----- What one leaf yields

  /** `extractPrimitive`: nil for anything but a primitive. */
  function Primitive(noTs: bool, v: MmsValue): GoValue
    requires !v.Null?
  {
    match v
    case Boolean(b) => Bool(b)
    case Float(d) => Float64(d)
    case Integer(i) => Int64(i)
    case Unsigned(i) => Int64(i)
    case Text(s) => Str(GoString(s))
    case VisibleString(s) => Str(GoString(s))
    case BitString(u) => if noTs then Uint32(0) else Uint32(u)
    case UtcTime(u) => if noTs then Uint32(0) else Uint32(u)
    case _ => Nil
  }

  /** What `ApplySchema` writes for a leaf, if it writes. */
  function AppliedLeaf(values: seq<GoMmsValue>, leaf: SchemaLeaf): Option<GoValue> {
    if leaf.fcdaIdx >= |values| then None
    else
      var topVal := values[leaf.fcdaIdx].value;
      if leaf.daIdx < 0 then Some(topVal)
      else if !topVal.Typed? || leaf.daIdx >= |topVal.members| then None
      else
        var sub := topVal.members[leaf.daIdx].value;
        Some(if sub.Typed? && |sub.members| == 1 then sub.members[0].value else sub)
  }

  /** What `ReadDataSetFlat` writes for a leaf, if it writes. */
  function FlatLeaf(noTs: bool, topValues: MmsValue, leaf: SchemaLeaf): Option<GoValue> {
    var topVal := topValues.Element(leaf.fcdaIdx);
    if topVal.Null? then None
    else if leaf.daIdx < 0 then Some(Primitive(noTs, topVal))
    else
      var target := topVal.Element(leaf.daIdx);
      if target.Null? then None
      else if target.Structure? && !target.Element(0).Null? then Some(Primitive(noTs, target.Element(0)))
      else Some(Primitive(noTs, target))
  }

  /** What the direct reader makes of a value: nothing of a structure, an array or an octet string. */
  lemma PrimitiveAs(noTs: bool, v: MmsValue)
    requires !v.Null?
    ensures var g := Primitive(noTs, v);
      match v
      case Boolean(b) => g == Bool(b)
      case Float(d) => g == Float64(d)
      case Integer(i) => g == Int64(i)
      case Unsigned(i) => g == Int64(i)
      case Text(Some(t)) => g == Str(t)
      case VisibleString(Some(t)) => g == Str(t)
      case Text(None) => g == Str("")
      case VisibleString(None) => g == Str("")
      case BitString(u) => g == Uint32(if noTs then 0 else u)
      case UtcTime(u) => g == Uint32(if noTs then 0 else u)
      case _ => g == Nil
  {
  }

  /**
    When the slow reader writes, and what: the member's value; or the value of one of its members, unless that is a
    list of exactly one, which gives way to the value of the one.
   */
  lemma AppliedAs(values: seq<GoMmsValue>, leaf: SchemaLeaf)
    ensures var w := AppliedLeaf(values, leaf);
      && (w.Some? <==> leaf.fcdaIdx < |values|
                       && (leaf.daIdx < 0 || (values[leaf.fcdaIdx].value.Typed?
                                              && leaf.daIdx < |values[leaf.fcdaIdx].value.members|)))
      && (w.Some? && leaf.daIdx < 0 ==> w.value == values[leaf.fcdaIdx].value)
      && (w.Some? && leaf.daIdx >= 0 ==>
            var g := values[leaf.fcdaIdx].value.members[leaf.daIdx].value;
            && (forall m: GoMmsValue :: g == Typed([m]) ==> w.value == m.value)
            && ((forall m: GoMmsValue :: g != Typed([m])) ==> w.value == g))
  {
    var w := AppliedLeaf(values, leaf);
    if w.Some? && leaf.daIdx >= 0 {
      var g := values[leaf.fcdaIdx].value.members[leaf.daIdx].value;
      if g.Typed? && |g.members| == 1 {
        assert g == Typed([g.members[0]]);
      }
    }
  }

  /**
    When the fast reader writes, and what: the member, or one of its elements, or that element's first element if it
    is a structure whose first element is there, however many follow; of all these only a primitive's value.
   */
  lemma FlatAs(noTs: bool, elems: seq<MmsValue>, leaf: SchemaLeaf)
    ensures forall top :: top in {Structure(elems), Array(elems)} ==>
      var i, j, w := leaf.fcdaIdx, leaf.daIdx, FlatLeaf(noTs, top, leaf);
      && (w.Some? <==> i < |elems| && !elems[i].Null?
                       && (j < 0 || (elems[i].IsComplex() && j < |elems[i].elems| && !elems[i].elems[j].Null?)))
      && (w.Some? && j < 0 ==> w.value == Primitive(noTs, elems[i]))
      && (w.Some? && j >= 0 ==>
            var e := elems[i].elems[j];
            if e.Structure? && e.elems != [] && !e.elems[0].Null? then w.value == Primitive(noTs, e.elems[0])
            else w.value == Primitive(noTs, e))
  {
  }

  function AppliedLeaves(values: seq<GoMmsValue>, leaves: seq<SchemaLeaf>): seq<Option<GoValue>> {
    seq(|leaves|, i requires 0 <= i < |leaves| => AppliedLeaf(values, leaves[i]))
  }

  function FlatLeaves(noTs: bool, topValues: MmsValue, leaves: seq<SchemaLeaf>): seq<Option<GoValue>> {
    seq(|leaves|, i requires 0 <= i < |leaves| => FlatLeaf(noTs, topValues, leaves[i]))
  }

  // ----- Filling the map

  /** `out` after writing, leaf by leaf, the values there are. */
  function Filled(out: map<string, GoValue>, leaves: seq<SchemaLeaf>, vals: seq<Option<GoValue>>): map<string, GoValue>
    requires |leaves| == |vals|
  {
    if leaves == [] then out
    else
      var n := |leaves| - 1;
      var before := Filled(out, leaves[..n], vals[..n]);
      if vals[n].Some? then before[leaves[n].path := vals[n].value] else before
  }

  lemma FilledStep(out: map<string, GoValue>, leaves: seq<SchemaLeaf>, vals: seq<Option<GoValue>>, n: nat)
    requires |leaves| == |vals| && n < |leaves|
    ensures Filled(out, leaves[..n + 1], vals[..n + 1])
         == var before := Filled(out, leaves[..n], vals[..n]);
            if vals[n].Some? then before[leaves[n].path := vals[n].value] else before
  {
    assert leaves[..n + 1][..n] == leaves[..n] && vals[..n + 1][..n] == vals[..n];
  }

  method ApplySchema(schema: DataSetSchema, values: seq<GoMmsValue>, out: PathMap)
    modifies out
    ensures out.m == Filled(old(out.m), schema.leaves, AppliedLeaves(values, schema.leaves))
  {
    ghost var vals := AppliedLeaves(values, schema.leaves);
    for i := 0 to |schema.leaves|
      invariant out.m == Filled(old(out.m), schema.leaves[..i], vals[..i])
    {
      FilledStep(old(out.m), schema.leaves, vals, i);
      var leaf := schema.leaves[i];
      if leaf.fcdaIdx >= |values| {
        continue;
      }
      var topVal := values[leaf.fcdaIdx];
      if leaf.daIdx < 0 {
        out.m := out.m[leaf.path := topVal.value];
        continue;
      }
      if !topVal.value.Typed? || leaf.daIdx >= |topVal.value.members| {
        continue;
      }
      var sub := topVal.value.members[leaf.daIdx];
      if sub.value.Typed? && |sub.value.members| == 1 {
        out.m := out.m[leaf.path := sub.value.members[0].value];
      } else {
        out.m := out.m[leaf.path := sub.value];
      }
    }
    assert schema.leaves[..|schema.leaves|] == schema.leaves && vals[..|vals|] == vals;
  }

  /** `reply` is what the library reads: `None` when the request fails. */
  method ReadDataSetFlat(noTs: bool, reply: Option<MmsValue>, schema: DataSetSchema, out: PathMap) returns (ok: bool)
    modifies out
    ensures ok == reply.Some?
    ensures out.m == if ok
                     then Filled(old(out.m), schema.leaves, FlatLeaves(noTs, reply.value, schema.leaves))
                     else old(out.m)
  {
    if reply.None? {
      return false;
    }
    var topValues := reply.value;
    ghost var vals := FlatLeaves(noTs, topValues, schema.leaves);
    for i := 0 to |schema.leaves|
      invariant out.m == Filled(old(out.m), schema.leaves[..i], vals[..i])
    {
      FilledStep(old(out.m), schema.leaves, vals, i);
      var leaf := schema.leaves[i];
      var topVal := topValues.Element(leaf.fcdaIdx);
      if topVal.Null? {
        continue;
      }
      var target := topVal;
      if leaf.daIdx >= 0 {
        target := topVal.Element(leaf.daIdx);
        if target.Null? {
          continue;
        }
        if target.Type() == MMS_STRUCTURE {
          var inner := target.Element(0);
          if !inner.Null? {
            target := inner;
          }
        }
      }
      out.m := out.m[leaf.path := Primitive(noTs, target)];
    }
    assert schema.leaves[..|schema.leaves|] == schema.leaves && vals[..|vals|] == vals;
    return true;
  }

  // ----- What a filled map holds

  /** No later leaf with a value has this leaf's path. */
  ghost predicate WritesLast(leaves: seq<SchemaLeaf>, vals: seq<Option<GoValue>>, k: nat)
    requires |leaves| == |vals|
  {
    && k < |leaves| && vals[k].Some?
    && forall j :: k < j < |leaves| && vals[j].Some? ==> leaves[j].path != leaves[k].path
  }

  ghost predicate Writes(leaves: seq<SchemaLeaf>, vals: seq<Option<GoValue>>, path: string)
    requires |leaves| == |vals|
  {
    exists k :: 0 <= k < |leaves| && vals[k].Some? && leaves[k].path == path
  }

  /** The last value written under `path`, if any. */
  function LastWrite(leaves: seq<SchemaLeaf>, vals: seq<Option<GoValue>>, path: string): Option<GoValue>
    requires |leaves| == |vals|
  {
    if leaves == [] then None
    else
      var n := |leaves| - 1;
      if vals[n].Some? && leaves[n].path == path then vals[n] else LastWrite(leaves[..n], vals[..n], path)
  }

  lemma {:induction false} FilledAt(
    out: map<string, GoValue>, leaves: seq<SchemaLeaf>, vals: seq<Option<GoValue>>, path: string)
    requires |leaves| == |vals|
    ensures var w, m := LastWrite(leaves, vals, path), Filled(out, leaves, vals);
      && (path in m <==> path in out || w.Some?)
      && (w.Some? ==> m[path] == w.value)
      && (w.None? && path in out ==> m[path] == out[path])
  {
    if leaves == [] {
    } else {
      FilledAt(out, leaves[..|leaves| - 1], vals[..|leaves| - 1], path);
    }
  }

  lemma {:induction false} LastWriteIs(leaves: seq<SchemaLeaf>, vals: seq<Option<GoValue>>, k: nat)
    requires |leaves| == |vals| && WritesLast(leaves, vals, k)
    ensures LastWrite(leaves, vals, leaves[k].path) == vals[k]
    decreases |leaves|
  {
    var n := |leaves| - 1;
    if k < n {
      LastWriteIs(leaves[..n], vals[..n], k);
    }
  }

  lemma {:induction false} NoWrite(leaves: seq<SchemaLeaf>, vals: seq<Option<GoValue>>, path: string)
    requires |leaves| == |vals| && !Writes(leaves, vals, path)
    ensures LastWrite(leaves, vals, path) == None
  {
    if leaves == [] {
    } else {
      var n := |leaves| - 1;
      NoWrite(leaves[..n], vals[..n], path);
    }
  }

  lemma LastWriter(leaves: seq<SchemaLeaf>, vals: seq<Option<GoValue>>, path: string) returns (k: nat)
    requires |leaves| == |vals| && Writes(leaves, vals, path)
    ensures WritesLast(leaves, vals, k) && leaves[k].path == path
  {
    k :| k < |leaves| && vals[k].Some? && leaves[k].path == path;
    for j := k + 1 to |leaves|
      invariant k < j && k < |leaves| && vals[k].Some? && leaves[k].path == path
      invariant forall i :: k < i < j && vals[i].Some? ==> leaves[i].path != path
    {
      if vals[j].Some? && leaves[j].path == path {
        k := j;
      }
    }
  }

  /** A written path holds the value of its last leaf that has one; every other key is as before. */
  lemma FilledContent(out: map<string, GoValue>, leaves: seq<SchemaLeaf>, vals: seq<Option<GoValue>>, path: string)
    requires |leaves| == |vals|
    ensures Writes(leaves, vals, path) ==>
              exists k: nat :: WritesLast(leaves, vals, k) && leaves[k].path == path
                               && path in Filled(out, leaves, vals) && Filled(out, leaves, vals)[path] == vals[k].value
    ensures !Writes(leaves, vals, path) ==>
              (path in Filled(out, leaves, vals) <==> path in out)
              && (path in out ==> Filled(out, leaves, vals)[path] == out[path])
  {
    FilledAt(out, leaves, vals, path);
    if Writes(leaves, vals, path) {
      var k := LastWriter(leaves, vals, path);
      LastWriteIs(leaves, vals, k);
    } else {
      NoWrite(leaves, vals, path);
    }
  }

  /** Reading the same values into the same map again changes nothing. */
  lemma FilledTwice(out: map<string, GoValue>, leaves: seq<SchemaLeaf>, vals: seq<Option<GoValue>>)
    requires |leaves| == |vals|
    ensures Filled(Filled(out, leaves, vals), leaves, vals) == Filled(out, leaves, vals)
  {
    var once := Filled(out, leaves, vals);
    forall p
      ensures p in Filled(once, leaves, vals) <==> p in once
      ensures p in once ==> Filled(once, leaves, vals)[p] == once[p]
    {
      FilledAt(out, leaves, vals, p);
      FilledAt(once, leaves, vals, p);
    }
  }

  // ----- The fast read against the slow one

  /** The values `ReadDataSetValues` hands to `ApplySchema`. */
  ghost predicate Decodes(noTs: bool, topValues: MmsValue, values: seq<GoMmsValue>) {
    && |values| == topValues.Size()
    && forall i :: 0 <= i < |values| ==>
         && !topValues.Element(i).Null?
         && values[i] == GoMmsValue(topValues.Element(i).Type(), Resolved(noTs, topValues.Element(i)))
  }

  /** Equal; but where the client leaves out bit strings and time stamps, the zeros written for them differ in type. */
  predicate SameValue(noTs: bool, slow: GoValue, fast: GoValue) {
    slow == fast || (noTs && slow == Int(0) && fast == Uint32(0))
  }

  predicate SameWrite(noTs: bool, slow: Option<GoValue>, fast: Option<GoValue>) {
    (slow.None? && fast.None?) || (slow.Some? && fast.Some? && SameValue(noTs, slow.value, fast.value))
  }

  ghost predicate SameMap(noTs: bool, slow: map<string, GoValue>, fast: map<string, GoValue>) {
    slow.Keys == fast.Keys && forall p :: p in slow ==> SameValue(noTs, slow[p], fast[p])
  }

  predicate Unwraps(v: MmsValue) {
    !v.IsComplex() || (v.Structure? && |Visible(v.elems)| == 1 && !v.elems[0].IsComplex())
  }

  /**
    The members on which the two interpreters of a leaf agree. A leaf that is the member itself needs
    a primitive. A leaf inside the member needs an element that is missing or null; or that no null element
    precedes, in a structure, and that is a primitive or a structure with one element, a primitive.
   */
  predicate LeafAgrees(top: MmsValue, daIdx: int) {
    || top.Null?
    || (daIdx < 0 && !top.IsComplex())
    || (daIdx >= 0 && top.Element(daIdx).Null?)
    || (daIdx >= 0 && top.Structure? && daIdx < |Visible(top.elems)| && Unwraps(top.elems[daIdx]))
  }

  lemma PrimitivesAgree(noTs: bool, v: MmsValue)
    requires !v.Null?
    ensures SameValue(noTs, Resolved(noTs, v), Primitive(noTs, v)) <==> !v.IsComplex()
  {
  }

  /** What the slow and the fast interpreter make of one element of a structure. */
  lemma UnwrappingAgrees(noTs: bool, v: MmsValue)
    requires !v.Null?
    ensures var slow := Resolved(noTs, v);
            var fast := Primitive(noTs, if v.Structure? && !v.Element(0).Null? then v.Element(0) else v);
            SameValue(noTs, if slow.Typed? && |slow.members| == 1 then slow.members[0].value else slow, fast)
            <==> Unwraps(v)
  {
    PrimitivesAgree(noTs, v);
    if v.Structure? {
      ResolvedMemberAt(noTs, v.elems, 0);
      if !v.Element(0).Null? {
        PrimitivesAgree(noTs, v.elems[0]);
      }
    }
  }

  /** For one leaf the two interpreters write the same exactly on the members described above. */
  lemma LeafReads(noTs: bool, topValues: MmsValue, values: seq<GoMmsValue>, leaf: SchemaLeaf)
    requires Decodes(noTs, topValues, values)
    ensures SameWrite(noTs, AppliedLeaf(values, leaf), FlatLeaf(noTs, topValues, leaf))
       <==> LeafAgrees(topValues.Element(leaf.fcdaIdx), leaf.daIdx)
  {
    var top := topValues.Element(leaf.fcdaIdx);
    if leaf.fcdaIdx < |values| {
      PrimitivesAgree(noTs, top);
      if leaf.daIdx >= 0 && top.Structure? {
        var n := |Visible(top.elems)|;
        if leaf.daIdx < n {
          ResolvedMemberAt(noTs, top.elems, leaf.daIdx);
          assert Visible(top.elems)[leaf.daIdx] == top.elems[leaf.daIdx];
          UnwrappingAgrees(noTs, top.elems[leaf.daIdx]);
        }
      }
    }
  }

  lemma OneMember(noTs: bool, v: MmsValue)
    requires !v.Null?
    ensures ResolvedMembers(noTs, [v]) == [GoMmsValue(v.Type(), Resolved(noTs, v))]
  {
    assert [v][1..] == [];
  }

  lemma TwoMembers(noTs: bool, vs: seq<MmsValue>)
    requires |vs| == 2 && !vs[0].Null? && !vs[1].Null?
    ensures ResolvedMembers(noTs, vs)
         == [GoMmsValue(vs[0].Type(), Resolved(noTs, vs[0])), GoMmsValue(vs[1].Type(), Resolved(noTs, vs[1]))]
  {
    assert vs[1..] == [vs[1]];
    OneMember(noTs, vs[1]);
  }

  /** A member on which they differ: a structure of a structure of two numbers. */
  lemma LeafReadsDiffer(noTs: bool)
    ensures var top := Structure([Structure([Structure([Integer(1), Integer(2)])])]);
      var leaf := SchemaLeaf("path", 0, 0);
      var pair := [GoMmsValue(MMS_INTEGER, Int64(1)), GoMmsValue(MMS_INTEGER, Int64(2))];
      var values := [GoMmsValue(MMS_STRUCTURE, Typed([GoMmsValue(MMS_STRUCTURE, Typed(pair))]))];
      && Decodes(noTs, top, values)
      && AppliedLeaf(values, leaf) == Some(Typed(pair))
      && FlatLeaf(noTs, top, leaf) == Some(Int64(1))
      && !SameWrite(noTs, AppliedLeaf(values, leaf), FlatLeaf(noTs, top, leaf))
  {
    var pair := [Integer(1), Integer(2)];
    TwoMembers(noTs, pair);
    OneMember(noTs, Structure(pair));
    OneMember(noTs, Structure([Structure(pair)]));
  }

  predicate AllAgree(topValues: MmsValue, leaves: seq<SchemaLeaf>) {
    forall leaf :: leaf in leaves ==> LeafAgrees(topValues.Element(leaf.fcdaIdx), leaf.daIdx)
  }

  ghost predicate DistinctPaths(leaves: seq<SchemaLeaf>) {
    forall i, j :: 0 <= i < j < |leaves| ==> leaves[i].path != leaves[j].path
  }

  lemma {:induction false} SameWritesSameMap(
    noTs: bool, out: map<string, GoValue>, leaves: seq<SchemaLeaf>,
    slow: seq<Option<GoValue>>, fast: seq<Option<GoValue>>)
    requires |leaves| == |slow| == |fast|
    requires forall i :: 0 <= i < |leaves| ==> SameWrite(noTs, slow[i], fast[i])
    ensures SameMap(noTs, Filled(out, leaves, slow), Filled(out, leaves, fast))
  {
    if leaves == [] {
    } else {
      var n := |leaves| - 1;
      SameWritesSameMap(noTs, out, leaves[..n], slow[..n], fast[..n]);
      assert SameWrite(noTs, slow[n], fast[n]);
    }
  }

  /** The fast read refines the slow one on every map it may be given, if every leaf agrees. */
  lemma FastRefinesSlow(noTs: bool, topValues: MmsValue, values: seq<GoMmsValue>, leaves: seq<SchemaLeaf>,
                        out: map<string, GoValue>)
    requires Decodes(noTs, topValues, values) && AllAgree(topValues, leaves)
    ensures SameMap(noTs, Filled(out, leaves, AppliedLeaves(values, leaves)),
                          Filled(out, leaves, FlatLeaves(noTs, topValues, leaves)))
  {
    forall i | 0 <= i < |leaves|
      ensures SameWrite(noTs, AppliedLeaf(values, leaves[i]), FlatLeaf(noTs, topValues, leaves[i]))
    {
      LeafReads(noTs, topValues, values, leaves[i]);
    }
    SameWritesSameMap(noTs, out, leaves, AppliedLeaves(values, leaves), FlatLeaves(noTs, topValues, leaves));
  }

  lemma DistinctPathsShow(leaves: seq<SchemaLeaf>, vals: seq<Option<GoValue>>, i: nat)
    requires |leaves| == |vals| && DistinctPaths(leaves) && i < |leaves|
    ensures leaves[i].path in Filled(map[], leaves, vals) <==> vals[i].Some?
    ensures vals[i].Some? ==> Filled(map[], leaves, vals)[leaves[i].path] == vals[i].value
  {
    FilledAt(map[], leaves, vals, leaves[i].path);
    if vals[i].Some? {
      LastWriteIs(leaves, vals, i);
    } else {
      NoWrite(leaves, vals, leaves[i].path);
    }
  }

  /** And, when no two leaves share a path, only then: an empty map already tells the two reads apart. */
  lemma RefinementIsExact(noTs: bool, topValues: MmsValue, values: seq<GoMmsValue>, leaves: seq<SchemaLeaf>)
    requires Decodes(noTs, topValues, values) && DistinctPaths(leaves)
    ensures SameMap(noTs, Filled(map[], leaves, AppliedLeaves(values, leaves)),
                          Filled(map[], leaves, FlatLeaves(noTs, topValues, leaves)))
       <==> AllAgree(topValues, leaves)
  {
    var slow, fast := AppliedLeaves(values, leaves), FlatLeaves(noTs, topValues, leaves);
    if AllAgree(topValues, leaves) {
      FastRefinesSlow(noTs, topValues, values, leaves, map[]);
    } else {
      var i :| 0 <= i < |leaves| && !LeafAgrees(topValues.Element(leaves[i].fcdaIdx), leaves[i].daIdx);
      LeafReads(noTs, topValues, values, leaves[i]);
      DistinctPathsShow(leaves, slow, i);
      DistinctPathsShow(leaves, fast, i);
    }
  }
}
