/** The two decoders of values that are read rather than reported, and how they relate to the report decoder. */
module Resolvers {
  import opened Mms
  import FlatCodec

  // ----- What both decoders compute

  /** The Go value of a non-null value on the read path; `noTs` is the client's `withoutTimestamps`. */
  function Resolved(noTs: bool, v: MmsValue): GoValue
    requires !v.Null?
  {
    match v
    case Boolean(b) => Bool(b)
    case Float(d) => Float64(d)
    case Integer(i) => Int64(i)
    case Unsigned(i) => Int64(i)
    case Text(s) => Str(GoString(s))
    case VisibleString(s) => Str(GoString(s))
    case OctetString(_) => Nil
    case BitString(u) => if noTs then Int(0) else Uint32(u)
    case UtcTime(u) => if noTs then Int(0) else Uint32(u)
    case Other(_) => Nil
    case Structure(es) => Typed(ResolvedMembers(noTs, es))
    case Array(_) => Typed([])
  }

  /** The elements up to the first null one, each with its type. */
  function ResolvedMembers(noTs: bool, es: seq<MmsValue>): (r: seq<GoMmsValue>)
    ensures |r| == |Visible(es)|
  {
    if es == [] || es[0].Null? then []
    else [GoMmsValue(es[0].Type(), Resolved(noTs, es[0]))] + ResolvedMembers(noTs, es[1..])
  }

  lemma {:induction false} ResolvedMemberAt(noTs: bool, es: seq<MmsValue>, i: nat)
    requires i <= |Visible(es)|
    ensures i == |Visible(es)| <==> i == |es| || es[i].Null?
    ensures i < |Visible(es)| ==>
              ResolvedMembers(noTs, es)[i] == GoMmsValue(es[i].Type(), Resolved(noTs, es[i]))
  {
    if i == 0 {
    } else {
      ResolvedMemberAt(noTs, es[1..], i - 1);
    }
  }

  /**
    What a read yields for each kind of value: scalars their content, NULL strings the empty string, a structure its
    elements up to the first null one with their types, and an array nothing.
   */
  lemma ReadAs(noTs: bool, v: MmsValue)
    requires !v.Null?
    ensures var g := Resolved(noTs, v);
      match v
      case Boolean(b) => g == Bool(b)
      case Float(d) => g == Float64(d)
      case Integer(i) => g == Int64(i)
      case Unsigned(i) => g == Int64(i)
      case Text(Some(t)) => g == Str(t)
      case VisibleString(Some(t)) => g == Str(t)
      case Text(None) => g == Str("")
      case VisibleString(None) => g == Str("")
      case BitString(u) => g == if noTs then Int(0) else Uint32(u)
      case UtcTime(u) => g == if noTs then Int(0) else Uint32(u)
      case OctetString(_) => g == Nil
      case Other(_) => g == Nil
      case Array(_) => g == Typed([])
      case Structure(es) =>
        && g.Typed? && |g.members| <= |es| && (|g.members| < |es| ==> es[|g.members|].Null?)
        && forall i :: 0 <= i < |g.members| ==>
             !es[i].Null? && g.members[i] == GoMmsValue(es[i].Type(), Resolved(noTs, es[i]))
  {
    if v.Structure? {
      var n := |Visible(v.elems)|;
      ResolvedMemberAt(noTs, v.elems, n);
      forall i | 0 <= i < n
        ensures !v.elems[i].Null? && ResolvedMembers(noTs, v.elems)[i]
                == GoMmsValue(v.elems[i].Type(), Resolved(noTs, v.elems[i]))
      {
        ResolvedMemberAt(noTs, v.elems, i);
      }
    }
  }

  // ----- The plain decoder

  method ResolveValue(noTs: bool, value: MmsValue) returns (r: GoValue)
    requires !value.Null?
    ensures r == Resolved(noTs, value)
    decreases value, 1
  {
    r := Nil;
    match value {
      case Boolean(b) => r := Bool(b);
      case Float(d) => r := Float64(d);
      case Integer(i) => r := Int64(i);
      case Unsigned(i) => r := Int64(i);
      case Text(s) => r := Str(GoString(s));
      case VisibleString(s) => r := Str(GoString(s));
      case Structure(_) =>
        var members := DigIntoStructure(noTs, value);
        r := Typed(members);
      case Array(_) =>
        var members := DigIntoStructure(noTs, value);
        r := Typed(members);
      case BitString(u) =>
        if noTs {
          return Int(0);
        }
        r := Uint32(u);
      case UtcTime(u) =>
        if noTs {
          return Int(0);
        }
        r := Uint32(u);
      case OctetString(_) =>
      case Other(_) =>
    }
  }

  /** Called with arrays too, for which it returns a nil slice. */
  method DigIntoStructure(noTs: bool, mms: MmsValue) returns (values: seq<GoMmsValue>)
    requires mms.IsComplex()
    ensures values == if mms.Structure? then ResolvedMembers(noTs, mms.elems) else []
    decreases mms, 0
  {
    if mms.Type() != MMS_STRUCTURE {
      return [];
    }
    values := [];
    var index := 0;
    ghost var all := ResolvedMembers(noTs, mms.elems);
    while true
      invariant index == |values| <= |all| && values == all[..index]
      decreases |all| - index
    {
      var value := mms.Element(index);
      ResolvedMemberAt(noTs, mms.elems, index);
      if value.Null? {
        return;
      }
      var v := ResolveValue(noTs, value);
      values := values + [GoMmsValue(value.Type(), v)];
      assert all[..index + 1] == all[..index] + [all[index]];
      index := index + 1;
    }
  }

  // ----- The optimised decoder, which writes into a slot its caller provides

  /** Sets the slot's value and keeps its type. */
  method ResolveValueInline(noTs: bool, target: GoMmsValue, value: MmsValue) returns (slot: GoMmsValue)
    requires !value.Null?
    ensures slot == target.(value := Resolved(noTs, value))
    decreases value, 1
  {
    slot := target;
    match value {
      case Boolean(b) => slot := slot.(value := Bool(b));
      case Float(d) => slot := slot.(value := Float64(d));
      case Integer(i) => slot := slot.(value := Int64(i));
      case Unsigned(i) => slot := slot.(value := Int64(i));
      case Text(s) => slot := slot.(value := if s.Some? then Str(s.value) else Str(""));
      case VisibleString(s) => slot := slot.(value := if s.Some? then Str(s.value) else Str(""));
      case Structure(_) =>
        var members := DigIntoStructureOptimized(noTs, value);
        slot := slot.(value := Typed(members));
      case Array(_) =>
        var members := DigIntoStructureOptimized(noTs, value);
        slot := slot.(value := Typed(members));
      case BitString(u) =>
        if noTs {
          return slot.(value := Int(0));
        }
        slot := slot.(value := Uint32(u));
      case UtcTime(u) =>
        if noTs {
          return slot.(value := Int(0));
        }
        slot := slot.(value := Uint32(u));
      case OctetString(_) => slot := slot.(value := Nil);
      case Other(_) => slot := slot.(value := Nil);
    }
  }

  method DigIntoStructureOptimized(noTs: bool, mms: MmsValue) returns (values: seq<GoMmsValue>)
    requires mms.IsComplex()
    ensures values == if mms.Structure? then ResolvedMembers(noTs, mms.elems) else []
    decreases mms, 0
  {
    if mms.Type() != MMS_STRUCTURE {
      return [];
    }
    values := [];
    var index := 0;
    ghost var all := ResolvedMembers(noTs, mms.elems);
    while true
      invariant index == |values| <= |all| && values == all[..index]
      decreases |all| - index
    {
      var value := mms.Element(index);
      ResolvedMemberAt(noTs, mms.elems, index);
      if value.Null? {
        return;
      }
      values := values + [GoMmsValue(value.Type(), Nil)];
      assert index == |values| - 1;  // the slot written is always the last one appended
      var slot := ResolveValueInline(noTs, values[index], value);
      values := values[index := slot];
      assert all[..index + 1] == all[..index] + [all[index]];
      index := index + 1;
    }
  }

  /**
    The values of a data set, decoded slot by slot; `reply` is `None` when the request fails. The library gives
    the number of members separately; the code dereferences each of them, so none may be null.
   */
  method ReadDataSetValues(noTs: bool, reply: Option<MmsValue>, size: nat) returns (r: Option<seq<GoMmsValue>>)
    requires reply.Some? ==> forall i :: 0 <= i < size ==> !reply.value.Element(i).Null?
    ensures r.Some? <==> reply.Some?
    ensures r.Some? ==> |r.value| == size
    ensures r.Some? ==> forall i :: 0 <= i < size ==>
              r.value[i] == GoMmsValue(reply.value.Element(i).Type(), Resolved(noTs, reply.value.Element(i)))
  {
    if reply.None? {
      return None;
    }
    var values := reply.value;
    var goValues := seq(size, _ => GoMmsValue(0, Nil));
    for i := 0 to size
      invariant |goValues| == size
      invariant forall k :: 0 <= k < i ==>
                  goValues[k] == GoMmsValue(values.Element(k).Type(), Resolved(noTs, values.Element(k)))
    {
      var value := values.Element(i);
      var target := goValues[i].(typ := value.Type());
      var slot := ResolveValueInline(noTs, target, value);
      goValues := goValues[i := slot];
    }
    return Some(goValues);
  }

  // ----- The read path against the report path

  /** A read value with its type tags dropped. */
  function Erased(g: GoValue): GoValue {
    match g
    case Typed(ms) => Slice(ErasedMembers(ms))
    case _ => g
  }

  function ErasedMember(m: GoMmsValue): GoValue {
    Erased(m.value)
  }

  function ErasedMembers(ms: seq<GoMmsValue>): (r: seq<GoValue>)
    ensures |r| == |ms|
  {
    if ms == [] then [] else [ErasedMember(ms[0])] + ErasedMembers(ms[1..])
  }

  /**
    The values both paths see alike: no octet string, no bit string or time stamp when the client
    leaves those out, in a structure nothing after a null element, and in an array nothing but null elements.
   */
  predicate PathsAgree(noTs: bool, v: MmsValue) {
    match v
    case OctetString(_) => false
    case BitString(_) => !noTs
    case UtcTime(_) => !noTs
    case Structure(es) => MembersAgree(noTs, es)
    case Array(es) => forall e :: e in es ==> e.Null?
    case _ => true
  }

  predicate MembersAgree(noTs: bool, es: seq<MmsValue>) {
    if es == [] then true
    else if es[0].Null? then forall e :: e in es ==> e.Null?
    else PathsAgree(noTs, es[0]) && MembersAgree(noTs, es[1..])
  }

  lemma NoViews(es: seq<MmsValue>)
    ensures FlatCodec.Views(es) == [] <==> forall e :: e in es ==> e.Null?
  {
  }

  /** A report and a read give the same value exactly for the values described above. */
  lemma {:induction false} DecodersAgree(noTs: bool, v: MmsValue)
    requires !v.Null?
    ensures Erased(Resolved(noTs, v)) == FlatCodec.View(v) <==> PathsAgree(noTs, v)
    decreases v, 0
  {
    match v
    case Structure(es) => MemberDecodersAgree(noTs, es);
    case Array(es) => NoViews(es);
    case _ =>
  }

  lemma {:induction false} MemberDecodersAgree(noTs: bool, es: seq<MmsValue>)
    ensures ErasedMembers(ResolvedMembers(noTs, es)) == FlatCodec.Views(es) <==> MembersAgree(noTs, es)
    decreases es, 1
  {
    if es == [] {
    } else if es[0].Null? {
      NoViews(es);
    } else {
      DecodersAgree(noTs, es[0]);
      MemberDecodersAgree(noTs, es[1..]);
      var ms := ResolvedMembers(noTs, es);
      assert ms[1..] == ResolvedMembers(noTs, es[1..]);
      assert ErasedMembers(ms) == [Erased(Resolved(noTs, es[0]))] + ErasedMembers(ms[1..]);
      var a, b := ErasedMembers(ms), FlatCodec.Views(es);
      assert a[0] == Erased(Resolved(noTs, es[0])) && b[0] == FlatCodec.View(es[0]);
      assert a[1..] == ErasedMembers(ms[1..]) && b[1..] == FlatCodec.Views(es[1..]);
      if a[0] == b[0] && a[1..] == b[1..] {
        assert a == [a[0]] + a[1..] && b == [b[0]] + b[1..];
      }
    }
  }
}
