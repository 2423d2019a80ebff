/** The C side of the report bridge: the counting pass, the filling pass and the malloc between them. */
module ReportBridge {
  import opened Mms
  import opened FlatCodec

  /** How many tokens the filling pass still has room for. */
  function Room(index: nat, maxLen: nat): nat {
    if index < maxLen then maxLen - index else 0
  }

  function Min(a: nat, b: nat): nat {
    if a < b then a else b
  }

  function Overwrite<T>(was: Field<T>, now: Field<T>): Field<T> {
    if now.Undefined? then was else now
  }

  /** A record after the fields of `t` that are defined have been assigned to it. */
  function Overlay(cell: FlatToken, t: FlatToken): FlatToken {
    FlatToken(Overwrite(cell.typ, t.typ), Overwrite(cell.ival, t.ival),
              Overwrite(cell.dval, t.dval), Overwrite(cell.sval, t.sval))
  }

  /** The array `was` after writing as many of the tokens `ts` as fit before `maxLen`, from `index` on. */
  ghost predicate Wrote(was: seq<FlatToken>, now: seq<FlatToken>, ts: seq<FlatToken>, index: nat, maxLen: nat) {
    && |now| == |was|
    && maxLen <= |was|
    && (forall k :: 0 <= k < |was| ==>
          now[k] == if index <= k < index + Min(|ts|, Room(index, maxLen))
                    then Overlay(was[k], ts[k - index])
                    else was[k])
  }

  lemma WroteNothing(a: seq<FlatToken>, index: nat, maxLen: nat)
    requires maxLen <= |a|
    ensures Wrote(a, a, [], index, maxLen)
  {
  }

  lemma WroteBoth(a: seq<FlatToken>, b: seq<FlatToken>, c: seq<FlatToken>,
                  s: seq<FlatToken>, t: seq<FlatToken>, index: nat, maxLen: nat)
    requires Wrote(a, b, s, index, maxLen)
    requires Wrote(b, c, t, index + Min(|s|, Room(index, maxLen)), maxLen)
    ensures Wrote(a, c, s + t, index, maxLen)
    ensures Min(|s + t|, Room(index, maxLen))
         == Min(|s|, Room(index, maxLen)) + Min(|t|, Room(index + Min(|s|, Room(index, maxLen)), maxLen))
  {
  }

  lemma FlattenAllStep(es: seq<MmsValue>, i: nat)
    requires i < |es|
    ensures FlattenAll(es[..i + 1]) == FlattenAll(es[..i]) + Flatten(es[i])
  {
    if i == 0 {
      assert es[..1][1..] == [];
      assert es[..0] == [];
    } else {
      FlattenAllStep(es[1..], i - 1);
      assert es[..i + 1][1..] == es[1..][..i];
      assert es[..i][1..] == es[1..][..i - 1];
    }
  }

  /** The counting pass. */
  method CountMmsElements(val: MmsValue) returns (count: nat)
    ensures count == |Flatten(val)|
    decreases val
  {
    if val.Null? {
      return 0;
    }
    var t := val.Type();
    if t == MMS_STRUCTURE || t == MMS_ARRAY {
      count := 2;
      var size := val.Size();
      for i := 0 to size
        invariant count == 2 + |FlattenAll(val.elems[..i])|
      {
        FlattenAllStep(val.elems, i);
        var n := CountMmsElements(val.Element(i));
        count := count + n;
      }
      assert val.elems[..size] == val.elems;
      return;
    }
    return 1;
  }

  method WriteMarker(arr: array<FlatToken>, index: nat, maxLen: nat, marker: int) returns (next: nat)
    requires maxLen <= arr.Length
    modifies arr
    ensures next == index + Min(1, Room(index, maxLen))
    ensures Wrote(old(arr[..]), arr[..], [Tag(marker)], index, maxLen)
  {
    next := index;
    if index < maxLen {
      arr[next] := arr[next].(typ := Written(marker));
      next := next + 1;
    }
  }

  /**
    The filling pass over the caller's array, with its cursor passed in and returned. Whatever the
    room, it writes a prefix of the value's tokens and nothing else; it truncates exactly when the
    tokens do not fit.
   */
  method FlattenMmsValue(val: MmsValue, arr: array<FlatToken>, index: nat, maxLen: nat) returns (next: nat)
    requires maxLen <= arr.Length
    modifies arr
    ensures next == index + Min(|Flatten(val)|, Room(index, maxLen))
    ensures Wrote(old(arr[..]), arr[..], Flatten(val), index, maxLen)
    decreases val, 2
  {
    next := index;
    if index >= maxLen || val.Null? {
      return;
    }
    var t := val.Type();
    arr[next] := arr[next].(typ := Written(t));
    if t == MMS_BOOLEAN {
      arr[next] := arr[next].(ival := Written(if val.b then 1 else 0));
      next := next + 1;
    } else if t == MMS_FLOAT {
      arr[next] := arr[next].(dval := Written(val.d));
      next := next + 1;
    } else if t == MMS_INTEGER || t == MMS_UNSIGNED {
      arr[next] := arr[next].(ival := Written(val.i));
      next := next + 1;
    } else if t == MMS_STRING || t == MMS_VISIBLE_STRING || t == MMS_OCTET_STRING {
      arr[next] := arr[next].(sval := Written(val.s));
      next := next + 1;
    } else if t == MMS_BIT_STRING {
      arr[next] := arr[next].(ival := Written(val.bits));
      next := next + 1;
    } else if t == MMS_UTC_TIME {
      arr[next] := arr[next].(ival := Written(val.seconds));
      next := next + 1;
    } else if t == MMS_STRUCTURE || t == MMS_ARRAY {
      next := FlattenComplex(val, if t == MMS_STRUCTURE then FLAT_STRUCT_START else FLAT_ARRAY_START,
                             if t == MMS_STRUCTURE then FLAT_STRUCT_END else FLAT_ARRAY_END, arr, next, maxLen);
    } else {
      next := next + 1;
    }
  }

  /** The branch of the filling pass for structures and arrays: start marker, elements, end marker. */
  method FlattenComplex(val: MmsValue, start: int, end: int, arr: array<FlatToken>, index: nat, maxLen: nat)
    returns (next: nat)
    requires val.IsComplex()
    requires index < maxLen <= arr.Length
    modifies arr
    ensures next == index + Min(|[Tag(start)] + FlattenAll(val.elems) + [Tag(end)]|, Room(index, maxLen))
    ensures Wrote(old(arr[..]), arr[..], [Tag(start)] + FlattenAll(val.elems) + [Tag(end)], index, maxLen)
    decreases val, 1
  {
    ghost var a := arr[..];
    next := WriteMarker(arr, index, maxLen, start);
    ghost var b := arr[..];
    next := FlattenElements(val, arr, next, maxLen);
    ghost var c := arr[..];
    WroteBoth(a, b, c, [Tag(start)], FlattenAll(val.elems), index, maxLen);
    next := WriteMarker(arr, next, maxLen, end);
    WroteBoth(a, c, arr[..], [Tag(start)] + FlattenAll(val.elems), [Tag(end)], index, maxLen);
  }

  method FlattenElements(val: MmsValue, arr: array<FlatToken>, index: nat, maxLen: nat) returns (next: nat)
    requires val.IsComplex()
    requires maxLen <= arr.Length
    modifies arr
    ensures next == index + Min(|FlattenAll(val.elems)|, Room(index, maxLen))
    ensures Wrote(old(arr[..]), arr[..], FlattenAll(val.elems), index, maxLen)
    decreases val, 0
  {
    ghost var was := arr[..];
    next := index;
    var size := val.Size();
    WroteNothing(was, index, maxLen);
    for i := 0 to size
      invariant next == index + Min(|FlattenAll(val.elems[..i])|, Room(index, maxLen))
      invariant Wrote(was, arr[..], FlattenAll(val.elems[..i]), index, maxLen)
    {
      ghost var before := arr[..];
      var sub := val.Element(i);
      next := FlattenMmsValue(sub, arr, next, maxLen);
      WroteBoth(was, before, arr[..], FlattenAll(val.elems[..i]), Flatten(sub), index, maxLen);
      FlattenAllStep(val.elems, i);
    }
    assert val.elems[..size] == val.elems;
  }

  /** The first loop of `flattenReportDataSet`: the members up to the first null one are counted. */
  method CountPass(values: MmsValue) returns (count: nat)
    ensures count == |FlattenAll(Members(values))|
  {
    ghost var ms := Members(values);
    count := 0;
    var i := 0;
    var val := values.Element(0);
    while !val.Null?
      invariant i <= |ms| && val == values.Element(i)
      invariant val.Null? ==> i == |ms|
      invariant count == |FlattenAll(ms[..i])|
      decreases |ms| - i
    {
      FlattenAllStep(ms, i);
      var n := CountMmsElements(val);
      count := count + n;
      i := i + 1;
      val := values.Element(i);
    }
    assert ms[..i] == ms;
  }

  /** The second loop: the same members are written into the array. */
  method FillPass(values: MmsValue, arr: array<FlatToken>, count: nat) returns (index: nat)
    requires count <= arr.Length
    modifies arr
    ensures index == Min(|FlattenAll(Members(values))|, count)
    ensures Wrote(old(arr[..]), arr[..], FlattenAll(Members(values)), 0, count)
  {
    ghost var ms, blank := Members(values), arr[..];
    index := 0;
    var i := 0;
    var val := values.Element(0);
    while !val.Null?
      invariant i <= |ms| && val == values.Element(i)
      invariant val.Null? ==> i == |ms|
      invariant index == Min(|FlattenAll(ms[..i])|, count)
      invariant Wrote(blank, arr[..], FlattenAll(ms[..i]), 0, count)
      decreases |ms| - i
    {
      ghost var before := arr[..];
      index := FlattenMmsValue(val, arr, index, count);
      WroteBoth(blank, before, arr[..], FlattenAll(ms[..i]), Flatten(val), 0, count);
      FlattenAllStep(ms, i);
      i := i + 1;
      val := values.Element(i);
    }
    assert ms[..i] == ms;
  }

  lemma CountIsZero(ms: seq<MmsValue>)
    requires forall m :: m in ms ==> !m.Null?
    ensures FlattenAll(ms) == [] <==> ms == []
  {
  }

  /**
    Both passes and the allocation. `mallocOk` says whether malloc succeeds. Everything written is
    what the count pass made room for: the array is full and holds the tokens of the members.
   */
  method FlattenReportDataSet(values: MmsValue, mallocOk: bool) returns (arr: array?<FlatToken>, outCount: nat)
    ensures arr == null <==> Members(values) == [] || !mallocOk
    ensures arr == null ==> outCount == 0
    ensures arr != null ==> fresh(arr) && arr.Length == outCount && arr[..] == FlattenAll(Members(values))
  {
    CountIsZero(Members(values));
    if values.Null? {
      return null, 0;
    }
    var count := CountPass(values);
    if count == 0 || !mallocOk {
      return null, 0;
    }
    var tokens := new FlatToken[count](_ => BLANK);
    var index := FillPass(values, tokens, count);
    return tokens, index;
  }
}
