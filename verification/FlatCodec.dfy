/**
  The flat token format that carries a report's values from C to Go: the tokens a value is
  written as, and what the Go extractor makes of any token sequence.
 */
module FlatCodec {
  import opened Mms

  const FLAT_STRUCT_START := 100
  const FLAT_STRUCT_END := 101
  const FLAT_ARRAY_START := 102
  const FLAT_ARRAY_END := 103

  /** One field of a malloc'd record: undefined until written. */
  datatype Field<T> = Undefined | Written(v: T)

  datatype FlatToken = FlatToken(typ: Field<int>, ival: Field<int64>, dval: Field<real>, sval: Field<CString>)

  /** A record as malloc returns it. */
  const BLANK := FlatToken(Undefined, Undefined, Undefined, Undefined)

  function Tag(typ: int): FlatToken {
    BLANK.(typ := Written(typ))
  }

  // ----- Writing

  /** The tokens of one value; a null value has none. */
  function Flatten(v: MmsValue): seq<FlatToken> {
    match v
    case Null => []
    case Boolean(b) => [Tag(MMS_BOOLEAN).(ival := Written(if b then 1 else 0))]
    case Float(d) => [Tag(MMS_FLOAT).(dval := Written(d))]
    case Integer(i) => [Tag(MMS_INTEGER).(ival := Written(i))]
    case Unsigned(i) => [Tag(MMS_UNSIGNED).(ival := Written(i))]
    case Text(s) => [Tag(MMS_STRING).(sval := Written(s))]
    case VisibleString(s) => [Tag(MMS_VISIBLE_STRING).(sval := Written(s))]
    case OctetString(s) => [Tag(MMS_OCTET_STRING).(sval := Written(s))]
    case BitString(u) => [Tag(MMS_BIT_STRING).(ival := Written(u))]
    case UtcTime(u) => [Tag(MMS_UTC_TIME).(ival := Written(u))]
    case Other(c) => [Tag(c)]
    case Structure(es) => [Tag(FLAT_STRUCT_START)] + FlattenAll(es) + [Tag(FLAT_STRUCT_END)]
    case Array(es) => [Tag(FLAT_ARRAY_START)] + FlattenAll(es) + [Tag(FLAT_ARRAY_END)]
  }

  function FlattenAll(es: seq<MmsValue>): seq<FlatToken> {
    if es == [] then [] else Flatten(es[0]) + FlattenAll(es[1..])
  }

  // ----- Reading

  datatype Extracted = Extracted(value: GoValue, pos: nat)
  datatype ExtractedItems = ExtractedItems(items: seq<GoValue>, pos: nat)

  predicate IsEndMarker(t: FlatToken) {
    t.typ == Written(FLAT_STRUCT_END) || t.typ == Written(FLAT_ARRAY_END)
  }

  predicate IsStartMarker(t: FlatToken) {
    t.typ == Written(FLAT_STRUCT_START) || t.typ == Written(FLAT_ARRAY_START)
  }

  /** The value of a token that opens nothing. Reading an undefined field yields `Indeterminate`. */
  function Scalar(t: FlatToken): GoValue {
    match t.typ
    case Undefined => Indeterminate
    case Written(typ) =>
      if typ == MMS_BOOLEAN then
        match t.ival { case Undefined => Indeterminate case Written(i) => Bool(i != 0) }
      else if typ == MMS_FLOAT then
        match t.dval { case Undefined => Indeterminate case Written(d) => Float64(d) }
      else if typ == MMS_INTEGER || typ == MMS_UNSIGNED then
        match t.ival { case Undefined => Indeterminate case Written(i) => Int64(i) }
      else if typ == MMS_STRING || typ == MMS_VISIBLE_STRING || typ == MMS_OCTET_STRING then
        match t.sval { case Undefined => Indeterminate case Written(s) => Str(GoString(s)) }
      else if typ == MMS_BIT_STRING || typ == MMS_UTC_TIME then
        match t.ival { case Undefined => Indeterminate case Written(i) => Uint32(ToUint32(i)) }
      else
        Nil
  }

  /**
    What `extractFlatValue` returns, and where it leaves the cursor, on ANY token sequence:
    it always advances while tokens remain and never passes the end.
   */
  function Extract(ts: seq<FlatToken>, pos: nat): (r: Extracted)
    ensures pos < |ts| ==> pos < r.pos <= |ts|
    ensures pos >= |ts| ==> r == Extracted(Nil, pos)
    decreases |ts| - pos, 0
  {
    if pos >= |ts| then Extracted(Nil, pos)
    else if IsStartMarker(ts[pos]) then
      var r := ExtractItems(ts, pos + 1);
      Extracted(Slice(r.items), r.pos)
    else Extracted(Scalar(ts[pos]), pos + 1)
  }

  /** The items up to the next unconsumed end marker of either kind, or the end of the tokens. */
  function ExtractItems(ts: seq<FlatToken>, pos: nat): (r: ExtractedItems)
    ensures pos <= |ts| ==> pos <= r.pos <= |ts|
    decreases |ts| - pos, 1
  {
    if pos >= |ts| then ExtractedItems([], pos)
    else if IsEndMarker(ts[pos]) then ExtractedItems([], pos + 1)
    else
      var x := Extract(ts, pos);
      var rest := ExtractItems(ts, x.pos);
      ExtractedItems([x.value] + rest.items, rest.pos)
  }

  /** The cursor positions at which the entries of a token sequence start, from `pos` on. */
  function EntryStarts(ts: seq<FlatToken>, pos: nat): seq<nat>
    decreases |ts| - pos
  {
    if pos >= |ts| then [] else [pos] + EntryStarts(ts, Extract(ts, pos).pos)
  }

  // ----- What a value means to Go

  /** The Go value a report carries for `v`: structures and arrays are both slices, null children vanish. */
  function View(v: MmsValue): GoValue {
    match v
    case Null => Nil
    case Boolean(b) => Bool(b)
    case Float(d) => Float64(d)
    case Integer(i) => Int64(i)
    case Unsigned(i) => Int64(i)
    case Text(s) => Str(GoString(s))
    case VisibleString(s) => Str(GoString(s))
    case OctetString(s) => Str(GoString(s))
    case BitString(u) => Uint32(u)
    case UtcTime(u) => Uint32(u)
    case Other(_) => Nil
    case Structure(es) => Slice(Views(es))
    case Array(es) => Slice(Views(es))
  }

  function Views(es: seq<MmsValue>): seq<GoValue> {
    if es == [] then []
    else if es[0].Null? then Views(es[1..])
    else [View(es[0])] + Views(es[1..])
  }

  /** No part of the value was computed from an undefined field. */
  predicate Determinate(g: GoValue) {
    match g
    case Indeterminate => false
    case Slice(items) => forall x :: x in items ==> Determinate(x)
    case _ => true
  }

  /** Together with the round trip: extraction reads no field of a flattened value that was never written. */
  lemma {:induction false} ViewIsDeterminate(v: MmsValue)
    ensures Determinate(View(v))
    decreases v, 0
  {
    if !v.IsComplex() {
    } else {
      ViewsAreDeterminate(v.elems);
    }
  }

  lemma {:induction false} ViewsAreDeterminate(es: seq<MmsValue>)
    ensures forall x :: x in Views(es) ==> Determinate(x)
    decreases es, 1
  {
    if es == [] {
    } else {
      ViewIsDeterminate(es[0]);
      ViewsAreDeterminate(es[1..]);
    }
  }

  // ----- Round trip

  ghost predicate OccursAt(part: seq<FlatToken>, ts: seq<FlatToken>, pos: nat) {
    pos + |part| <= |ts| && forall k :: 0 <= k < |part| ==> ts[pos + k] == part[k]
  }

  lemma OccursSplit(a: seq<FlatToken>, b: seq<FlatToken>, ts: seq<FlatToken>, pos: nat)
    requires OccursAt(a + b, ts, pos)
    ensures OccursAt(a, ts, pos) && OccursAt(b, ts, pos + |a|)
    ensures a != [] ==> ts[pos] == a[0]
  {
    forall k | 0 <= k < |a|
      ensures ts[pos + k] == a[k]
    {
      assert (a + b)[k] == a[k];
    }
    forall k | 0 <= k < |b|
      ensures ts[pos + |a| + k] == b[k]
    {
      assert (a + b)[|a| + k] == b[k];
    }
    if a != [] {
      assert ts[pos + 0] == a[0];
    }
  }

  lemma FlattenNonEmpty(v: MmsValue)
    ensures Flatten(v) == [] <==> v.Null?
    ensures !v.Null? ==> !IsEndMarker(Flatten(v)[0])
  {
  }

  /**
    Round trip: wherever a value's tokens stand in a token sequence, extracting there gives the
    value's Go view and leaves the cursor exactly past those tokens.
   */
  lemma {:induction false} RoundTrip(v: MmsValue, ts: seq<FlatToken>, pos: nat)
    requires !v.Null?
    requires OccursAt(Flatten(v), ts, pos)
    ensures Extract(ts, pos) == Extracted(View(v), pos + |Flatten(v)|)
    decreases v, 0
  {
    FlattenNonEmpty(v);
    assert ts[pos + 0] == Flatten(v)[0];
    if v.IsComplex() {
      var start, end := Tag(if v.Structure? then FLAT_STRUCT_START else FLAT_ARRAY_START),
                        Tag(if v.Structure? then FLAT_STRUCT_END else FLAT_ARRAY_END);
      assert Flatten(v) == [start] + (FlattenAll(v.elems) + [end]);
      OccursSplit([start], FlattenAll(v.elems) + [end], ts, pos);
      RoundTripItems(v.elems, end, ts, pos + 1);
    }
  }

  lemma {:induction false} RoundTripItems(es: seq<MmsValue>, end: FlatToken, ts: seq<FlatToken>, pos: nat)
    requires IsEndMarker(end)
    requires OccursAt(FlattenAll(es) + [end], ts, pos)
    ensures ExtractItems(ts, pos) == ExtractedItems(Views(es), pos + |FlattenAll(es)| + 1)
    decreases es, 1
  {
    if es == [] {
      assert FlattenAll(es) + [end] == [end];
      OccursSplit([end], [], ts, pos) by {
        assert [end] + [] == [end];
      }
    } else {
      var rest := FlattenAll(es[1..]) + [end];
      assert FlattenAll(es) + [end] == Flatten(es[0]) + rest;
      OccursSplit(Flatten(es[0]), rest, ts, pos);
      RoundTripItems(es[1..], end, ts, pos + |Flatten(es[0])|);
      FlattenNonEmpty(es[0]);
      if !es[0].Null? {
        RoundTrip(es[0], ts, pos);
      }
    }
  }

  // ----- What arrives

  /** The types whose payload the extractor reads. */
  const READ_TYPES := {MMS_BOOLEAN, MMS_FLOAT, MMS_INTEGER, MMS_UNSIGNED, MMS_STRING, MMS_VISIBLE_STRING,
                       MMS_OCTET_STRING, MMS_BIT_STRING, MMS_UTC_TIME}

  /**
    What the extractor makes of a single token of each type, whatever its payload; a payload that was never written
    shows in the result.
   */
  lemma TokenRead(ts: seq<FlatToken>, pos: nat)
    requires pos < |ts| && !IsStartMarker(ts[pos])
    ensures Extract(ts, pos).pos == pos + 1
    ensures ts[pos].typ.Undefined? ==> Extract(ts, pos).value == Indeterminate
    ensures var t, g := ts[pos], Extract(ts, pos).value;
      t.typ.Written? ==>
        var typ, i, d, s := t.typ.v, t.ival, t.dval, t.sval;
        && (typ == MMS_BOOLEAN ==> g == if i.Written? then Bool(i.v != 0) else Indeterminate)
        && (typ == MMS_FLOAT ==> g == if d.Written? then Float64(d.v) else Indeterminate)
        && (typ in {MMS_INTEGER, MMS_UNSIGNED} ==> g == if i.Written? then Int64(i.v) else Indeterminate)
        && (typ in {MMS_STRING, MMS_VISIBLE_STRING, MMS_OCTET_STRING} ==>
              g == if s.Undefined? then Indeterminate else Str(if s.v.Some? then s.v.value else ""))
        && (typ in {MMS_BIT_STRING, MMS_UTC_TIME} ==>
              if i.Written? then g.Uint32? && (i.v - g.u) % 0x1_0000_0000 == 0 else g == Indeterminate)
        && (typ !in READ_TYPES ==> g == Nil)
  {
    var t := ts[pos];
    if t.ival.Written? {
      assert t.ival.v - ToUint32(t.ival.v) == 0x1_0000_0000 * (t.ival.v / 0x1_0000_0000);
    }
  }

  /** Each scalar arrives as itself: its tokens, wherever they stand, are read as the Go value of the same content. */
  lemma ScalarArrives(v: MmsValue, ts: seq<FlatToken>, pos: nat)
    requires !v.Null? && !v.IsComplex() && OccursAt(Flatten(v), ts, pos)
    ensures |Flatten(v)| == 1
    ensures var g := Extract(ts, pos).value;
      match v
      case Boolean(b) => g == Bool(b)
      case Float(d) => g == Float64(d)
      case Integer(i) => g == Int64(i)
      case Unsigned(i) => g == Int64(i)
      case Text(Some(t)) => g == Str(t)
      case VisibleString(Some(t)) => g == Str(t)
      case OctetString(Some(t)) => g == Str(t)
      case Text(None) => g == Str("")
      case VisibleString(None) => g == Str("")
      case OctetString(None) => g == Str("")
      case BitString(u) => g == Uint32(u)
      case UtcTime(u) => g == Uint32(u)
      case _ => g == Nil
  {
    RoundTrip(v, ts, pos);
  }

  lemma {:induction false} ViewsAtEnd(es: seq<MmsValue>)
    requires es != []
    ensures var n := |es| - 1;
      Views(es) == Views(es[..n]) + if es[n].Null? then [] else [View(es[n])]
  {
    var n := |es| - 1;
    if n == 0 {
      assert es[..n] == [] && es[1..] == [];
    } else {
      ViewsAtEnd(es[1..]);
      assert es[1..][..n - 1] == es[..n][1..];
    }
  }

  lemma ViewsGrow(es: seq<MmsValue>, n: nat)
    requires n < |es|
    ensures Views(es[..n + 1]) == Views(es[..n]) + if es[n].Null? then [] else [View(es[n])]
  {
    ViewsAtEnd(es[..n + 1]);
    assert es[..n + 1][..n] == es[..n];
  }

  /** The views, one by one, are those of the elements at the positions `at`. */
  ghost predicate ViewsOf(vs: seq<GoValue>, es: seq<MmsValue>, at: seq<nat>) {
    |vs| == |at| && forall k :: 0 <= k < |at| ==> at[k] < |es| && vs[k] == View(es[at[k]])
  }

  lemma ViewsOfOneMore(vs: seq<GoValue>, es: seq<MmsValue>, at: seq<nat>, n: nat)
    requires ViewsOf(vs, es, at) && n < |es|
    ensures ViewsOf(vs + [View(es[n])], es, at + [n])
  {
  }

  lemma {:induction false} ViewsSelect(es: seq<MmsValue>, n: nat) returns (at: seq<nat>)
    requires n <= |es|
    ensures SelectsUpTo(es, (e: MmsValue) => !e.Null?, n, at) && ViewsOf(Views(es[..n]), es, at)
  {
    if n == 0 {
      at := [];
    } else {
      var before := ViewsSelect(es, n - 1);
      SelectsOneMore(es, (e: MmsValue) => !e.Null?, n - 1, before);
      ViewsGrow(es, n - 1);
      ViewsOfOneMore(Views(es[..n - 1]), es, before, n - 1);
      at := if es[n - 1].Null? then before else before + [n - 1];
    }
  }

  /** A structure or array arrives as the list of its non-null elements, in their order, each as it would alone. */
  lemma ElementsArrive(v: MmsValue, ts: seq<FlatToken>, pos: nat) returns (at: seq<nat>)
    requires v.IsComplex() && OccursAt(Flatten(v), ts, pos)
    ensures Selects(v.elems, (e: MmsValue) => !e.Null?, at)
    ensures var g := Extract(ts, pos).value;
      && g.Slice? && |g.items| == |at|
      && forall k :: 0 <= k < |at| ==> g.items[k] == Extract(Flatten(v.elems[at[k]]), 0).value
  {
    RoundTrip(v, ts, pos);
    at := ViewsSelect(v.elems, |v.elems|);
    assert v.elems[..|v.elems|] == v.elems;
    forall k | 0 <= k < |at|
      ensures View(v.elems[at[k]]) == Extract(Flatten(v.elems[at[k]]), 0).value
    {
      RoundTrip(v.elems[at[k]], Flatten(v.elems[at[k]]), 0);
    }
  }

  /**
    On any tokens, what a start marker opens is read item by item: each where the one before ended, up to the first
    end marker met there or the end of the tokens.
   */
  lemma {:induction false} ItemsInTurn(ts: seq<FlatToken>, pos: nat) returns (starts: seq<nat>)
    requires pos <= |ts|
    ensures var r := ExtractItems(ts, pos);
      && |r.items| + 1 == |starts| && starts[0] == pos && starts[|starts| - 1] <= |ts|
      && (forall k :: 0 <= k < |r.items| ==>
            && starts[k] < |ts| && !IsEndMarker(ts[starts[k]])
            && r.items[k] == Extract(ts, starts[k]).value && starts[k + 1] == Extract(ts, starts[k]).pos)
      && var last := starts[|starts| - 1];
         if last == |ts| then r.pos == last else IsEndMarker(ts[last]) && r.pos == last + 1
    decreases |ts| - pos
  {
    if pos == |ts| || IsEndMarker(ts[pos]) {
      starts := [pos];
    } else {
      var rest := ItemsInTurn(ts, Extract(ts, pos).pos);
      starts := [pos] + rest;
    }
  }

  /** So a start marker of either kind yields the list of those items. */
  lemma OpenedAreItems(ts: seq<FlatToken>, pos: nat) returns (starts: seq<nat>)
    requires pos < |ts| && ts[pos].typ in {Written(FLAT_STRUCT_START), Written(FLAT_ARRAY_START)}
    ensures var r := Extract(ts, pos);
      && r.value.Slice? && |r.value.items| + 1 == |starts| && starts[0] == pos + 1 && starts[|starts| - 1] <= |ts|
      && (forall k :: 0 <= k < |r.value.items| ==>
            && starts[k] < |ts| && ts[starts[k]].typ !in {Written(FLAT_STRUCT_END), Written(FLAT_ARRAY_END)}
            && r.value.items[k] == Extract(ts, starts[k]).value && starts[k + 1] == Extract(ts, starts[k]).pos)
      && var last := starts[|starts| - 1];
         if last == |ts| then r.pos == last
         else ts[last].typ in {Written(FLAT_STRUCT_END), Written(FLAT_ARRAY_END)} && r.pos == last + 1
  {
    starts := ItemsInTurn(ts, pos + 1);
  }

  // ----- What the tokens tell

  /** The value without the null elements of its structures and arrays. */
  function Pruned(v: MmsValue): MmsValue {
    match v
    case Structure(es) => Structure(PrunedAll(es))
    case Array(es) => Array(PrunedAll(es))
    case _ => v
  }

  function PrunedAll(es: seq<MmsValue>): seq<MmsValue> {
    if es == [] then []
    else if es[0].Null? then PrunedAll(es[1..])
    else [Pruned(es[0])] + PrunedAll(es[1..])
  }

  /** Null elements leave no trace in the tokens. */
  lemma {:induction false} PruningKeepsTokens(v: MmsValue)
    ensures Flatten(Pruned(v)) == Flatten(v)
    decreases v, 0
  {
    if !v.IsComplex() {
    } else {
      PruningKeepsAllTokens(v.elems);
    }
  }

  lemma {:induction false} PruningKeepsAllTokens(es: seq<MmsValue>)
    ensures FlattenAll(PrunedAll(es)) == FlattenAll(es)
    decreases es, 1
  {
    if es == [] {
    } else {
      PruningKeepsAllTokens(es[1..]);
      if !es[0].Null? {
        PruningKeepsTokens(es[0]);
        assert PrunedAll(es)[1..] == PrunedAll(es[1..]);
      }
    }
  }

  lemma SameHead(a: FlatToken, s: seq<FlatToken>, b: FlatToken, t: seq<FlatToken>)
    requires [a] + s == [b] + t
    ensures a == b && s == t
  {
    assert a == ([a] + s)[0] && b == ([b] + t)[0];
    assert s == ([a] + s)[1..] && t == ([b] + t)[1..];
  }

  /** The tokens of a scalar tell which it is. */
  lemma SameScalar(v: MmsValue, w: MmsValue)
    requires !v.Null? && !w.Null? && !v.IsComplex() && !w.IsComplex() && Flatten(v)[0] == Flatten(w)[0]
    ensures v == w
  {
  }

  /** The tokens of a structure or array after its start marker, and whatever follows. */
  function Inside(v: MmsValue, s: seq<FlatToken>): seq<FlatToken>
    requires v.IsComplex()
  {
    FlattenAll(v.elems) + ([Tag(if v.Structure? then FLAT_STRUCT_END else FLAT_ARRAY_END)] + s)
  }

  lemma FlattenOpens(v: MmsValue, s: seq<FlatToken>)
    requires v.IsComplex()
    ensures Flatten(v) + s == [Tag(if v.Structure? then FLAT_STRUCT_START else FLAT_ARRAY_START)] + Inside(v, s)
  {
  }

  /** The first token of a list of elements and what follows: an end marker exactly if the list is empty. */
  lemma StreamHead(es: seq<MmsValue>, s: seq<FlatToken>)
    requires s != [] && IsEndMarker(s[0]) && (es != [] ==> !es[0].Null?)
    ensures FlattenAll(es) + s != [] && (IsEndMarker((FlattenAll(es) + s)[0]) <==> es == [])
    ensures es != [] ==> FlattenAll(es) + s == Flatten(es[0]) + (FlattenAll(es[1..]) + s)
  {
    if es != [] {
      FlattenNonEmpty(es[0]);
      assert (FlattenAll(es) + s)[0] == Flatten(es[0])[0];
    }
  }

  /** Streams that agree begin with the same value, null elements aside, and go on alike. */
  lemma {:induction false} SameStream(v: MmsValue, w: MmsValue, s: seq<FlatToken>, t: seq<FlatToken>)
    requires !v.Null? && !w.Null? && Flatten(v) + s == Flatten(w) + t
    ensures Pruned(v) == Pruned(w) && s == t
    decreases v, 0
  {
    FlattenNonEmpty(v);
    FlattenNonEmpty(w);
    assert Flatten(v)[0] == (Flatten(v) + s)[0] && Flatten(w)[0] == (Flatten(w) + t)[0];
    if v.IsComplex() {
      FlattenOpens(v, s);
      FlattenOpens(w, t);
      var end := Tag(if v.Structure? then FLAT_STRUCT_END else FLAT_ARRAY_END);
      SameHead(Flatten(v)[0], Inside(v, s), Flatten(w)[0], Inside(w, t));
      SameElements(v.elems, w.elems, end, s, t);
    } else {
      SameScalar(v, w);
      SameHead(Flatten(v)[0], s, Flatten(w)[0], t);
    }
  }

  lemma {:induction false} SameElements(es: seq<MmsValue>, fs: seq<MmsValue>, end: FlatToken, s: seq<FlatToken>,
                                        t: seq<FlatToken>)
    requires IsEndMarker(end) && FlattenAll(es) + ([end] + s) == FlattenAll(fs) + ([end] + t)
    ensures PrunedAll(es) == PrunedAll(fs) && s == t
    decreases es, 1, |fs|
  {
    if es != [] && es[0].Null? {
      SameElements(es[1..], fs, end, s, t);
    } else if fs != [] && fs[0].Null? {
      SameElements(es, fs[1..], end, s, t);
    } else if es == [] && fs == [] {
      assert FlattenAll(es) + ([end] + s) == [end] + s && FlattenAll(fs) + ([end] + t) == [end] + t;
      SameHead(end, s, end, t);
    } else {
      StreamHead(es, [end] + s);
      StreamHead(fs, [end] + t);
      if es != [] && fs != [] {
        SameStream(es[0], fs[0], FlattenAll(es[1..]) + ([end] + s), FlattenAll(fs[1..]) + ([end] + t));
        SameElements(es[1..], fs[1..], end, s, t);
      }
    }
  }

  /** Flattening forgets the null elements of a value, and nothing else. */
  lemma TokensTellTheValue(v: MmsValue, w: MmsValue)
    ensures Flatten(v) == Flatten(w) <==> Pruned(v) == Pruned(w)
  {
    PruningKeepsTokens(v);
    PruningKeepsTokens(w);
    FlattenNonEmpty(v);
    FlattenNonEmpty(w);
    if !v.Null? && !w.Null? && Flatten(v) == Flatten(w) {
      SameStream(v, w, [], []);
    }
  }

  /**
    The encoding is self-delimiting: two streams agree exactly if they start with the same value, null elements
    aside, and go on alike; and then Go sees the same value.
   */
  lemma SelfDelimiting(v: MmsValue, w: MmsValue, s: seq<FlatToken>, t: seq<FlatToken>)
    requires !v.Null? && !w.Null?
    ensures Flatten(v) + s == Flatten(w) + t <==> Pruned(v) == Pruned(w) && s == t
    ensures Flatten(v) + s == Flatten(w) + t ==> View(v) == View(w)
  {
    TokensTellTheValue(v, w);
    if Flatten(v) + s == Flatten(w) + t {
      SameStream(v, w, s, t);
      RoundTrip(v, Flatten(v) + s, 0);
      RoundTrip(w, Flatten(v) + s, 0);
    }
  }

  // ----- Any token sequence

  /** An extraction depends only on the tokens it consumes. */
  lemma {:induction false} ExtractIsLocal(ts: seq<FlatToken>, pos: nat, lo: nat, hi: nat)
    requires lo <= pos < |ts|
    requires Extract(ts, pos).pos <= hi <= |ts|
    ensures Extract(ts[lo..hi], pos - lo) == Extracted(Extract(ts, pos).value, Extract(ts, pos).pos - lo)
    decreases |ts| - pos, 0
  {
    if !IsStartMarker(ts[pos]) {
    } else {
      ItemsAreLocal(ts, pos + 1, lo, hi);
    }
  }

  lemma {:induction false} ItemsAreLocal(ts: seq<FlatToken>, pos: nat, lo: nat, hi: nat)
    requires lo <= pos <= |ts|
    requires ExtractItems(ts, pos).pos <= hi <= |ts|
    ensures ExtractItems(ts[lo..hi], pos - lo)
         == ExtractedItems(ExtractItems(ts, pos).items, ExtractItems(ts, pos).pos - lo)
    decreases |ts| - pos, 1
  {
    if pos >= |ts| || IsEndMarker(ts[pos]) {
    } else {
      var x := Extract(ts, pos);
      ExtractIsLocal(ts, pos, lo, hi);
      ItemsAreLocal(ts, x.pos, lo, hi);
    }
  }

  /** The token with array markers turned into the corresponding structure markers. */
  function AsStructMarker(t: FlatToken): FlatToken {
    if IsStartMarker(t) then t.(typ := Written(FLAT_STRUCT_START))
    else if IsEndMarker(t) then t.(typ := Written(FLAT_STRUCT_END))
    else t
  }

  function AsStructMarkers(ts: seq<FlatToken>): seq<FlatToken> {
    seq(|ts|, i requires 0 <= i < |ts| => AsStructMarker(ts[i]))
  }

  /** The extractor never tells structures from arrays, not even where start and end markers mismatch. */
  lemma {:induction false} MarkerKindsDoNotMatter(ts: seq<FlatToken>, pos: nat)
    ensures Extract(AsStructMarkers(ts), pos) == Extract(ts, pos)
    decreases |ts| - pos, 0
  {
    if pos >= |ts| || !IsStartMarker(ts[pos]) {
    } else {
      ItemMarkerKindsDoNotMatter(ts, pos + 1);
    }
  }

  lemma {:induction false} ItemMarkerKindsDoNotMatter(ts: seq<FlatToken>, pos: nat)
    ensures ExtractItems(AsStructMarkers(ts), pos) == ExtractItems(ts, pos)
    decreases |ts| - pos, 1
  {
    if pos >= |ts| || IsEndMarker(ts[pos]) {
    } else {
      MarkerKindsDoNotMatter(ts, pos);
      ItemMarkerKindsDoNotMatter(ts, Extract(ts, pos).pos);
    }
  }

  /** Where entry `i` ends: at the start of the next one, or at the end of the tokens. */
  function EntryEnd(ts: seq<FlatToken>, starts: seq<nat>, i: nat): nat {
    if i + 1 < |starts| then starts[i + 1] else |ts|
  }

  lemma {:induction false} EntryStartsChain(ts: seq<FlatToken>, pos: nat)
    requires pos <= |ts|
    ensures pos < |ts| ==> EntryStarts(ts, pos) != [] && EntryStarts(ts, pos)[0] == pos
    ensures pos == |ts| ==> EntryStarts(ts, pos) == []
    ensures forall i :: 0 <= i < |EntryStarts(ts, pos)| ==>
              && EntryStarts(ts, pos)[i] < |ts|
              && EntryEnd(ts, EntryStarts(ts, pos), i) == Extract(ts, EntryStarts(ts, pos)[i]).pos
    decreases |ts| - pos
  {
    if pos == |ts| {
    } else {
      var next := Extract(ts, pos).pos;
      EntryStartsChain(ts, next);
      var st, rest := EntryStarts(ts, pos), EntryStarts(ts, next);
      assert st == [pos] + rest;
      forall i | 0 <= i < |st|
        ensures st[i] < |ts| && EntryEnd(ts, st, i) == Extract(ts, st[i]).pos
      {
        if i > 0 {
          assert st[i] == rest[i - 1] && EntryEnd(ts, st, i) == EntryEnd(ts, rest, i - 1);
        }
      }
    }
  }

  /**
    However malformed, a token sequence is cut into consecutive non-empty spans that cover it,
    and each entry is what its own span alone extracts to.
   */
  lemma EntriesPartition(ts: seq<FlatToken>)
    ensures ts != [] ==> EntryStarts(ts, 0) != [] && EntryStarts(ts, 0)[0] == 0
    ensures forall i :: 0 <= i < |EntryStarts(ts, 0)| ==>
      var from, to := EntryStarts(ts, 0)[i], EntryEnd(ts, EntryStarts(ts, 0), i);
      && from < to <= |ts|
      && Extract(ts, from).pos == to
      && Extract(ts[from..to], 0) == Extracted(Extract(ts, from).value, to - from)
  {
    EntryStartsChain(ts, 0);
    var st := EntryStarts(ts, 0);
    forall i | 0 <= i < |st|
      ensures st[i] < EntryEnd(ts, st, i) <= |ts| && Extract(ts, st[i]).pos == EntryEnd(ts, st, i)
      ensures Extract(ts[st[i]..EntryEnd(ts, st, i)], 0)
           == Extracted(Extract(ts, st[i]).value, EntryEnd(ts, st, i) - st[i])
    {
      ExtractIsLocal(ts, st[i], st[i], EntryEnd(ts, st, i));
    }
  }

  /** The values extracted from a token sequence, one after the other. */
  function EntryValues(ts: seq<FlatToken>, pos: nat): seq<GoValue>
    decreases |ts| - pos
  {
    if pos >= |ts| then [] else [Extract(ts, pos).value] + EntryValues(ts, Extract(ts, pos).pos)
  }

  lemma {:induction false} EntryValueAt(ts: seq<FlatToken>, pos: nat)
    ensures |EntryValues(ts, pos)| == |EntryStarts(ts, pos)|
    ensures forall i :: 0 <= i < |EntryStarts(ts, pos)| ==>
              EntryValues(ts, pos)[i] == Extract(ts, EntryStarts(ts, pos)[i]).value
    decreases |ts| - pos
  {
    if pos >= |ts| {
    } else {
      EntryValueAt(ts, Extract(ts, pos).pos);
    }
  }

  /** On the tokens of a list of non-null values the entries are exactly those values, in order. */
  lemma {:induction false} EntriesOfMembers(ms: seq<MmsValue>, ts: seq<FlatToken>, pos: nat)
    requires forall m :: m in ms ==> !m.Null?
    requires pos + |FlattenAll(ms)| == |ts| && OccursAt(FlattenAll(ms), ts, pos)
    ensures EntryValues(ts, pos) == seq(|ms|, i requires 0 <= i < |ms| => View(ms[i]))
    decreases |ms|
  {
    if ms == [] {
    } else {
      FlattenNonEmpty(ms[0]);
      OccursSplit(Flatten(ms[0]), FlattenAll(ms[1..]), ts, pos);
      RoundTrip(ms[0], ts, pos);
      EntriesOfMembers(ms[1..], ts, pos + |Flatten(ms[0])|);
    }
  }
}
