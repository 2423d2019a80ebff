/** MMS values as the C library hands them out, and the Go values the client makes of them. */
module Mms {

  datatype Option<+T> = None | Some(value: T)

  type int64 = i: int | -0x8000_0000_0000_0000 <= i < 0x8000_0000_0000_0000
  type uint32 = u: int | 0 <= u < 0x1_0000_0000

  /** A `char*`: `None` is NULL. */
  type CString = Option<string>

  /** Go's view of a C string: `C.GoString` of NULL is the empty string. */
  function GoString(s: CString): string {
    match s
    case None => ""
    case Some(t) => t
  }

  /** Go's conversion of a wider integer to `uint32`. */
  function ToUint32(i: int): uint32 {
    i % 0x1_0000_0000
  }

  // ----- Filtering

  ghost predicate Increasing(at: seq<nat>) {
    forall j, k :: 0 <= j < k < |at| ==> at[j] < at[k]
  }

  /** The wanted ones of the first `n` elements stand at the positions `at`, in increasing order. */
  ghost predicate SelectsUpTo<T(!new)>(s: seq<T>, wanted: T -> bool, n: nat, at: seq<nat>)
    requires n <= |s|
  {
    && Increasing(at)
    && (forall k :: 0 <= k < |at| ==> at[k] < n && wanted(s[at[k]]))
    && (forall i {:trigger i in at} :: 0 <= i < n && wanted(s[i]) ==> i in at)
  }

  lemma SelectsOneMore<T(!new)>(s: seq<T>, wanted: T -> bool, n: nat, at: seq<nat>)
    requires n < |s| && SelectsUpTo(s, wanted, n, at)
    ensures wanted(s[n]) ==> SelectsUpTo(s, wanted, n + 1, at + [n])
    ensures !wanted(s[n]) ==> SelectsUpTo(s, wanted, n + 1, at)
  {
    if wanted(s[n]) {
      var at' := at + [n];
      forall k | 0 <= k < |at'|
        ensures at'[k] < n + 1 && wanted(s[at'[k]])
      {
      }
      assert Increasing(at');
      forall i | 0 <= i < n + 1 && wanted(s[i])
        ensures i in at'
      {
        assert i == n || i in at;
        assert at'[|at|] == n;
      }
    }
  }

  /** The wanted elements of `s`. */
  ghost predicate Selects<T(!new)>(s: seq<T>, wanted: T -> bool, at: seq<nat>) {
    SelectsUpTo(s, wanted, |s|, at)
  }

  lemma {:induction false} IncreasingIsUnique(a: seq<nat>, b: seq<nat>)
    requires Increasing(a) && Increasing(b)
    requires forall i :: i in a <==> i in b
    ensures a == b
  {
    assert b != [] ==> b[0] in b;
    if a == [] {
    } else {
      assert a[|a| - 1] in a;
      var m, n := |a| - 1, |b| - 1;
      assert b[n] in b;
      assert a[m] == b[n];
      forall i
        ensures i in a[..m] <==> i in b[..n]
      {
        assert i in a <==> i in a[..m] || i == a[m];
        assert i in b <==> i in b[..n] || i == b[n];
      }
      IncreasingIsUnique(a[..m], b[..n]);
    }
  }

  /** There is only one such list of positions. */
  lemma SelectsIsUnique<T(!new)>(s: seq<T>, wanted: T -> bool, a: seq<nat>, b: seq<nat>)
    requires Selects(s, wanted, a) && Selects(s, wanted, b)
    ensures a == b
  {
    IncreasingIsUnique(a, b);
  }

  // The type codes of `MmsType`.
  const MMS_ARRAY := 0
  const MMS_STRUCTURE := 1
  const MMS_BOOLEAN := 2
  const MMS_BIT_STRING := 3
  const MMS_INTEGER := 4
  const MMS_UNSIGNED := 5
  const MMS_FLOAT := 6
  const MMS_OCTET_STRING := 7
  const MMS_VISIBLE_STRING := 8
  const MMS_GENERALIZED_TIME := 9
  const MMS_BINARY_TIME := 10
  const MMS_BCD := 11
  const MMS_OBJ_ID := 12
  const MMS_STRING := 13
  const MMS_UTC_TIME := 14
  const MMS_DATA_ACCESS_ERROR := 15

  /** The types that no decoder of this client looks into. */
  type OtherType = t: int |
    t == MMS_GENERALIZED_TIME || t == MMS_BINARY_TIME || t == MMS_BCD || t == MMS_OBJ_ID || t == MMS_DATA_ACCESS_ERROR
    witness MMS_BCD

  /** An `MmsValue*`. Each scalar carries what the library's accessor for its type returns. */
  datatype MmsValue =
    | Null
    | Boolean(b: bool)
    | Float(d: real)
    | Integer(i: int64)
    | Unsigned(i: int64)
    | Text(s: CString)
    | VisibleString(s: CString)
    | OctetString(s: CString)
    | BitString(bits: uint32)
    | UtcTime(seconds: uint32)
    | Other(code: OtherType)
    | Structure(elems: seq<MmsValue>)
    | Array(elems: seq<MmsValue>)
  {
    predicate IsComplex() {
      Structure? || Array?
    }

    /** `MmsValue_getType` */
    function Type(): int
      requires !Null?
    {
      match this
      case Boolean(_) => MMS_BOOLEAN
      case Float(_) => MMS_FLOAT
      case Integer(_) => MMS_INTEGER
      case Unsigned(_) => MMS_UNSIGNED
      case Text(_) => MMS_STRING
      case VisibleString(_) => MMS_VISIBLE_STRING
      case OctetString(_) => MMS_OCTET_STRING
      case BitString(_) => MMS_BIT_STRING
      case UtcTime(_) => MMS_UTC_TIME
      case Other(c) => c
      case Structure(_) => MMS_STRUCTURE
      case Array(_) => MMS_ARRAY
    }

    /** `MmsValue_getArraySize` */
    function Size(): nat {
      if IsComplex() then |elems| else 0
    }

    /** `MmsValue_getElement`: null when the value is not complex or the index is out of range. */
    function Element(index: int): MmsValue {
      if IsComplex() && 0 <= index < |elems| then elems[index] else Null
    }
  }

  /** The elements before the first null one: what a loop sees that stops at the first null. */
  function Visible(es: seq<MmsValue>): (r: seq<MmsValue>)
    ensures r <= es
    ensures forall e :: e in r ==> !e.Null?
    ensures |r| < |es| ==> es[|r|].Null?
  {
    if es == [] || es[0].Null? then [] else [es[0]] + Visible(es[1..])
  }

  /** The members of a data set that both the C bridge's passes reach. */
  function Members(values: MmsValue): seq<MmsValue> {
    if values.IsComplex() then Visible(values.elems) else []
  }

  /** Asking for element after element until one is null visits exactly the members, and then stops. */
  lemma ElementsUntilNull(values: MmsValue, n: nat)
    ensures (forall i :: 0 <= i < n ==> !values.Element(i).Null?) <==> n <= |Members(values)|
    ensures n < |Members(values)| ==> values.Element(n) == Members(values)[n]
  {
    if values.IsComplex() {
      var seen := Visible(values.elems);
      assert forall i :: 0 <= i < |seen| ==> seen[i] in seen && seen[i] == values.elems[i];
    }
    assert values.Element(|Members(values)|).Null?;
  }

  /** A Go `interface{}`. A nil slice and an empty slice are the same value here. */
  datatype GoValue =
    | Nil
    | Bool(b: bool)
    | Float64(d: real)
    | Int64(i: int64)
    | Uint32(u: uint32)
    | Int(n: int)                           // an untyped Go constant boxed as `int`
    | Str(s: string)
    | Slice(items: seq<GoValue>)            // []interface{}
    | Typed(members: seq<GoMmsValue>)       // []GoMmsValue
    | Indeterminate                         // computed from memory nobody wrote

  datatype GoMmsValue = GoMmsValue(typ: int, value: GoValue)
}
