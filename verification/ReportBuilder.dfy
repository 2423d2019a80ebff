/** The Go side of a received report: the token extractor and the report built from its entries. */
module ReportBuilder {
  import opened Mms
  import opened FlatCodec
  import opened ReportBridge

  const REASON_NOT_INCLUDED := 0

  type uint16 = u: int | 0 <= u < 0x1_0000
  type uint64 = u: int | 0 <= u < 0x1_0000_0000_0000_0000

  /** What the library tells about one received report. */
  datatype ClientReport = ClientReport(
    dataSetName: CString,
    seqNum: Option<uint16>,
    timestamp: Option<uint64>,
    values: MmsValue,
    hasReason: bool,
    reason: int -> int
  )

  datatype ReportEntry = ReportEntry(value: GoValue, reason: int)

  datatype Report = Report(rcbRef: string, dataSetRef: string, sequenceNo: uint16, timestamp: uint64,
                           entries: seq<ReportEntry>)

  /** The extractor with its cursor passed in and returned. */
  method ExtractFlatValue(flat: seq<FlatToken>, pos: nat) returns (value: GoValue, next: nat)
    ensures Extracted(value, next) == Extract(flat, pos)
    decreases |flat| - pos
  {
    next := pos;
    if next >= |flat| {
      return Nil, next;
    }
    var elem := flat[next];
    next := next + 1;
    if IsStartMarker(elem) {
      var subs := [];
      while next < |flat|
        invariant pos < next <= |flat|
        invariant ExtractItems(flat, pos + 1).items == subs + ExtractItems(flat, next).items
        invariant ExtractItems(flat, pos + 1).pos == ExtractItems(flat, next).pos
      {
        if IsEndMarker(flat[next]) {
          assert subs + [] == subs;
          return Slice(subs), next + 1;
        }
        var sub;
        sub, next := ExtractFlatValue(flat, next);
        subs := subs + [sub];
      }
      assert subs + [] == subs;
      return Slice(subs), next;
    }
    return Scalar(elem), next;
  }

  /** The loop of `buildReport`, over any tokens whatever. */
  method BuildEntries(flat: seq<FlatToken>, report: ClientReport) returns (entries: seq<ReportEntry>)
    ensures |entries| == |EntryValues(flat, 0)|
    ensures forall i :: 0 <= i < |entries| ==>
              entries[i] == ReportEntry(EntryValues(flat, 0)[i], if report.hasReason then report.reason(i) else 0)
  {
    entries := [];
    var pos, i := 0, 0;
    while pos < |flat|
      invariant pos <= |flat|
      invariant i == |entries| && |EntryValues(flat, 0)| == i + |EntryValues(flat, pos)|
      invariant EntryValues(flat, 0)[i..] == EntryValues(flat, pos)
      invariant forall k :: 0 <= k < i ==>
                  entries[k] == ReportEntry(EntryValues(flat, 0)[k], if report.hasReason then report.reason(k) else 0)
      decreases |flat| - pos
    {
      var reason := REASON_NOT_INCLUDED;
      if report.hasReason {
        reason := report.reason(i);
      }
      assert EntryValues(flat, 0)[i] == EntryValues(flat, 0)[i..][0];
      assert EntryValues(flat, 0)[i + 1..] == EntryValues(flat, 0)[i..][1..];
      var value;
      value, pos := ExtractFlatValue(flat, pos);
      entries := entries + [ReportEntry(value, reason)];
      i := i + 1;
    }
  }

  /** Entry `i` carries member `i`'s value and reason code, however deep the members. */
  function EntriesOf(cr: ClientReport): seq<ReportEntry> {
    var members := Members(cr.values);
    seq(|members|, i requires 0 <= i < |members| =>
      ReportEntry(View(members[i]), if cr.hasReason then cr.reason(i) else REASON_NOT_INCLUDED))
  }

  /** The Go report of a library report: one entry per member up to the first null one, if malloc succeeds. */
  function ReportOf(rcbRef: string, cr: ClientReport, mallocOk: bool): (r: Report)
    ensures r.rcbRef == rcbRef
    ensures cr.dataSetName == None ==> r.dataSetRef == ""
    ensures forall t :: cr.dataSetName == Some(t) ==> r.dataSetRef == t
    ensures cr.seqNum == None ==> r.sequenceNo == 0
    ensures forall n :: cr.seqNum == Some(n) ==> r.sequenceNo == n
    ensures cr.timestamp == None ==> r.timestamp == 0
    ensures forall n :: cr.timestamp == Some(n) ==> r.timestamp == n
    ensures |r.entries| == if mallocOk then |Members(cr.values)| else 0
    ensures forall i :: 0 <= i < |r.entries| ==> r.entries[i].value == View(Members(cr.values)[i])
    ensures cr.hasReason ==> forall i :: 0 <= i < |r.entries| ==> r.entries[i].reason == cr.reason(i)
    ensures !cr.hasReason ==> forall i :: 0 <= i < |r.entries| ==> r.entries[i].reason == 0
  {
    Report(
      rcbRef,
      GoString(cr.dataSetName),
      if cr.seqNum.Some? then cr.seqNum.value else 0,
      if cr.timestamp.Some? then cr.timestamp.value else 0,
      if mallocOk then EntriesOf(cr) else []
    )
  }

  /** The entries, through the C array. Nothing is read from it that was not written. */
  method ReadEntries(cr: ClientReport, mallocOk: bool) returns (entries: seq<ReportEntry>)
    ensures entries == if mallocOk then EntriesOf(cr) else []
    ensures forall i :: 0 <= i < |entries| ==> Determinate(entries[i].value)
  {
    ghost var members := Members(cr.values);
    var arr, count := FlattenReportDataSet(cr.values, mallocOk);
    if arr == null || count <= 0 {
      CountIsZero(members);
      return [];
    }
    entries := BuildEntries(arr[..], cr);
    EntriesOfMembers(members, arr[..], 0);
    forall i | 0 <= i < |members| {
      ViewIsDeterminate(members[i]);
    }
  }

  /** From the library's report to the Go one. */
  method BuildReport(rcbRef: string, cr: ClientReport, mallocOk: bool) returns (r: Report)
    ensures r == ReportOf(rcbRef, cr, mallocOk)
    ensures r.dataSetRef == if cr.dataSetName.Some? then cr.dataSetName.value else ""
    ensures |r.entries| == if mallocOk then |Members(cr.values)| else 0
    ensures forall i :: 0 <= i < |r.entries| ==> r.entries[i].value == View(Members(cr.values)[i])
    ensures forall i :: 0 <= i < |r.entries| ==> r.entries[i].reason == if cr.hasReason then cr.reason(i) else 0
    ensures forall i :: 0 <= i < |r.entries| ==> Determinate(r.entries[i].value)
  {
    r := Report(rcbRef, "", 0, 0, []);
    if cr.dataSetName.Some? {
      r := r.(dataSetRef := cr.dataSetName.value);
    }
    if cr.seqNum.Some? {
      r := r.(sequenceNo := cr.seqNum.value);
    }
    if cr.timestamp.Some? {
      r := r.(timestamp := cr.timestamp.value);
    }
    var entries := ReadEntries(cr, mallocOk);
    r := r.(entries := entries);
  }
}
