/**
 The JIT memory mapper on its page-protection path, with its audit (native/bridge/ckc_llvm.cpp,
 `CkcInProcessMemoryMapper` and `ckc_llvm_jit_memory_audit`).
 */
module MemoryMapper {
  import opened Basics
  import opened PageTable
  import opened MapperLedger

  datatype Audit = Audit(
    allocations: nat,
    sawRelocationAllocation: bool,
    relocationWriteNonExecute: bool,
    sawFinalCode: bool,
    finalCodeReadExecute: bool,
    sawFinalData: bool,
    finalDataNonExecute: bool)

  datatype AuditReport = AuditReport(
    allocations: nat,
    relocationWriteNonExecute: bool,
    finalCodeReadExecute: bool,
    finalDataNonExecute: bool)

  function Report(audit: Audit): AuditReport {
    AuditReport(
      audit.allocations,
      audit.sawRelocationAllocation && audit.relocationWriteNonExecute,
      audit.sawFinalCode && audit.finalCodeReadExecute,
      audit.sawFinalData && audit.finalDataNonExecute)
  }

  /** What the audit notices about segments: code, code that is not exactly read-execute, data, write-and-execute. */
  datatype Traits = Traits(code: bool, badCode: bool, data: bool, mixed: bool) {
    function Or(other: Traits): Traits {
      Traits(code || other.code, badCode || other.badCode, data || other.data, mixed || other.mixed)
    }
  }

  const NO_TRAITS := Traits(false, false, false, false)

  function TraitsOf(s: Segment): Traits {
    var code := Size(s) > 0 && s.protection.execute;
    Traits(code, code && !(s.protection.read && !s.protection.write), Size(s) > 0 && !s.protection.execute,
           Size(s) > 0 && WriteExecute(s.protection))
  }

  function SegmentTraits(segments: seq<Segment>): Traits {
    if segments == [] then NO_TRAITS
    else SegmentTraits(segments[..|segments| - 1]).Or(TraitsOf(segments[|segments| - 1]))
  }

  /** All segments of all successful initializations. */
  function SegmentsOf(records: seq<Record>): seq<Segment> {
    if records == [] then []
    else SegmentsOf(records[..|records| - 1]) + records[|records| - 1].segments
  }

  lemma {:induction false} TraitsOfMore(a: seq<Segment>, b: seq<Segment>)
    ensures SegmentTraits(a + b) == SegmentTraits(a).Or(SegmentTraits(b))
  {
    if b == [] {
      assert a + b == a;
    } else {
      var n := |b| - 1;
      assert a + b == (a + b[..n]) + [b[n]] && (a + b)[..|a + b| - 1] == a + b[..n];
      TraitsOfMore(a, b[..n]);
    }
  }

  /** Each trait is that of some segment. */
  lemma {:induction false} SegmentTraitsMean(segments: seq<Segment>)
    ensures var t := SegmentTraits(segments);
            && (t.code <==> exists k :: 0 <= k < |segments| && TraitsOf(segments[k]).code)
            && (t.badCode <==> exists k :: 0 <= k < |segments| && TraitsOf(segments[k]).badCode)
            && (t.data <==> exists k :: 0 <= k < |segments| && TraitsOf(segments[k]).data)
            && (t.mixed <==> exists k :: 0 <= k < |segments| && TraitsOf(segments[k]).mixed)
  {
    if segments != [] {
      var n := |segments| - 1;
      SegmentTraitsMean(segments[..n]);
      assert forall k :: 0 <= k < n ==> segments[..n][k] == segments[k];
    }
  }

  /** Pages that are writable and executable are code that is not read-execute. */
  lemma {:induction false} MixedIsBadCode(segments: seq<Segment>)
    ensures SegmentTraits(segments).mixed ==> SegmentTraits(segments).badCode
    ensures SegmentTraits(segments).badCode ==> SegmentTraits(segments).code
  {
    if segments != [] {
      MixedIsBadCode(segments[..|segments| - 1]);
    }
  }

  /** The audit flags say exactly what the successful initializations were. */
  ghost predicate AuditAgrees(audit: Audit, records: seq<Record>) {
    var t := SegmentTraits(SegmentsOf(records));
    && audit.allocations == |records|
    && audit.relocationWriteNonExecute && audit.finalDataNonExecute
    && audit.sawFinalCode == t.code && audit.sawFinalData == t.data
    && audit.finalCodeReadExecute == !t.badCode
  }

  /** The audit after one more successful initialization. */
  function Noted(audit: Audit, traits: Traits): Audit {
    audit.(
      allocations := audit.allocations + 1,
      sawFinalCode := audit.sawFinalCode || traits.code,
      sawFinalData := audit.sawFinalData || traits.data,
      finalCodeReadExecute := audit.finalCodeReadExecute && !traits.badCode)
  }

  lemma {:induction false} SegmentsInclude(records: seq<Record>, i: nat, k: nat)
    requires i < |records| && k < |records[i].segments|
    ensures exists j :: 0 <= j < |SegmentsOf(records)| && SegmentsOf(records)[j] == records[i].segments[k]
  {
    var n := |records| - 1;
    var front := SegmentsOf(records[..n]);
    if i < n {
      SegmentsInclude(records[..n], i, k);
      var j :| 0 <= j < |front| && front[j] == records[i].segments[k];
      assert SegmentsOf(records)[j] == front[j];
    } else {
      assert SegmentsOf(records)[|front| + k] == records[n].segments[k];
    }
  }

  lemma {:induction false} SegmentComesFrom(records: seq<Record>, j: nat) returns (i: nat, k: nat)
    requires j < |SegmentsOf(records)|
    ensures i < |records| && k < |records[i].segments| && SegmentsOf(records)[j] == records[i].segments[k]
  {
    var n := |records| - 1;
    var front := SegmentsOf(records[..n]);
    if j < |front| {
      i, k := SegmentComesFrom(records[..n], j);
    } else {
      i, k := n, j - |front|;
    }
  }

  /** Segment k of initialization i has bytes, and they can, or cannot, be executed. */
  ghost predicate Asked(records: seq<Record>, i: nat, k: nat, execute: bool) {
    && i < |records| && k < |records[i].segments|
    && var s := records[i].segments[k];
       s.contentSize + s.zeroFillSize > 0 && s.protection.execute == execute
  }

  ghost predicate AskedFor(records: seq<Record>, execute: bool) {
    exists i: nat, k: nat :: Asked(records, i, k, execute)
  }

  ghost predicate CodeIsReadExecute(records: seq<Record>) {
    forall i: nat, k: nat :: Asked(records, i, k, true) ==>
      records[i].segments[k].protection == Protection(true, false, true)
  }

  /** The segments of all records are those of the initializations, one by one. */
  lemma SegmentsAre(records: seq<Record>, s: Segment)
    ensures s in SegmentsOf(records) <==>
              exists i: nat, k: nat :: i < |records| && k < |records[i].segments| && records[i].segments[k] == s
  {
    if s in SegmentsOf(records) {
      var j: nat :| j < |SegmentsOf(records)| && SegmentsOf(records)[j] == s;
      var i, k := SegmentComesFrom(records, j);
    }
    if i: nat, k: nat :| i < |records| && k < |records[i].segments| && records[i].segments[k] == s {
      SegmentsInclude(records, i, k);
    }
  }

  lemma CodeMeans(records: seq<Record>)
    ensures SegmentTraits(SegmentsOf(records)).code <==> AskedFor(records, true)
  {
    var all := SegmentsOf(records);
    SegmentTraitsMean(all);
    hide SegmentsOf, SegmentTraits;
    forall i: nat, k: nat | Asked(records, i, k, true) ensures SegmentTraits(all).code {
      SegmentsAre(records, records[i].segments[k]);
    }
    if j: nat :| j < |all| && TraitsOf(all[j]).code {
      SegmentsAre(records, all[j]);
      var i: nat, k: nat :| i < |records| && k < |records[i].segments| && records[i].segments[k] == all[j];
      assert Asked(records, i, k, true);
    }
  }

  lemma DataMeans(records: seq<Record>)
    ensures SegmentTraits(SegmentsOf(records)).data <==> AskedFor(records, false)
  {
    var all := SegmentsOf(records);
    SegmentTraitsMean(all);
    hide SegmentsOf, SegmentTraits;
    forall i: nat, k: nat | Asked(records, i, k, false) ensures SegmentTraits(all).data {
      SegmentsAre(records, records[i].segments[k]);
    }
    if j: nat :| j < |all| && TraitsOf(all[j]).data {
      SegmentsAre(records, all[j]);
      var i: nat, k: nat :| i < |records| && k < |records[i].segments| && records[i].segments[k] == all[j];
      assert Asked(records, i, k, false);
    }
  }

  lemma BadCodeMeans(records: seq<Record>)
    ensures SegmentTraits(SegmentsOf(records)).badCode <==> !CodeIsReadExecute(records)
  {
    var all := SegmentsOf(records);
    SegmentTraitsMean(all);
    hide SegmentsOf, SegmentTraits;
    if !CodeIsReadExecute(records) {
      var i: nat, k: nat :| Asked(records, i, k, true)
                            && records[i].segments[k].protection != Protection(true, false, true);
      SegmentsAre(records, records[i].segments[k]);
    }
    if j: nat :| j < |all| && TraitsOf(all[j]).badCode {
      SegmentsAre(records, all[j]);
      var i: nat, k: nat :| i < |records| && k < |records[i].segments| && records[i].segments[k] == all[j];
      assert Asked(records, i, k, true);
    }
  }

  /** The byte at this address lies in the page and in the segment. */
  ghost predicate InBoth(pageSize: nat, mappingBase: nat, s: Segment, page: nat, address: nat) {
    && page <= address < page + pageSize
    && mappingBase + s.offset <= address < mappingBase + s.offset + s.contentSize + s.zeroFillSize
  }

  /** A page is that of a segment exactly when it holds one of the segment's bytes. */
  lemma PageOfSegment(pageSize: nat, mappingBase: nat, s: Segment, page: nat)
    requires pageSize > 0
    ensures InSegment(pageSize, mappingBase, s, page) <==>
              exists address: nat :: InBoth(pageSize, mappingBase, s, page, address)
  {
    var start := mappingBase + s.offset;
    if InSegment(pageSize, mappingBase, s, page) {
      assert InBoth(pageSize, mappingBase, s, page, if page <= start then start else page);
    }
  }

  lemma AuditStep(audit: Audit, records: seq<Record>, r: Record)
    requires AuditAgrees(audit, records)
    ensures AuditAgrees(Noted(audit, SegmentTraits(r.segments)), records + [r])
    ensures SegmentTraits(SegmentsOf(records + [r])) == SegmentTraits(SegmentsOf(records)).Or(SegmentTraits(r.segments))
  {
    assert (records + [r])[..|records|] == records;
    TraitsOfMore(SegmentsOf(records), r.segments);
  }

  /** Every mapped page outside live allocations is read-write and not executable, except the stray ones. */
  ghost predicate PagesClean(pageSize: nat, table: Table, allocations: map<nat, Allocation>, stray: set<nat>) {
    forall p :: p in table && p !in stray && Outside(pageSize, allocations, p) ==> table[p] == READ_WRITE
  }

  ghost predicate Outside(pageSize: nat, allocations: map<nat, Allocation>, page: nat) {
    forall b :: b in allocations ==> !Covers(pageSize, b, allocations[b].size, page)
  }

  ghost predicate InSegment(pageSize: nat, mappingBase: nat, s: Segment, page: nat) {
    Size(s) > 0 && Covers(pageSize, mappingBase + s.offset, Size(s), page)
  }

  /** No two segments share a page. */
  ghost predicate PageDisjoint(pageSize: nat, mappingBase: nat, segments: seq<Segment>) {
    forall j, k, p :: 0 <= j < k < |segments| ==>
      !(InSegment(pageSize, mappingBase, segments[j], p) && InSegment(pageSize, mappingBase, segments[k], p))
  }

  /** The page shares no byte with any of the first n segments. */
  ghost predicate Untouched(pageSize: nat, mappingBase: nat, segments: seq<Segment>, n: nat, page: nat)
    requires n <= |segments|
  {
    forall k :: 0 <= k < n ==> !InSegment(pageSize, mappingBase, segments[k], page)
  }

  /** Pages outside the first n segments are as they were. */
  ghost predicate OnlySegments(pageSize: nat, mappingBase: nat, segments: seq<Segment>, n: nat, was: Table, now: Table)
    requires n <= |segments| && was.Keys == now.Keys
  {
    forall p :: p in now && Untouched(pageSize, mappingBase, segments, n, p) ==> now[p] == was[p]
  }

  /** Every page of each of the first n segments has the protection that segment asks for. */
  ghost predicate Protected(pageSize: nat, mappingBase: nat, segments: seq<Segment>, n: nat, table: Table)
    requires n <= |segments|
  {
    forall k, p :: 0 <= k < n && p in table && InSegment(pageSize, mappingBase, segments[k], p) ==>
      table[p] == segments[k].protection
  }

  /** One protection change touches only its own segment. */
  ghost predicate OnlySegment(pageSize: nat, mappingBase: nat, s: Segment, before: Table, after: Table)
    requires before.Keys == after.Keys
  {
    forall p :: p in after && !InSegment(pageSize, mappingBase, s, p) ==> after[p] == before[p]
  }

  lemma OnlySegmentsStep(pageSize: nat, mappingBase: nat, segments: seq<Segment>, i: nat,
                         start: Table, before: Table, after: Table)
    requires i < |segments| && start.Keys == before.Keys == after.Keys
    requires OnlySegments(pageSize, mappingBase, segments, i, start, before)
    requires OnlySegment(pageSize, mappingBase, segments[i], before, after)
    ensures OnlySegments(pageSize, mappingBase, segments, i + 1, start, after)
    ensures OnlySegments(pageSize, mappingBase, segments, |segments|, start, after)
  {
    forall p | p in after && Untouched(pageSize, mappingBase, segments, i + 1, p) ensures after[p] == start[p] {
      assert !InSegment(pageSize, mappingBase, segments[i], p);
      assert Untouched(pageSize, mappingBase, segments, i, p);
    }
    forall p | p in after && Untouched(pageSize, mappingBase, segments, |segments|, p) ensures after[p] == start[p] {
      assert Untouched(pageSize, mappingBase, segments, i + 1, p);
    }
  }

  lemma ProtectedStep(pageSize: nat, mappingBase: nat, segments: seq<Segment>, i: nat, before: Table, after: Table)
    requires i < |segments| && before.Keys == after.Keys
    requires PageDisjoint(pageSize, mappingBase, segments)
    requires Protected(pageSize, mappingBase, segments, i, before)
    requires OnlySegment(pageSize, mappingBase, segments[i], before, after)
    requires forall p :: p in after && InSegment(pageSize, mappingBase, segments[i], p) ==>
               after[p] == segments[i].protection
    ensures Protected(pageSize, mappingBase, segments, i + 1, after)
  {
    forall k, p | 0 <= k < i + 1 && p in after && InSegment(pageSize, mappingBase, segments[k], p)
      ensures after[p] == segments[k].protection
    {
      if k < i {
        assert !InSegment(pageSize, mappingBase, segments[i], p);
      }
    }
  }

  /** Every page of every segment is among these. */
  ghost predicate AllSegmentsMapped(pageSize: nat, pages: set<nat>, mappingBase: nat, segments: seq<Segment>)
    requires pageSize > 0
  {
    forall k :: 0 <= k < |segments| && Size(segments[k]) > 0 ==>
      AllMapped(pageSize, pages, mappingBase + segments[k].offset, Size(segments[k]))
  }

  /** The distance from the lowest to the highest byte; zero when there is none. */
  function Extent(mappingBase: nat, segments: seq<Segment>): nat {
    AllocationOf(Record(mappingBase, segments, Lowest(mappingBase, segments), [])).size
  }

  lemma OutsideTheHull(pageSize: nat, mappingBase: nat, segments: seq<Segment>, page: nat)
    requires Addressable(mappingBase, segments)
    requires !Covers(pageSize, Lowest(mappingBase, segments), Extent(mappingBase, segments), page)
    ensures Untouched(pageSize, mappingBase, segments, |segments|, page)
  {
    HullContains(mappingBase, segments);
  }

  /** The pages of a range. */
  function PagesIn(pageSize: nat, table: Table, base: nat, size: nat): set<nat> {
    set p | p in table && Covers(pageSize, base, size, p)
  }

  /** The pages of the live allocation at `base`, if there is one. */
  function PagesAt(pageSize: nat, table: Table, allocations: map<nat, Allocation>, base: nat): set<nat> {
    if base in allocations then PagesIn(pageSize, table, base, allocations[base].size) else {}
  }

  /** Pages changed only inside a range that is now a live allocation; one that it replaced leaves its pages stray. */
  lemma AllocatedIsClean(pageSize: nat, before: Table, after: Table, allocations: map<nat, Allocation>,
                         base: nat, allocation: Allocation, stray: set<nat>)
    requires PagesClean(pageSize, before, allocations, stray)
    requires after.Keys == before.Keys
    requires forall p :: p in after && !Covers(pageSize, base, allocation.size, p) ==> after[p] == before[p]
    ensures PagesClean(pageSize, after, allocations[base := allocation],
                       stray + PagesAt(pageSize, after, allocations, base))
  {
    var more, rest := allocations[base := allocation], stray + PagesAt(pageSize, after, allocations, base);
    forall p | p in after && p !in rest && Outside(pageSize, more, p) ensures after[p] == READ_WRITE {
      assert !Covers(pageSize, base, more[base].size, p);
      forall b | b in allocations ensures !Covers(pageSize, b, allocations[b].size, p) {
        assert b != base ==> more[b] == allocations[b];
      }
    }
  }

  /** After the segment loop the pages are clean again, with the new allocation live or its range set aside. */
  lemma InitializedPages(pageSize: nat, record: Record, before: Table, after: Table,
                         allocations: map<nat, Allocation>, stray: set<nat>)
    requires Addressable(record.mappingBase, record.segments) && before.Keys == after.Keys
    requires record.base == Lowest(record.mappingBase, record.segments)
    requires PagesClean(pageSize, before, allocations, stray)
    requires OnlySegments(pageSize, record.mappingBase, record.segments, |record.segments|, before, after)
    ensures PagesClean(pageSize, after, allocations,
                       stray + PagesIn(pageSize, after, record.base, Extent(record.mappingBase, record.segments)))
    ensures PagesClean(pageSize, after, allocations[record.base := AllocationOf(record)],
                       stray + PagesAt(pageSize, after, allocations, record.base))
  {
    forall p | p in after && !Covers(pageSize, record.base, AllocationOf(record).size, p)
      ensures after[p] == before[p]
    {
      OutsideTheHull(pageSize, record.mappingBase, record.segments, p);
    }
    AllocatedIsClean(pageSize, before, after, allocations, record.base, AllocationOf(record), stray);
  }

  /** An allocation is gone and its pages are read-write again, or set aside as stray. */
  lemma FreedIsClean(pageSize: nat, before: Table, after: Table, allocations: map<nat, Allocation>, base: nat,
                     stray: set<nat>, more: set<nat>)
    requires PagesClean(pageSize, before, allocations, stray) && base in allocations
    requires after.Keys == before.Keys && stray <= more
    requires forall p :: p in after ==>
               if Covers(pageSize, base, allocations[base].size, p) then after[p] == READ_WRITE || p in more
               else after[p] == before[p]
    ensures PagesClean(pageSize, after, allocations - {base}, more)
  {
    var fewer := allocations - {base};
    forall p | p in after && p !in more && Outside(pageSize, fewer, p) ensures after[p] == READ_WRITE {
      if !Covers(pageSize, base, allocations[base].size, p) {
        forall b | b in allocations ensures !Covers(pageSize, b, allocations[b].size, p) {
          assert b != base ==> fewer[b] == allocations[b];
        }
      }
    }
  }

  lemma FewerPagesAreClean(pageSize: nat, before: Table, after: Table, allocations: map<nat, Allocation>,
                           stray: set<nat>)
    requires PagesClean(pageSize, before, allocations, stray)
    requires forall p :: p in after ==> p in before && after[p] == before[p]
    ensures PagesClean(pageSize, after, allocations, stray * after.Keys)
  {
  }

  /** Fresh pages are clean wherever they are. */
  lemma MappedIsClean(pageSize: nat, before: Table, after: Table, allocations: map<nat, Allocation>, stray: set<nat>)
    requires PagesClean(pageSize, before, allocations, stray)
    requires forall p :: p in after ==> if p in before then after[p] == before[p] else after[p] == READ_WRITE
    ensures PagesClean(pageSize, after, allocations, stray)
  {
  }

  /** The page lies in the range of an allocation that was there and no longer is. */
  ghost predicate InFreed(pageSize: nat, was: map<nat, Allocation>, now: map<nat, Allocation>, page: nat) {
    exists b :: b in was && b !in now && Covers(pageSize, b, was[b].size, page)
  }

  /** Allocations were only removed, and of the pages still mapped only theirs changed. */
  ghost predicate OnlyFreed(pageSize: nat, was: map<nat, Allocation>, now: map<nat, Allocation>,
                            before: Table, after: Table)
  {
    && (forall b :: b in now ==> b in was && now[b] == was[b])
    && (forall p :: p in after ==> p in before && (InFreed(pageSize, was, now, p) || after[p] == before[p]))
  }

  lemma NothingFreed(pageSize: nat, allocations: map<nat, Allocation>, table: Table)
    ensures OnlyFreed(pageSize, allocations, allocations, table, table)
  {
  }

  lemma OnlyFreedStep(pageSize: nat, first: map<nat, Allocation>, was: map<nat, Allocation>, now: map<nat, Allocation>,
                      start: Table, before: Table, after: Table)
    requires OnlyFreed(pageSize, first, was, start, before) && OnlyFreed(pageSize, was, now, before, after)
    ensures OnlyFreed(pageSize, first, now, start, after)
  {
    forall p | p in after ensures p in start && (InFreed(pageSize, first, now, p) || after[p] == start[p]) {
      if InFreed(pageSize, was, now, p) {
        var b :| b in was && b !in now && Covers(pageSize, b, was[b].size, p);
        assert b in first && first[b] == was[b];
      } else if InFreed(pageSize, first, was, p) {
        var b :| b in first && b !in was && Covers(pageSize, b, first[b].size, p);
        assert b !in now;
      }
    }
  }

  /** The mapped pages of the allocations that are gone are read-write. */
  ghost predicate FreedReadWrite(pageSize: nat, was: map<nat, Allocation>, now: map<nat, Allocation>, table: Table) {
    forall p :: p in table && InFreed(pageSize, was, now, p) ==> table[p] == READ_WRITE
  }

  lemma FreedReadWriteNone(pageSize: nat, allocations: map<nat, Allocation>, table: Table)
    ensures FreedReadWrite(pageSize, allocations, allocations, table)
  {
  }

  lemma FreedReadWriteStep(pageSize: nat, first: map<nat, Allocation>, was: map<nat, Allocation>, base: nat,
                           before: Table, after: Table)
    requires FreedReadWrite(pageSize, first, was, before) && before.Keys == after.Keys
    requires base in was && base in first && was[base] == first[base]
    requires forall p :: p in after ==>
               after[p] == if Covers(pageSize, base, was[base].size, p) then READ_WRITE else before[p]
    ensures FreedReadWrite(pageSize, first, was - {base}, after)
  {
    forall p | p in after && InFreed(pageSize, first, was - {base}, p) ensures after[p] == READ_WRITE {
      var b :| b in first && b !in was - {base} && Covers(pageSize, b, first[b].size, p);
      assert b != base ==> InFreed(pageSize, first, was, p);
    }
  }

  lemma UnmappingFreesNothing(pageSize: nat, allocations: map<nat, Allocation>, before: Table, after: Table)
    requires forall p :: p in after ==> p in before && after[p] == before[p]
    ensures OnlyFreed(pageSize, allocations, allocations, before, after)
  {
  }

  /** No page of the record's segments lies in an allocation that is gone. */
  ghost predicate ApartFromFreed(pageSize: nat, record: Record, was: map<nat, Allocation>, now: map<nat, Allocation>) {
    forall k, p :: 0 <= k < |record.segments| && InSegment(pageSize, record.mappingBase, record.segments[k], p) ==>
      !InFreed(pageSize, was, now, p)
  }

  /** Deinitializing and releasing other allocations leaves an allocation's protections as they are. */
  lemma ProtectionSurvivesRelease(pageSize: nat, record: Record, was: map<nat, Allocation>, now: map<nat, Allocation>,
                                  before: Table, after: Table)
    requires OnlyFreed(pageSize, was, now, before, after) && ApartFromFreed(pageSize, record, was, now)
    requires Protected(pageSize, record.mappingBase, record.segments, |record.segments|, before)
    ensures Protected(pageSize, record.mappingBase, record.segments, |record.segments|, after)
  {
  }

  /** The two records' segments share no page. */
  ghost predicate ShareNoPage(pageSize: nat, a: Record, mappingBase: nat, segments: seq<Segment>) {
    forall k, p :: 0 <= k < |a.segments| && InSegment(pageSize, a.mappingBase, a.segments[k], p) ==>
      Untouched(pageSize, mappingBase, segments, |segments|, p)
  }

  /** Initializing other segments, successfully or not, leaves an allocation's protections as they are. */
  lemma ProtectionSurvivesInitialize(pageSize: nat, record: Record, mappingBase: nat, segments: seq<Segment>,
                                     before: Table, after: Table)
    requires before.Keys == after.Keys && ShareNoPage(pageSize, record, mappingBase, segments)
    requires OnlySegments(pageSize, mappingBase, segments, |segments|, before, after)
    requires Protected(pageSize, record.mappingBase, record.segments, |record.segments|, before)
    ensures Protected(pageSize, record.mappingBase, record.segments, |record.segments|, after)
  {
  }

  /** The mapper's books at one moment. */
  datatype Snapshot = Snapshot(
    ledger: Ledger, reservations: map<nat, Reservation>, allocations: map<nat, Allocation>, table: Table)

  /** The page belongs to the block of the reservation at `base`. */
  ghost predicate InBlock(pageSize: nat, reservations: map<nat, Reservation>, base: nat, page: nat) {
    base in reservations && reservations[base].size > 0 && Covers(pageSize, base, reservations[base].size, page)
  }

  lemma BlockOf(pageSize: nat, reservations: map<nat, Reservation>, base: nat)
    requires base in reservations
    ensures forall p :: InBlock(pageSize, reservations, base, p) <==>
              reservations[base].size > 0 && Covers(pageSize, base, reservations[base].size, p)
  {
  }

  /** The page belongs to the block of one of the first n listed reservations. */
  ghost predicate InBlocks(pageSize: nat, reservations: map<nat, Reservation>, bases: seq<nat>, n: nat, page: nat)
    requires n <= |bases|
  {
    exists k :: 0 <= k < n && InBlock(pageSize, reservations, bases[k], page)
  }

  /** Pages outside the first n listed blocks are still mapped. */
  ghost predicate OnlyBlocksGone(pageSize: nat, reservations: map<nat, Reservation>, bases: seq<nat>, n: nat,
                                 before: Table, after: Table)
    requires n <= |bases|
  {
    forall p :: p in before && !InBlocks(pageSize, reservations, bases, n, p) ==> p in after
  }

  /** No page of the first n listed blocks is mapped. */
  ghost predicate BlocksGone(pageSize: nat, reservations: map<nat, Reservation>, bases: seq<nat>, n: nat,
                             after: Table)
    requires n <= |bases|
  {
    forall p :: InBlocks(pageSize, reservations, bases, n, p) ==> p !in after
  }

  lemma OnlyBlocksGoneStep(pageSize: nat, reservations: map<nat, Reservation>, bases: seq<nat>, i: nat,
                           start: Table, before: Table, after: Table)
    requires i < |bases| && OnlyBlocksGone(pageSize, reservations, bases, i, start, before)
    requires forall p :: p in before && !InBlock(pageSize, reservations, bases[i], p) ==> p in after
    ensures OnlyBlocksGone(pageSize, reservations, bases, i + 1, start, after)
  {
    forall p | p in start && !InBlocks(pageSize, reservations, bases, i + 1, p) ensures p in after {
      assert !InBlock(pageSize, reservations, bases[i], p) && !InBlocks(pageSize, reservations, bases, i, p);
    }
  }

  /** A block that is listed again is gone already. */
  lemma BlocksGoneStep(pageSize: nat, reservations: map<nat, Reservation>, bases: seq<nat>, i: nat,
                       before: Table, after: Table)
    requires i < |bases| && BlocksGone(pageSize, reservations, bases, i, before) && after.Keys <= before.Keys
    requires bases[i] in reservations && bases[i] !in bases[..i] ==>
               forall p :: InBlock(pageSize, reservations, bases[i], p) ==> p !in after
    ensures BlocksGone(pageSize, reservations, bases, i + 1, after)
  {
    forall p | InBlocks(pageSize, reservations, bases, i + 1, p) ensures p !in after {
      var k :| 0 <= k < i + 1 && InBlock(pageSize, reservations, bases[k], p);
      if k == i && bases[i] in bases[..i] {
        var j :| 0 <= j < i && bases[j] == bases[i];
        assert InBlock(pageSize, reservations, bases[j], p);
        assert InBlocks(pageSize, reservations, bases, i, p);
      } else if k < i {
        assert InBlocks(pageSize, reservations, bases, i, p);
      }
    }
  }

  /** The page is mapped, and in none of the first n listed blocks. */
  ghost predicate Kept(pageSize: nat, table: Table, reservations: map<nat, Reservation>, bases: seq<nat>, n: nat,
                       page: nat)
    requires n <= |bases|
  {
    page in table && !InBlocks(pageSize, reservations, bases, n, page)
  }

  /** The range of each live allocation in the list of a released reservation is mapped when its turn comes. */
  ghost predicate ListedRangesMapped(pageSize: nat, table: Table, allocations: map<nat, Allocation>,
                                     reservations: map<nat, Reservation>, bases: seq<nat>)
    requires pageSize > 0
  {
    forall k, b, p :: 0 <= k < |bases| && bases[k] in reservations && bases[k] !in bases[..k]
                      && b in reservations[bases[k]].allocations && b in allocations
                      && IsPage(pageSize, p) && Covers(pageSize, b, allocations[b].size, p) ==>
      Kept(pageSize, table, reservations, bases, k, p)
  }

  /** So it is for allocations inside their own reservation's mapped block, when no two blocks share a page. */
  lemma OwnBlocksSuffice(pageSize: nat, table: Table, allocations: map<nat, Allocation>,
                         reservations: map<nat, Reservation>, bases: seq<nat>)
    requires pageSize > 0
    requires forall r, b, p ::
               r in reservations && b in reservations[r].allocations && b in allocations
               && Covers(pageSize, b, allocations[b].size, p) ==>
                 InBlock(pageSize, reservations, r, p)
    requires forall r, p :: InBlock(pageSize, reservations, r, p) && IsPage(pageSize, p) ==> p in table
    requires forall r, s, p :: InBlock(pageSize, reservations, r, p) && InBlock(pageSize, reservations, s, p) ==> r == s
    ensures ListedRangesMapped(pageSize, table, allocations, reservations, bases)
  {
    forall k, b, p: nat | 0 <= k < |bases| && bases[k] in reservations && bases[k] !in bases[..k]
                     && b in reservations[bases[k]].allocations && b in allocations
                     && IsPage(pageSize, p) && Covers(pageSize, b, allocations[b].size, p)
      ensures Kept(pageSize, table, reservations, bases, k, p)
    {
      assert InBlock(pageSize, reservations, bases[k], p);
      forall j | 0 <= j < k ensures !InBlock(pageSize, reservations, bases[j], p) {
        assert bases[..k][j] == bases[j];
      }
    }
  }

  /** What is still mapped of the listed ranges when the turn of a reservation comes. */
  lemma RangesStillMapped(pageSize: nat, start: Table, table: Table, was: map<nat, Allocation>,
                          now: map<nat, Allocation>, reservations: map<nat, Reservation>, bases: seq<nat>, i: nat)
    requires pageSize > 0 && i < |bases| && bases[i] in reservations && bases[i] !in bases[..i]
    requires ListedRangesMapped(pageSize, start, was, reservations, bases)
    requires OnlyBlocksGone(pageSize, reservations, bases, i, start, table)
    requires forall b :: b in now ==> b in was && now[b] == was[b]
    ensures forall b :: b in reservations[bases[i]].allocations && b in now ==>
              AllMapped(pageSize, table.Keys, b, now[b].size)
  {
    forall b, p: nat | b in reservations[bases[i]].allocations && b in now
                  && IsPage(pageSize, p) && Covers(pageSize, b, now[b].size, p)
      ensures p in table
    {
      assert Kept(pageSize, start, reservations, bases, i, p);
    }
  }

  class Mapper {
    const kernel: Kernel
    var audit: Audit
    var reservations: map<nat, Reservation>
    var allocations: map<nat, Allocation>
    /** Every deinitialization action that has run, in order. */
    ghost var executed: seq<Action>
    ghost var ledger: Ledger
    ghost var tags: Tags
    /** Pages that a failed operation may have left in any state. */
    ghost var stray: set<nat>
    /** A failed initialization asked for writable and executable pages. */
    ghost var failedMixed: bool

    /** Everything but the findability of live allocations, which a release breaks for a moment. */
    ghost predicate Consistent()
      reads this, kernel
    {
      && kernel.Valid()
      && Core(ledger, allocations, executed) && Tagged(ledger.records, tags, reservations)
      && AuditAgrees(audit, ledger.records)
      && PagesClean(kernel.pageSize, kernel.table, allocations, stray) && stray <= kernel.table.Keys
      && (kernel.everBoth ==> failedMixed || SegmentTraits(SegmentsOf(ledger.records)).mixed)
      && (SegmentTraits(SegmentsOf(ledger.records)).mixed ==> kernel.everBoth)
    }

    ghost predicate Valid()
      reads this, kernel
    {
      Consistent() && Findable(ledger, tags)
    }

    constructor (kernel: Kernel)
      requires kernel.Valid() && kernel.table == map[] && !kernel.everBoth
      ensures Valid() && this.kernel == kernel && !failedMixed && stray == {}
      ensures ledger == Ledger([], map[], [], {}, {}) && audit == Audit(0, false, true, false, true, false, true)
      ensures reservations == map[] && allocations == map[]
    {
      this.kernel := kernel;
      audit := Audit(0, false, true, false, true, false, true);
      reservations, allocations := map[], map[];
      executed, stray, failedMixed := [], {}, false;
      ledger, tags := Ledger([], map[], [], {}, {}), map[];
    }

    /**
     Maps a block at the place the system picked; nothing is recorded when mapping fails.  A reservation that
     was there under the same base is replaced, and what is live in its list is orphaned.
     */
    method Reserve(base: nat, size: nat) returns (ok: bool)
      requires Valid() && kernel.Unused(base, size)
      modifies this`reservations, this`tags, this`ledger, this`audit, kernel
      ensures Valid()
      ensures reservations == if ok then old(reservations)[base := Reservation(size, [])] else old(reservations)
      ensures ledger == if ok then Orphan(old(ledger), base) else old(ledger)
      ensures ok ==> Report(audit).relocationWriteNonExecute
      ensures audit == if ok then old(audit).(sawRelocationAllocation := true) else old(audit)
      ensures ok <==> !kernel.fault(old(kernel.clock))
      ensures kernel.table == if ok then old(kernel.table) + kernel.Fresh(base, size) else old(kernel.table)
      ensures kernel.everBoth == old(kernel.everBoth)
    {
      hide Accounted, PagesClean, TagsMatch, Listed, OrphansPrecede, LiveUnder, SegmentTraits, SegmentsOf;
      ok := kernel.Map(base, size);
      if ok {
        ReserveKeepsTagged(ledger.records, tags, reservations, base, size);
        ReserveKeepsFindable(ledger, tags, base);
        OrphanKeepsCore(ledger, allocations, executed, base);
        ledger := Orphan(ledger, base);
        reservations := reservations[base := Reservation(size, [])];
        tags := tags[base := []];
        audit := audit.(sawRelocationAllocation := true);
      }
      MappedIsClean(kernel.pageSize, old(kernel.table), kernel.table, allocations, stray);
    }

    /** One segment: an empty one is skipped. */
    method ProtectSegment(mappingBase: nat, segment: Segment) returns (ok: bool)
      requires kernel.Valid()
      modifies kernel
      ensures kernel.Valid() && kernel.table.Keys == old(kernel.table).Keys
      ensures OnlySegment(kernel.pageSize, mappingBase, segment, old(kernel.table), kernel.table)
      ensures ok ==> forall p :: p in kernel.table && InSegment(kernel.pageSize, mappingBase, segment, p) ==>
                kernel.table[p] == segment.protection
      ensures if TraitsOf(segment).mixed then ok || old(kernel.everBoth) ==> kernel.everBoth
              else kernel.everBoth == old(kernel.everBoth)
      ensures (&& (forall t :: !kernel.fault(t))
               && (Size(segment) > 0 ==>
                     AllMapped(kernel.pageSize, old(kernel.table).Keys, mappingBase + segment.offset, Size(segment))))
                ==> ok
    {
      ok := true;
      if Size(segment) > 0 {
        ok := kernel.Protect(mappingBase + segment.offset, Size(segment), segment.protection);
      }
    }

    /** The segment loop of an initialization; it stops at the first failing protection change. */
    method ProtectSegments(mappingBase: nat, segments: seq<Segment>)
      returns (ok: bool, minimum: nat, maximum: nat, traits: Traits)
      requires kernel.Valid() && Addressable(mappingBase, segments)
      modifies kernel
      ensures kernel.Valid() && kernel.table.Keys == old(kernel.table).Keys
      ensures ok ==> minimum == Lowest(mappingBase, segments) && maximum == Highest(mappingBase, segments)
      ensures ok ==> traits == SegmentTraits(segments)
      ensures OnlySegments(kernel.pageSize, mappingBase, segments, |segments|, old(kernel.table), kernel.table)
      ensures ok && PageDisjoint(kernel.pageSize, mappingBase, segments) ==>
                Protected(kernel.pageSize, mappingBase, segments, |segments|, kernel.table)
      ensures kernel.everBoth ==> old(kernel.everBoth) || SegmentTraits(segments).mixed
      ensures ok && SegmentTraits(segments).mixed ==> kernel.everBoth
      ensures old(kernel.everBoth) ==> kernel.everBoth
      ensures (&& (forall t :: !kernel.fault(t))
               && AllSegmentsMapped(kernel.pageSize, old(kernel.table).Keys, mappingBase, segments))
                ==> ok
    {
      minimum, maximum, traits := UNSET, 0, NO_TRAITS;
      SegmentTraitsMean(segments);
      ghost var start := kernel.table;
      assert OnlySegments(kernel.pageSize, mappingBase, segments, 0, start, start);
      assert Protected(kernel.pageSize, mappingBase, segments, 0, start);
      hide OnlySegments, Protected, PageDisjoint, OnlySegment, AllSegmentsMapped;
      for i := 0 to |segments|
        invariant kernel.Valid() && kernel.table.Keys == start.Keys
        invariant minimum == Lowest(mappingBase, segments[..i]) && maximum == Highest(mappingBase, segments[..i])
        invariant traits == SegmentTraits(segments[..i])
        invariant OnlySegments(kernel.pageSize, mappingBase, segments, i, start, kernel.table)
        invariant PageDisjoint(kernel.pageSize, mappingBase, segments) ==>
                    Protected(kernel.pageSize, mappingBase, segments, i, kernel.table)
        invariant kernel.everBoth ==> old(kernel.everBoth) || SegmentTraits(segments).mixed
        invariant traits.mixed || old(kernel.everBoth) ==> kernel.everBoth
      {
        var segment := segments[i];
        assert segments[..i + 1][..i] == segments[..i];
        if Size(segment) > 0 {
          var base := mappingBase + segment.offset;
          minimum := if minimum <= base then minimum else base;
          maximum := if maximum >= base + Size(segment) then maximum else base + Size(segment);
        }
        ghost var before := kernel.table;
        ok := ProtectSegment(mappingBase, segment);
        OnlySegmentsStep(kernel.pageSize, mappingBase, segments, i, start, before, kernel.table);
        if !ok {
          return;
        }
        if PageDisjoint(kernel.pageSize, mappingBase, segments) {
          ProtectedStep(kernel.pageSize, mappingBase, segments, i, before, kernel.table);
        }
        traits := traits.Or(TraitsOf(segment));
      }
      assert segments[..|segments|] == segments;
      ok := true;
    }

    /** The bookkeeping of a successful initialization: allocation record, reservation list, audit. */
    method RecordAllocation(record: Record, maximum: nat, traits: Traits)
      requires Core(ledger, allocations, executed) && Tagged(ledger.records, tags, reservations)
      requires Findable(ledger, tags) && AuditAgrees(audit, ledger.records)
      requires record.base <= maximum == Highest(record.mappingBase, record.segments)
      requires traits == SegmentTraits(record.segments)
      modifies this`audit, this`reservations, this`allocations, this`ledger, this`tags
      ensures Core(ledger, allocations, executed) && Tagged(ledger.records, tags, reservations)
      ensures Findable(ledger, tags) && AuditAgrees(audit, ledger.records)
      ensures ledger == Register(old(ledger), record)
      ensures allocations == old(allocations)[record.base := AllocationOf(record)]
      ensures reservations == PushAllocation(old(reservations), record.mappingBase, record.base)
      ensures audit == Noted(old(audit), traits)
      ensures SegmentTraits(SegmentsOf(ledger.records)) == SegmentTraits(SegmentsOf(old(ledger).records)).Or(traits)
    {
      hide Accounted, Mirrors, Tagged, Findable, AuditAgrees, SegmentTraits, SegmentsOf, Highest, Register;
      ghost var was := ledger;
      RegisterKeepsCore(was, allocations, executed, record);
      RegisterTags(was.records, tags, reservations, record);
      RegisterKeepsFindable(was, tags, record);
      AuditStep(audit, was.records, record);
      RegisterAppends(was, record);
      tags := PushTag(tags, record.mappingBase, |was.records|);
      ledger := Register(was, record);
      allocations := allocations[record.base := Allocation(maximum - record.base, record.actions)];
      reservations := PushAllocation(reservations, record.mappingBase, record.base);
      audit := Noted(audit, traits);
    }

    /**
     Finalizes a graph's segments.  `actions` is what running the finalize actions leaves to be done at
     deinitialization, or None when one of them failed.  A live allocation at the same lowest address is
     overwritten: its actions are forgotten and its pages stay as they are.
     */
    method Initialize(mappingBase: nat, segments: seq<Segment>, actions: Option<seq<Action>>) returns (r: Option<nat>)
      requires Valid() && Addressable(mappingBase, segments)
      modifies this`audit, this`reservations, this`allocations, this`ledger, this`tags, this`stray
      modifies this`failedMixed, kernel
      ensures Valid() && kernel.table.Keys == old(kernel.table).Keys
      ensures r.Some? ==>
                && actions.Some? && r.value == Lowest(mappingBase, segments) != UNSET
                && Recorded(Record(mappingBase, segments, r.value, actions.value),
                            old(ledger), old(reservations), old(allocations))
                && stray == old(stray) + PagesAt(kernel.pageSize, kernel.table, old(allocations), r.value)
                && failedMixed == old(failedMixed) && audit == Noted(old(audit), SegmentTraits(segments))
                && (kernel.everBoth <==> old(kernel.everBoth) || SegmentTraits(segments).mixed)
      ensures r.Some? && PageDisjoint(kernel.pageSize, mappingBase, segments) ==>
                Protected(kernel.pageSize, mappingBase, segments, |segments|, kernel.table)
      ensures r.None? ==>
                && ledger == old(ledger) && allocations == old(allocations) && reservations == old(reservations)
                && audit == old(audit)
                && failedMixed == (old(failedMixed) || SegmentTraits(segments).mixed)
                && stray == old(stray) + PagesIn(kernel.pageSize, kernel.table, Lowest(mappingBase, segments),
                                                 Extent(mappingBase, segments))
      ensures OnlySegments(kernel.pageSize, mappingBase, segments, |segments|, old(kernel.table), kernel.table)
      ensures old(kernel.everBoth) ==> kernel.everBoth
      ensures (&& (forall t :: !kernel.fault(t))
               && AllSegmentsMapped(kernel.pageSize, old(kernel.table).Keys, mappingBase, segments)) ==>
                && (r.Some? <==> actions.Some? && Lowest(mappingBase, segments) != UNSET)
                && (kernel.everBoth <==> old(kernel.everBoth) || SegmentTraits(segments).mixed)
    {
      hide *;
      var ok, minimum, maximum, traits := Begin(mappingBase, segments);
      if !ok || minimum == UNSET || actions.None? {
        Abandon(mappingBase, segments, old(kernel.table));
        r := None;
      } else {
        Complete(Record(mappingBase, segments, minimum, actions.value), maximum, traits, old(kernel.table));
        r := Some(minimum);
      }
    }

    /** The record is in the ledger, the reservation's list and the allocation map; nothing else is new there. */
    ghost predicate Recorded(record: Record, ledgerBefore: Ledger, reservationsBefore: map<nat, Reservation>,
                             allocationsBefore: map<nat, Allocation>)
      reads this`ledger, this`reservations, this`allocations
    {
      && ledger == Register(ledgerBefore, record)
      && reservations == PushAllocation(reservationsBefore, record.mappingBase, record.base)
      && allocations == allocationsBefore[record.base := AllocationOf(record)]
    }

    /** The segment loop of an initialization has run on pages that were as in `before`; nothing is recorded yet. */
    ghost predicate Initializing(before: Table, mappingBase: nat, segments: seq<Segment>)
      reads this, kernel
    {
      && kernel.Valid() && kernel.table.Keys == before.Keys && Addressable(mappingBase, segments)
      && Core(ledger, allocations, executed) && Tagged(ledger.records, tags, reservations)
      && Findable(ledger, tags) && AuditAgrees(audit, ledger.records)
      && PagesClean(kernel.pageSize, before, allocations, stray) && stray <= before.Keys
      && OnlySegments(kernel.pageSize, mappingBase, segments, |segments|, before, kernel.table)
      && (kernel.everBoth ==>
            failedMixed || SegmentTraits(SegmentsOf(ledger.records)).mixed || SegmentTraits(segments).mixed)
      && (SegmentTraits(SegmentsOf(ledger.records)).mixed ==> kernel.everBoth)
    }

    /** The segment loop, started in a valid state. */
    method Begin(mappingBase: nat, segments: seq<Segment>)
      returns (ok: bool, minimum: nat, maximum: nat, traits: Traits)
      requires Valid() && Addressable(mappingBase, segments)
      modifies kernel
      ensures Initializing(old(kernel.table), mappingBase, segments) && kernel.table.Keys == old(kernel.table).Keys
      ensures ok ==> minimum == Lowest(mappingBase, segments) && maximum == Highest(mappingBase, segments)
      ensures ok && minimum != UNSET ==> minimum <= maximum
      ensures ok ==> traits == SegmentTraits(segments) && (traits.mixed ==> kernel.everBoth)
      ensures ok && PageDisjoint(kernel.pageSize, mappingBase, segments) ==>
                Protected(kernel.pageSize, mappingBase, segments, |segments|, kernel.table)
      ensures OnlySegments(kernel.pageSize, mappingBase, segments, |segments|, old(kernel.table), kernel.table)
      ensures old(kernel.everBoth) ==> kernel.everBoth
      ensures ok ==> (kernel.everBoth <==> old(kernel.everBoth) || SegmentTraits(segments).mixed)
      ensures (&& (forall t :: !kernel.fault(t))
               && AllSegmentsMapped(kernel.pageSize, old(kernel.table).Keys, mappingBase, segments)) ==>
                ok && (kernel.everBoth <==> old(kernel.everBoth) || SegmentTraits(segments).mixed)
    {
      hide Accounted, Mirrors, Tagged, Findable, PagesClean, OnlySegments, Protected, PageDisjoint, AllSegmentsMapped,
        AuditAgrees, SegmentTraits, SegmentsOf, Lowest, Highest, Addressable;
      HullContains(mappingBase, segments);
      ok, minimum, maximum, traits := ProtectSegments(mappingBase, segments);
    }

    /** A failed initialization records nothing; its pages are set aside. */
    ghost method Abandon(mappingBase: nat, segments: seq<Segment>, before: Table)
      requires Initializing(before, mappingBase, segments)
      modifies this`stray, this`failedMixed
      ensures Valid()
      ensures failedMixed == (old(failedMixed) || SegmentTraits(segments).mixed)
      ensures stray == old(stray) + PagesIn(kernel.pageSize, kernel.table, Lowest(mappingBase, segments),
                                            Extent(mappingBase, segments))
    {
      hide Accounted, Mirrors, Tagged, Findable, PagesClean, OnlySegments, AuditAgrees, SegmentTraits, SegmentsOf;
      InitializedPages(kernel.pageSize, Record(mappingBase, segments, Lowest(mappingBase, segments), []),
                       before, kernel.table, allocations, stray);
      stray := stray + PagesIn(kernel.pageSize, kernel.table, Lowest(mappingBase, segments),
                               Extent(mappingBase, segments));
      failedMixed := failedMixed || SegmentTraits(segments).mixed;
    }

    /** A successful initialization is recorded. */
    method Complete(record: Record, maximum: nat, traits: Traits, ghost before: Table)
      requires Initializing(before, record.mappingBase, record.segments)
      requires record.base == Lowest(record.mappingBase, record.segments) <= maximum
      requires maximum == Highest(record.mappingBase, record.segments) && traits == SegmentTraits(record.segments)
      requires traits.mixed ==> kernel.everBoth
      modifies this`audit, this`reservations, this`allocations, this`ledger, this`tags, this`stray
      ensures Valid() && Recorded(record, old(ledger), old(reservations), old(allocations))
      ensures audit == Noted(old(audit), traits)
      ensures stray == old(stray) + PagesAt(kernel.pageSize, kernel.table, old(allocations), record.base)
    {
      hide Accounted, Mirrors, Tagged, Findable, PagesClean, OnlySegments, AuditAgrees, SegmentTraits, SegmentsOf,
        AllocationOf, Extent, Highest, Lowest, Register, PushAllocation;
      InitializedPages(kernel.pageSize, record, before, kernel.table, allocations, stray);
      stray := stray + PagesAt(kernel.pageSize, kernel.table, allocations, record.base);
      RecordAllocation(record, maximum, traits);
    }

    /** One live allocation: run its actions, last first, make its range read-write, forget it. */
    method DeinitializeOne(base: nat) returns (ok: bool)
      requires Consistent() && base in allocations
      modifies this`allocations, this`executed, this`ledger, this`stray, kernel
      ensures Consistent() && kernel.table.Keys == old(kernel.table).Keys
      ensures allocations == old(allocations) - {base}
      ensures base in old(ledger).live && ledger == Retire(old(ledger), base)
      ensures ok ==> stray == old(stray)
      ensures ok ==> forall p :: p in kernel.table ==>
                kernel.table[p] == if Covers(kernel.pageSize, base, old(allocations)[base].size, p) then READ_WRITE
                                   else old(kernel.table)[p]
      ensures (&& (forall t :: !kernel.fault(t))
               && AllMapped(kernel.pageSize, old(kernel.table).Keys, base, old(allocations)[base].size)) ==> ok
      ensures OnlyFreed(kernel.pageSize, old(allocations), allocations, old(kernel.table), kernel.table)
      ensures kernel.everBoth == old(kernel.everBoth)
    {
      hide Accounted, Tagged, PagesClean, SegmentTraits;
      var allocation := allocations[base];
      RetireKeepsCore(ledger, allocations, executed, base);
      executed := executed + Reverse(allocation.actions);
      ghost var before := kernel.table;
      ok := kernel.Protect(base, allocation.size, READ_WRITE);
      ghost var more := if ok then stray else stray + PagesIn(kernel.pageSize, before, base, allocation.size);
      FreedIsClean(kernel.pageSize, before, kernel.table, allocations, base, stray, more);
      ledger := Retire(ledger, base);
      allocations := allocations - {base};
      stray := more;
    }

    /** The range of each listed allocation is mapped. */
    ghost predicate RangesMapped(bases: seq<nat>)
      requires kernel.pageSize > 0
      reads this`allocations, kernel`table
    {
      forall b :: b in bases && b in allocations ==>
        AllMapped(kernel.pageSize, kernel.table.Keys, b, allocations[b].size)
    }

    /** Deinitializes the listed allocations, last first; addresses that are not live are skipped. */
    method Deinitialize(bases: seq<nat>) returns (ok: bool)
      requires Consistent()
      modifies this`allocations, this`executed, this`ledger, this`stray, kernel
      ensures Consistent() && kernel.table.Keys == old(kernel.table).Keys
      ensures allocations == Without(old(allocations), bases)
      ensures ledger == old(ledger).(live := Without(old(ledger).live, bases),
                                     retired := old(ledger).retired + Retired(bases, old(ledger).live))
      ensures ok ==> stray == old(stray)
      ensures ok ==> FreedReadWrite(kernel.pageSize, old(allocations), allocations, kernel.table)
      ensures (forall t :: !kernel.fault(t)) && old(RangesMapped(bases)) ==> ok
      ensures OnlyFreed(kernel.pageSize, old(allocations), allocations, old(kernel.table), kernel.table)
      ensures kernel.everBoth == old(kernel.everBoth)
      ensures old(Valid()) ==> Valid()
    {
      hide Accounted, Mirrors, Tagged, Findable, PagesClean, AuditAgrees, Without, Retired, SegmentTraits, SegmentsOf,
        OnlyFreed, InFreed, FreedReadWrite;
      ghost var remaining, live := Without(allocations, bases), Without(ledger.live, bases);
      ghost var retired := ledger.retired + Retired(bases, ledger.live);
      ok := true;
      NothingFreed(kernel.pageSize, allocations, kernel.table);
      FreedReadWriteNone(kernel.pageSize, allocations, kernel.table);
      var i := |bases|;
      assert bases[..i] == bases;
      while i > 0
        invariant 0 <= i <= |bases| && Consistent() && kernel.table.Keys == old(kernel.table).Keys
        invariant Without(allocations, bases[..i]) == remaining
        invariant ledger == old(ledger).(live := ledger.live, retired := ledger.retired)
        invariant Without(ledger.live, bases[..i]) == live
        invariant ledger.retired + Retired(bases[..i], ledger.live) == retired
        invariant ok ==> stray == old(stray)
        invariant ok ==> FreedReadWrite(kernel.pageSize, old(allocations), allocations, kernel.table)
        invariant forall b :: b in allocations ==> b in old(allocations) && allocations[b] == old(allocations)[b]
        invariant OnlyFreed(kernel.pageSize, old(allocations), allocations, old(kernel.table), kernel.table)
        invariant (forall t :: !kernel.fault(t)) && old(RangesMapped(bases)) ==> ok
        invariant kernel.everBoth == old(kernel.everBoth)
      {
        i := i - 1;
        var base := bases[i];
        RetiredStep(bases, i, ledger.live);
        WithoutStep(ledger.live, bases, i);
        WithoutStep(allocations, bases, i);
        MirroredKeys(ledger, allocations, executed);
        if base in allocations {
          ghost var before, was, table := ledger, allocations, kernel.table;
          var done := DeinitializeOne(base);
          OnlyFreedStep(kernel.pageSize, old(allocations), was, allocations, old(kernel.table), table, kernel.table);
          if ok && done {
            FreedReadWriteStep(kernel.pageSize, old(allocations), was, base, table, kernel.table);
          }
          ok := ok && done;
          assert ledger.retired == before.retired + [before.live[base]];
        }
      }
      NothingLeft(allocations, ledger.live, bases);
      if old(Valid()) {
        FewerKeepsFindable(old(ledger), ledger, tags);
      }
    }

    /** No page of the block is mapped; a block of size zero has none of its own. */
    ghost predicate Unmapped(base: nat, size: nat)
      reads kernel`table
    {
      size > 0 ==> kernel.Unused(base, size)
    }

    /** Unmaps a block; what is no longer mapped is no longer stray either. */
    method UnmapBlock(base: nat, size: nat) returns (ok: bool)
      requires Valid()
      modifies this`stray, kernel
      ensures Valid() && kernel.table.Keys <= old(kernel.table).Keys
      ensures ok ==> Unmapped(base, size)
      ensures (forall t :: !kernel.fault(t)) ==> ok
      ensures forall p :: p in old(kernel.table) && !(size > 0 && Covers(kernel.pageSize, base, size, p)) ==>
                p in kernel.table
      ensures stray == old(stray) * kernel.table.Keys
      ensures OnlyFreed(kernel.pageSize, allocations, allocations, old(kernel.table), kernel.table)
      ensures kernel.everBoth == old(kernel.everBoth)
    {
      hide Core, Tagged, Findable, PagesClean, AuditAgrees, SegmentTraits, SegmentsOf, OnlyFreed;
      ok := kernel.Unmap(base, size);
      FewerPagesAreClean(kernel.pageSize, old(kernel.table), kernel.table, allocations, stray);
      UnmappingFreesNothing(kernel.pageSize, allocations, old(kernel.table), kernel.table);
      stray := stray * kernel.table.Keys;
    }

    /** Gives back one reservation: forget it, deinitialize everything in its list, unmap it. */
    method ReleaseOne(base: nat) returns (ok: bool, ghost group: seq<nat>)
      requires Valid()
      modifies this`allocations, this`reservations, this`executed, this`ledger, this`tags, this`stray, kernel
      ensures Valid()
      ensures base !in old(reservations) ==> unchanged(this) && unchanged(kernel) && ok && group == []
      ensures base in old(reservations) ==>
                var list := old(reservations)[base].allocations;
                && reservations == old(reservations) - {base}
                && allocations == Without(old(allocations), list)
                && group == Retired(list, old(ledger).live)
                && ledger == old(ledger).(live := Without(old(ledger).live, list),
                                          retired := old(ledger).retired + group)
      ensures ReverseOf(ledger.records, base, group)
      ensures OnlyFreed(kernel.pageSize, old(allocations), allocations, old(kernel.table), kernel.table)
      ensures base in old(reservations) && (ok || forall t :: !kernel.fault(t)) ==>
                Unmapped(base, old(reservations)[base].size)
      ensures forall p :: p in old(kernel.table) && !InBlock(kernel.pageSize, old(reservations), base, p) ==>
                p in kernel.table
      ensures base in old(reservations) ==>
                (forall t :: !kernel.fault(t)) && old(RangesMapped(reservations[base].allocations)) ==> ok
      ensures kernel.table.Keys <= old(kernel.table).Keys
      ensures kernel.everBoth == old(kernel.everBoth)
      ensures ok ==> stray <= old(stray)
    {
      hide *;
      if base !in reservations {
        NothingFreed(kernel.pageSize, allocations, kernel.table);
        NothingRetired(ledger.records, base);
        return true, [];
      }
      ghost var was := reservations;
      var size := reservations[base].size;
      ok, group := EmptyReservation(base);
      ghost var table := kernel.table;
      var unmapped := UnmapBlock(base, size);
      OnlyFreedStep(kernel.pageSize, old(allocations), allocations, allocations,
                    old(kernel.table), table, kernel.table);
      ok := ok && unmapped;
      BlockOf(kernel.pageSize, was, base);
    }

    /** The reservation is forgotten and everything in its list deinitialized; the block is still mapped. */
    method EmptyReservation(base: nat) returns (ok: bool, ghost group: seq<nat>)
      requires Valid() && base in reservations
      modifies this`allocations, this`reservations, this`executed, this`ledger, this`tags, this`stray, kernel
      ensures Valid() && reservations == old(reservations) - {base}
      ensures var list := old(reservations)[base].allocations;
              && allocations == Without(old(allocations), list)
              && group == Retired(list, old(ledger).live)
              && ledger == old(ledger).(live := Without(old(ledger).live, list),
                                        retired := old(ledger).retired + group)
      ensures ReverseOf(ledger.records, base, group)
      ensures OnlyFreed(kernel.pageSize, old(allocations), allocations, old(kernel.table), kernel.table)
      ensures (forall t :: !kernel.fault(t)) && old(RangesMapped(reservations[base].allocations)) ==> ok
      ensures kernel.table.Keys == old(kernel.table).Keys && kernel.everBoth == old(kernel.everBoth)
      ensures ok ==> stray == old(stray)
    {
      hide Accounted, Mirrors, Listed, OrphansPrecede, PagesClean, AuditAgrees, Without, Retired, SegmentTraits,
        SegmentsOf, ReverseOf, TagsMatch, OnlyFreed, FreedReadWrite, InFreed;
      ghost var before, entries := ledger, tags[base];
      var reservation := reservations[base];
      group := Retired(reservation.allocations, ledger.live);
      OwnEntriesOf(ledger, tags, reservations, base);
      RetiredInReverse(ledger, base, reservation.allocations, entries, ledger.live);
      ForgetKeepsTagged(ledger.records, tags, reservations, base);
      reservations := reservations - {base};
      tags := tags - {base};
      ok := Deinitialize(reservation.allocations);
      ForgetKeepsFindable(before, ledger, old(tags), old(reservations), base);
    }

    /**
     Gives back the listed reservations; addresses that are not reservations are skipped.  `groups` are the
     records that each of them retired.
     */
    method Release(bases: seq<nat>) returns (ok: bool, ghost groups: seq<seq<nat>>)
      requires Valid()
      modifies this`allocations, this`reservations, this`executed, this`ledger, this`tags, this`stray, kernel
      ensures Valid()
      ensures reservations == Without(old(reservations), bases)
      ensures RetiredBy(old(ledger), ledger, groups) && ReverseGroups(ledger.records, bases, |bases|, groups)
      ensures OnlyUnnamed(old(ledger).live, ledger.live, old(reservations), bases, |bases|)
      ensures OnlyFreed(kernel.pageSize, old(allocations), allocations, old(kernel.table), kernel.table)
      // Without failing system calls every listed block is unmapped, whatever deinitialization reported.
      ensures ok || (forall t :: !kernel.fault(t)) ==>
                forall k :: 0 <= k < |bases| && bases[k] in old(reservations) ==>
                  Unmapped(bases[k], old(reservations)[bases[k]].size)
      ensures kernel.pageSize > 0
      ensures (&& (forall t :: !kernel.fault(t))
               && ListedRangesMapped(kernel.pageSize, old(kernel.table), old(allocations), old(reservations), bases))
                ==> ok
      ensures OnlyBlocksGone(kernel.pageSize, old(reservations), bases, |bases|, old(kernel.table), kernel.table)
      ensures kernel.table.Keys <= old(kernel.table).Keys
      ensures kernel.everBoth == old(kernel.everBoth)
      ensures ok ==> stray <= old(stray)
    {
      hide *;
      ghost var start := Snapshot(ledger, reservations, allocations, kernel.table);
      ghost var calm := forall t :: !kernel.fault(t);
      ok, groups := true, [];
      ReleaseStarts(bases);
      for i := 0 to |bases|
        invariant Releasing(start, bases, i, groups, ok || calm)
        invariant calm && ReadyAt(start, bases) ==> ok
        invariant kernel.everBoth == old(kernel.everBoth)
        invariant ok ==> stray <= old(stray)
      {
        var done, group := ReleaseNext(bases, i, start, groups, ok || calm);
        ok, groups := ok && done, groups + [group];
      }
      ReleaseEnds(start, bases, groups, ok || calm);
    }

    /** What a release has done with the first i listed reservations since `start`. */
    ghost predicate Releasing(start: Snapshot, bases: seq<nat>, i: nat, groups: seq<seq<nat>>, well: bool)
      requires i <= |bases|
      reads this, kernel
    {
      && Valid() && reservations == Without(start.reservations, bases[..i])
      && RetiredBy(start.ledger, ledger, groups) && ReverseGroups(ledger.records, bases, i, groups)
      && OnlyUnnamed(start.ledger.live, ledger.live, start.reservations, bases, i)
      && OnlyFreed(kernel.pageSize, start.allocations, allocations, start.table, kernel.table)
      && BlocksReleased(start.reservations, bases, i, start.table, well)
    }

    ghost predicate ReadyAt(start: Snapshot, bases: seq<nat>) {
      kernel.pageSize > 0
      && ListedRangesMapped(kernel.pageSize, start.table, start.allocations, start.reservations, bases)
    }

    lemma ReleaseStarts(bases: seq<nat>)
      requires Valid()
      ensures Releasing(Snapshot(ledger, reservations, allocations, kernel.table), bases, 0, [], true)
    {
      hide Without, RetiredBy, OnlyUnnamed, OnlyFreed, Consistent, Findable;
      RetiredByNone(ledger);
      WithoutNone(reservations, bases);
      NoneNamed(ledger.live, reservations, bases);
      NothingFreed(kernel.pageSize, allocations, kernel.table);
    }

    lemma ReleaseEnds(start: Snapshot, bases: seq<nat>, groups: seq<seq<nat>>, well: bool)
      requires Releasing(start, bases, |bases|, groups, well)
      ensures Valid() && kernel.pageSize > 0 && reservations == Without(start.reservations, bases)
      ensures RetiredBy(start.ledger, ledger, groups) && ReverseGroups(ledger.records, bases, |bases|, groups)
      ensures OnlyUnnamed(start.ledger.live, ledger.live, start.reservations, bases, |bases|)
      ensures OnlyFreed(kernel.pageSize, start.allocations, allocations, start.table, kernel.table)
      ensures OnlyBlocksGone(kernel.pageSize, start.reservations, bases, |bases|, start.table, kernel.table)
      ensures kernel.table.Keys <= start.table.Keys
      ensures well ==> forall k :: 0 <= k < |bases| && bases[k] in start.reservations ==>
                Unmapped(bases[k], start.reservations[bases[k]].size)
      ensures ReadyAt(start, bases) <==>
                ListedRangesMapped(kernel.pageSize, start.table, start.allocations, start.reservations, bases)
    {
      hide Without, RetiredBy, OnlyUnnamed, OnlyFreed, Findable, ListedRangesMapped, Unmapped;
      assert bases[..|bases|] == bases;
      if well {
        GoneIsUnmapped(start.reservations, bases);
      }
    }

    /** One turn of the release. */
    method ReleaseNext(bases: seq<nat>, i: nat, ghost start: Snapshot, ghost groups: seq<seq<nat>>, ghost well: bool)
      returns (done: bool, ghost group: seq<nat>)
      requires i < |bases| && Releasing(start, bases, i, groups, well)
      modifies this`allocations, this`reservations, this`executed, this`ledger, this`tags, this`stray, kernel
      ensures Releasing(start, bases, i + 1, groups + [group], well && (done || forall t :: !kernel.fault(t)))
      ensures (forall t :: !kernel.fault(t)) && ReadyAt(start, bases) ==> done
      ensures kernel.everBoth == old(kernel.everBoth)
      ensures done ==> stray <= old(stray)
    {
      hide Valid, ReverseOf, Retired, RetiredBy, Without, OnlyUnnamed, OnlyFreed, InBlock, InBlocks, BlocksGone,
        OnlyBlocksGone, ListedRangesMapped, Unmapped, RangesMapped;
      var base := bases[i];
      ghost var before, listed, was, table := ledger, reservations, allocations, kernel.table;
      WithoutMore(start.reservations, bases, i);
      if base in reservations && ReadyAt(start, bases) {
        ReadyToRelease(start, bases, i, well);
      }
      done, group := ReleaseOne(base);
      Released(start.reservations, listed, bases, i, start.table, table, well, done || forall t :: !kernel.fault(t));
      RetiredByMore(start.ledger, before, ledger, groups, group);
      OnlyFreedStep(kernel.pageSize, start.allocations, was, allocations, start.table, table, kernel.table);
      OnlyUnnamedStep(start.ledger.live, before.live, ledger.live, start.reservations, bases, i);
    }

    /** A listed reservation whose turn has come is as it was, and the ranges in its list are still mapped. */
    lemma ReadyToRelease(start: Snapshot, bases: seq<nat>, i: nat, well: bool)
      requires i < |bases| && reservations == Without(start.reservations, bases[..i]) && bases[i] in reservations
      requires OnlyFreed(kernel.pageSize, start.allocations, allocations, start.table, kernel.table)
      requires BlocksReleased(start.reservations, bases, i, start.table, well)
      requires ReadyAt(start, bases)
      ensures RangesMapped(reservations[bases[i]].allocations)
    {
      RangesStillMapped(kernel.pageSize, start.table, kernel.table, start.allocations, allocations,
                        start.reservations, bases, i);
    }

    /** Only pages of the first n listed blocks are gone; all of them, if all went well. */
    ghost predicate BlocksReleased(first: map<nat, Reservation>, bases: seq<nat>, n: nat, start: Table, well: bool)
      requires n <= |bases|
      reads kernel`table
    {
      && kernel.table.Keys <= start.Keys
      && OnlyBlocksGone(kernel.pageSize, first, bases, n, start, kernel.table)
      && (well ==> BlocksGone(kernel.pageSize, first, bases, n, kernel.table))
    }

    /** One turn more. */
    lemma Released(first: map<nat, Reservation>, listed: map<nat, Reservation>, bases: seq<nat>, i: nat, start: Table,
                   before: Table, well: bool, done: bool)
      requires i < |bases| && listed == Without(first, bases[..i]) && kernel.table.Keys <= before.Keys <= start.Keys
      requires OnlyBlocksGone(kernel.pageSize, first, bases, i, start, before)
      requires well ==> BlocksGone(kernel.pageSize, first, bases, i, before)
      requires forall p :: p in before && !InBlock(kernel.pageSize, listed, bases[i], p) ==> p in kernel.table
      requires done && bases[i] in listed ==> Unmapped(bases[i], listed[bases[i]].size)
      ensures BlocksReleased(first, bases, i + 1, start, well && done)
    {
      OnlyBlocksGoneStep(kernel.pageSize, first, bases, i, start, before, kernel.table);
      if well && done {
        BlocksGoneStep(kernel.pageSize, first, bases, i, before, kernel.table);
      }
    }

    lemma GoneIsUnmapped(first: map<nat, Reservation>, bases: seq<nat>)
      requires BlocksGone(kernel.pageSize, first, bases, |bases|, kernel.table)
      ensures forall k :: 0 <= k < |bases| && bases[k] in first ==> Unmapped(bases[k], first[bases[k]].size)
    {
      forall k, p | 0 <= k < |bases| && p in kernel.table ensures !InBlock(kernel.pageSize, first, bases[k], p) {
        assert !InBlocks(kernel.pageSize, first, bases, |bases|, p);
      }
    }

    method ReservationBases() returns (bases: seq<nat>)
      ensures (set b | b in bases) == reservations.Keys
    {
      bases := [];
      var rest := reservations.Keys;
      while rest != {}
        invariant reservations.Keys == rest + set b | b in bases
        decreases |rest|
      {
        var base :| base in rest;
        bases := bases + [base];
        rest := rest - {base};
      }
    }

    /**
     The destructor: everything still reserved is released.  What no reservation's list names stays allocated, and
     each record is retired once unless it stays allocated or was overwritten.
     */
    method Destroy()
      requires Valid()
      modifies this`allocations, this`reservations, this`executed, this`ledger, this`tags, this`stray, kernel
      ensures Valid() && reservations == map[]
      ensures ledger.records == old(ledger).records && ledger.overwritten == old(ledger).overwritten
      ensures forall b :: b in allocations <==> b in old(allocations) && !NamedIn(old(reservations), b)
      ensures forall b :: b in allocations ==> b in ledger.live && ledger.live[b] in old(ledger).orphaned
      ensures FinalAccount(ledger, executed)
      ensures EachRetiredOnce(ledger)
         <==> old(ledger).overwritten == {} && forall b :: b in old(allocations) ==> NamedIn(old(reservations), b)
      ensures old(ledger).overwritten == {} && old(ledger).orphaned == {} ==>
                EachRetiredOnce(ledger) && allocations == map[]
      ensures forall p :: p in kernel.table && p !in stray && Outside(kernel.pageSize, allocations, p) ==>
                kernel.table[p] == READ_WRITE
      // No page outside the former reservations' blocks goes, and without failing system calls theirs all go.
      ensures forall p :: p in kernel.table ==> p in old(kernel.table)
      ensures forall p :: p in old(kernel.table) && p !in kernel.table ==>
                exists base :: InBlock(kernel.pageSize, old(reservations), base, p)
      ensures (forall t :: !kernel.fault(t)) ==>
                forall base :: base in old(reservations) ==> Unmapped(base, old(reservations)[base].size)
      ensures kernel.everBoth == old(kernel.everBoth)
    {
      hide Accounted, Mirrors, Tagged, Listed, OrphansPrecede, AuditAgrees, SegmentTraits, SegmentsOf, Executions,
        NamedIn, NamedBy;
      MirroredKeys(ledger, allocations, executed);
      var bases := ReservationBases();
      forall b ensures NamedBy(reservations, bases, |bases|, b) <==> NamedIn(reservations, b) {
        AllNamed(reservations, bases, b);
      }
      if |bases| != 0 {
        var _, _ := Release(bases);
      } else {
        NoneNamed(ledger.live, reservations, bases);
      }
      assert reservations == map[];
      NothingListed(ledger, tags, reservations);
      MirroredKeys(ledger, allocations, executed);
      RetiredAtMostOnce(ledger, allocations, executed);
      AllRetiredOnce(ledger, allocations, executed);
    }

    /**
     What the report about code means: read-execute code was seen, and unless a failed request asked for it, no page
     was ever writable and executable.
     */
    lemma ReportIsSound()
      requires Valid()
      ensures Report(audit).finalCodeReadExecute <==>
                var t := SegmentTraits(SegmentsOf(ledger.records)); t.code && !t.badCode
      ensures Report(audit).finalCodeReadExecute && !failedMixed ==> !kernel.everBoth
      ensures SegmentTraits(SegmentsOf(ledger.records)).mixed ==> kernel.everBoth
      ensures Report(audit).finalDataNonExecute <==> SegmentTraits(SegmentsOf(ledger.records)).data
      ensures Report(audit).allocations == |ledger.records|
    {
      MixedIsBadCode(SegmentsOf(ledger.records));
    }

    /**
     The report in terms of what the successful initializations asked for: code was seen and all of it is read-execute;
     data was seen; a reservation was made; how many they were.
     */
    lemma ReportReads()
      requires Valid()
      ensures Report(audit).finalCodeReadExecute <==>
                AskedFor(ledger.records, true) && CodeIsReadExecute(ledger.records)
      ensures Report(audit).finalDataNonExecute <==> AskedFor(ledger.records, false)
      ensures Report(audit).relocationWriteNonExecute <==> audit.sawRelocationAllocation
      ensures Report(audit).allocations == |ledger.records|
    {
      CodeMeans(ledger.records);
      DataMeans(ledger.records);
      BadCodeMeans(ledger.records);
    }

    /** While an allocation has its protections, the report speaks about its current pages. */
    lemma ReportedCodePages(i: nat, k: nat, page: nat)
      requires Valid() && Report(audit).finalCodeReadExecute && i < |ledger.records|
      requires var r := ledger.records[i];
               && k < |r.segments| && r.segments[k].protection.execute
               && Protected(kernel.pageSize, r.mappingBase, r.segments, |r.segments|, kernel.table)
               && page in kernel.table && InSegment(kernel.pageSize, r.mappingBase, r.segments[k], page)
      ensures kernel.table[page] == Protection(true, false, true)
    {
      SegmentsInclude(ledger.records, i, k);
      SegmentTraitsMean(SegmentsOf(ledger.records));
    }
  }

  /** A segment that fills one page. */
  function OnePage(pageSize: nat, offset: nat, protection: Protection): Segment {
    Segment(offset, pageSize, 0, protection)
  }

  /** A page inside the mapped block can be initialized as a segment. */
  lemma OnePageFits(kernel: Kernel, block: nat, size: nat, base: nat, s: Segment)
    requires kernel.pageSize > 0 && kernel.table.Keys == kernel.Fresh(block, size).Keys
    requires s == OnePage(kernel.pageSize, s.offset, s.protection)
    requires block <= base + s.offset && base + s.offset + kernel.pageSize <= block + size <= UNSET
    ensures Addressable(base, [s]) && Lowest(base, [s]) == base + s.offset < UNSET
    ensures AllSegmentsMapped(kernel.pageSize, kernel.table.Keys, base, [s])
    ensures SegmentTraits([s]) == TraitsOf(s)
  {
    SingleSegment(base, s);
    assert [s][..0] == [];
    forall p: nat | IsPage(kernel.pageSize, p) && Covers(kernel.pageSize, base + s.offset, Size(s), p)
      ensures p in kernel.table.Keys
    {
      assert Covers(kernel.pageSize, block, size, p) && p in kernel.Fresh(block, size);
    }
  }

  /** The report is sound about code: if it says that code is read-execute, no page was ever writable and executable. */
  ghost predicate SoundAboutCode(mapper: Mapper)
    reads mapper, mapper.kernel
  {
    Report(mapper.audit).finalCodeReadExecute ==> !mapper.kernel.everBoth
  }

  /**
   The report cannot speak for failed initializations: when the last finalize action of one fails, the report is
   what it was before, and it stays sound exactly when the code was not reported as read-execute, or was so
   soundly and no segment asked for writable and executable pages.
   */
  method FailedInitialization(mapper: Mapper, mappingBase: nat, segments: seq<Segment>)
    requires mapper.Valid() && Addressable(mappingBase, segments)
    requires forall t :: !mapper.kernel.fault(t)
    requires AllSegmentsMapped(mapper.kernel.pageSize, mapper.kernel.table.Keys, mappingBase, segments)
    modifies mapper, mapper.kernel
    ensures mapper.Valid() && mapper.audit == old(mapper.audit)
    ensures mapper.kernel.table.Keys == old(mapper.kernel.table.Keys)
    ensures mapper.kernel.everBoth <==> old(mapper.kernel.everBoth) || SegmentTraits(segments).mixed
    ensures SoundAboutCode(mapper) <==>
              || !Report(mapper.audit).finalCodeReadExecute
              || (old(SoundAboutCode(mapper)) && !SegmentTraits(segments).mixed)
  {
    hide Mapper.Consistent, AllSegmentsMapped, OnlySegments, Addressable, SegmentTraits, Highest, Lowest;
    var r := mapper.Initialize(mappingBase, segments, None);
  }

  /**
   After a successful initialization the report is sound exactly when it does not say that code is read-execute, or no
   page had been writable and executable before: an earlier failed request shows only now.
   */
  method SuccessfulInitialization(mapper: Mapper, mappingBase: nat, segments: seq<Segment>, actions: seq<Action>)
    returns (r: Option<nat>)
    requires mapper.Valid() && Addressable(mappingBase, segments)
    modifies mapper, mapper.kernel
    ensures mapper.Valid() && mapper.kernel.table.Keys == old(mapper.kernel.table.Keys)
    ensures r.Some? ==> mapper.audit == Noted(old(mapper.audit), SegmentTraits(segments))
    ensures r.Some? ==> (mapper.kernel.everBoth <==> old(mapper.kernel.everBoth) || SegmentTraits(segments).mixed)
    ensures r.Some? ==>
              (SoundAboutCode(mapper) <==>
               !Report(mapper.audit).finalCodeReadExecute || !old(mapper.kernel.everBoth))
    ensures (&& (forall t :: !mapper.kernel.fault(t)) && Lowest(mappingBase, segments) != UNSET
             && AllSegmentsMapped(mapper.kernel.pageSize, old(mapper.kernel.table).Keys, mappingBase, segments)) ==>
              r.Some?
  {
    MixedIsBadCode(segments);
    hide Mapper.Consistent, AllSegmentsMapped, OnlySegments, Protected, PageDisjoint, Addressable, SegmentTraits,
      Highest, Lowest;
    r := mapper.Initialize(mappingBase, segments, Some(actions));
  }

  /** A mapper with one block of two pages and nothing in it. */
  method BlockOfTwoPages(pageSize: nat) returns (mapper: Mapper)
    requires 0 < pageSize <= 0x1_0000
    ensures fresh(mapper) && fresh(mapper.kernel) && mapper.Valid()
    ensures mapper.kernel.pageSize == pageSize && (forall t :: !mapper.kernel.fault(t)) && !mapper.kernel.everBoth
    ensures mapper.kernel.table.Keys == mapper.kernel.Fresh(pageSize, 2 * pageSize).Keys
    ensures mapper.audit == Audit(0, true, true, false, true, false, true)
  {
    hide Mapper.Consistent, Findable, Covers, IsPage, LiveUnder;
    var kernel := new Kernel(pageSize, _ => false);
    mapper := new Mapper(kernel);
    var _ := mapper.Reserve(pageSize, 2 * pageSize);
    assert kernel.table.Keys == kernel.Fresh(pageSize, 2 * pageSize).Keys;
  }

  const READ_EXECUTE := Protection(true, false, true)

  const ALL := Protection(true, true, true)

  /** From the start: the report says that code is read-execute, yet a page is writable and executable. */
  method FailedInitializationEscapesTheAudit(pageSize: nat) returns (report: AuditReport, ghost both: bool)
    requires 0 < pageSize <= 0x1_0000
    ensures report.finalCodeReadExecute && both
  {
    hide Mapper.Consistent, Findable, Covers, IsPage, Addressable, Lowest, AllSegmentsMapped, SegmentTraits;
    var mapper := BlockOfTwoPages(pageSize);
    var code, mixed := OnePage(pageSize, 0, READ_EXECUTE), OnePage(pageSize, pageSize, ALL);
    OnePageFits(mapper.kernel, pageSize, 2 * pageSize, pageSize, code);
    var _ := SuccessfulInitialization(mapper, pageSize, [code], []);
    OnePageFits(mapper.kernel, pageSize, 2 * pageSize, pageSize, mixed);
    FailedInitialization(mapper, pageSize, [mixed]);
    report := Report(mapper.audit);
    both := mapper.kernel.everBoth;
  }

  /** The other order: the report is sound after the failure, and the success makes it speak, and unsound. */
  method SuccessCanEndSoundness(pageSize: nat) returns (ghost before: bool, ghost after: bool, report: AuditReport)
    requires 0 < pageSize <= 0x1_0000
    ensures before && !after && report.finalCodeReadExecute
  {
    hide Mapper.Consistent, Findable, Covers, IsPage, Addressable, Lowest, AllSegmentsMapped, SegmentTraits;
    var mapper := BlockOfTwoPages(pageSize);
    var code, mixed := OnePage(pageSize, 0, READ_EXECUTE), OnePage(pageSize, pageSize, ALL);
    OnePageFits(mapper.kernel, pageSize, 2 * pageSize, pageSize, mixed);
    FailedInitialization(mapper, pageSize, [mixed]);
    before := SoundAboutCode(mapper);
    OnePageFits(mapper.kernel, pageSize, 2 * pageSize, pageSize, code);
    var _ := SuccessfulInitialization(mapper, pageSize, [code], []);
    after := SoundAboutCode(mapper);
    report := Report(mapper.audit);
  }
}
