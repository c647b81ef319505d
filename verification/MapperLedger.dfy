/**
 What the JIT memory mapper owes: a record of every successful initialization, which of them are still
 live, in which order the others were deinitialized, and how this relates to the mapper's two maps.
 */
module MapperLedger {
  import opened PageTable
  import opened Sequences

  type Action = nat

  datatype Segment = Segment(offset: nat, contentSize: nat, zeroFillSize: nat, protection: Protection)

  datatype Allocation = Allocation(size: nat, actions: seq<Action>)

  datatype Reservation = Reservation(size: nat, allocations: seq<nat>)

  /** One successful initialization: where, what, and the actions that undo it. */
  datatype Record = Record(mappingBase: nat, segments: seq<Segment>, base: nat, actions: seq<Action>)

  /**
   `live[b]` numbers the record of the allocation at b, `retired` lists deinitialized records in order.
   `overwritten` are the records whose place in the allocation map was taken by a later one while they were
   live; `orphaned` are those whose reservation's list was replaced while they were live.
   */
  datatype Ledger = Ledger(
    records: seq<Record>,
    live: map<nat, nat>,
    retired: seq<nat>,
    overwritten: set<nat>,
    orphaned: set<nat>)

  /** For each reservation, the number of the record behind each base in its list. */
  type Tags = map<nat, seq<nat>>

  const UNSET: nat := 0xffff_ffff_ffff_ffff

  function Size(s: Segment): nat {
    s.contentSize + s.zeroFillSize
  }

  /** The lowest start and the highest end of the segments that have any bytes. */
  function Lowest(mappingBase: nat, segments: seq<Segment>): nat {
    if segments == [] then UNSET
    else
      var s, before := segments[|segments| - 1], Lowest(mappingBase, segments[..|segments| - 1]);
      if Size(s) == 0 || before <= mappingBase + s.offset then before else mappingBase + s.offset
  }

  function Highest(mappingBase: nat, segments: seq<Segment>): nat {
    if segments == [] then 0
    else
      var s, before := segments[|segments| - 1], Highest(mappingBase, segments[..|segments| - 1]);
      if Size(s) == 0 || before >= mappingBase + s.offset + Size(s) then before else mappingBase + s.offset + Size(s)
  }

  /** Every byte has a 64-bit address. */
  ghost predicate Addressable(mappingBase: nat, segments: seq<Segment>) {
    forall k :: 0 <= k < |segments| ==> mappingBase + segments[k].offset + Size(segments[k]) <= UNSET
  }

  lemma {:induction false} HullContains(mappingBase: nat, segments: seq<Segment>)
    requires Addressable(mappingBase, segments)
    ensures forall k :: 0 <= k < |segments| && Size(segments[k]) > 0 ==>
              && Lowest(mappingBase, segments) <= mappingBase + segments[k].offset
              && mappingBase + segments[k].offset + Size(segments[k]) <= Highest(mappingBase, segments)
    ensures Lowest(mappingBase, segments) == UNSET ==> forall k :: 0 <= k < |segments| ==> Size(segments[k]) == 0
    ensures Lowest(mappingBase, segments) != UNSET ==> Lowest(mappingBase, segments) < Highest(mappingBase, segments)
  {
    if segments != [] {
      var n := |segments| - 1;
      HullContains(mappingBase, segments[..n]);
      assert forall k :: 0 <= k < n ==> segments[..n][k] == segments[k];
    }
  }

  function Reverse(actions: seq<Action>): seq<Action> {
    if actions == [] then [] else Reverse(actions[1..]) + [actions[0]]
  }

  lemma {:induction false} ReverseReads(actions: seq<Action>, i: nat)
    requires i < |actions|
    ensures |Reverse(actions)| == |actions| && Reverse(actions)[i] == actions[|actions| - 1 - i]
  {
    if |actions| > 1 {
      ReverseReads(actions[1..], if i < |actions| - 1 then i else 0);
    }
  }

  /** The actions that run when the records are deinitialized in this order, each record's last action first. */
  function Executions(records: seq<Record>, retired: seq<nat>): seq<Action>
    requires forall k :: 0 <= k < |retired| ==> retired[k] < |records|
  {
    if retired == [] then []
    else
      var n := |retired| - 1;
      Executions(records, retired[..n]) + Reverse(records[retired[n]].actions)
  }

  lemma {:induction false} MoreRecords(records: seq<Record>, r: Record, retired: seq<nat>)
    requires forall k :: 0 <= k < |retired| ==> retired[k] < |records|
    ensures Executions(records + [r], retired) == Executions(records, retired)
  {
    if retired != [] {
      MoreRecords(records, r, retired[..|retired| - 1]);
    }
  }

  ghost predicate Distinct(s: seq<nat>) {
    forall i, j :: 0 <= i < j < |s| ==> s[i] != s[j]
  }

  ghost predicate Increasing(s: seq<nat>) {
    forall i, j :: 0 <= i < j < |s| ==> s[i] < s[j]
  }

  /** Each record is live, under its own base, or retired, and never retired twice, or it was overwritten. */
  ghost predicate Accounted(l: Ledger) {
    && (forall k :: 0 <= k < |l.retired| ==> l.retired[k] < |l.records|)
    && Distinct(l.retired)
    && (forall b :: b in l.live ==> l.live[b] < |l.records| && l.records[l.live[b]].base == b)
    && (forall i :: 0 <= i < |l.records| ==>
          (i !in l.retired && i !in l.overwritten <==> l.records[i].base in l.live && l.live[l.records[i].base] == i))
    && (forall i :: 0 <= i < |l.records| && l.records[i].base in l.live ==> i <= l.live[l.records[i].base])
    && (forall i :: i in l.overwritten ==> i < |l.records| && i !in l.retired)
  }

  /** The allocation map mirrors the live records, and exactly the retired records' actions have run. */
  ghost predicate Mirrors(l: Ledger, allocations: map<nat, Allocation>, executed: seq<Action>) {
    && allocations.Keys == l.live.Keys
    && (forall b :: b in l.live ==> l.live[b] < |l.records| && allocations[b] == AllocationOf(l.records[l.live[b]]))
    && (forall k :: 0 <= k < |l.retired| ==> l.retired[k] < |l.records|)
    && executed == Executions(l.records, l.retired)
  }

  lemma MirroredKeys(l: Ledger, allocations: map<nat, Allocation>, executed: seq<Action>)
    requires Mirrors(l, allocations, executed)
    ensures allocations.Keys == l.live.Keys
    ensures executed == Executions(l.records, l.retired)
  {
  }

  function AllocationOf(r: Record): Allocation {
    var end := Highest(r.mappingBase, r.segments);
    Allocation(if r.base <= end then end - r.base else 0, r.actions)
  }

  /** A reservation's list names, in order of registration, the records made under its base; entries may be stale. */
  ghost predicate Tagged(records: seq<Record>, tags: Tags, reservations: map<nat, Reservation>) {
    && tags.Keys == reservations.Keys
    && forall r :: r in reservations ==> TagsMatch(records, tags[r], reservations[r].allocations, r)
  }

  ghost predicate TagsMatch(records: seq<Record>, tags: seq<nat>, bases: seq<nat>, mappingBase: nat) {
    && |tags| == |bases| && Increasing(tags)
    && forall k :: 0 <= k < |tags| ==>
         && tags[k] < |records|
         && records[tags[k]].base == bases[k]
         && records[tags[k]].mappingBase == mappingBase
  }

  ghost predicate Core(l: Ledger, allocations: map<nat, Allocation>, executed: seq<Action>) {
    Accounted(l) && Mirrors(l, allocations, executed)
  }

  /** Every live allocation that is not orphaned can be found through the reservation it was registered under. */
  ghost predicate Listed(l: Ledger, tags: Tags) {
    forall b :: b in l.live && l.live[b] < |l.records| && l.live[b] !in l.orphaned ==>
      var r := l.records[l.live[b]].mappingBase;
      r in tags && l.live[b] in tags[r]
  }

  /** A reservation's list holds only records made after those that its earlier lists lost. */
  ghost predicate OrphansPrecede(l: Ledger, tags: Tags) {
    forall i :: i in l.orphaned ==>
      && i < |l.records|
      && var r := l.records[i].mappingBase;
         r in tags ==> forall k :: 0 <= k < |tags[r]| ==> i < tags[r][k]
  }

  ghost predicate Findable(l: Ledger, tags: Tags) {
    Listed(l, tags) && OrphansPrecede(l, tags)
  }

  /** The records retired when `bases` is walked from its end, skipping what is not live. */
  function Retired(bases: seq<nat>, live: map<nat, nat>): seq<nat> {
    if bases == [] then []
    else
      var b, front := bases[|bases| - 1], bases[..|bases| - 1];
      if b in live then [live[b]] + Retired(front, live - {b}) else Retired(front, live)
  }

  /** The map without the listed keys. */
  function Without<T>(m: map<nat, T>, keys: seq<nat>): (r: map<nat, T>)
    ensures forall k :: k in r <==> k in m && k !in keys
    ensures forall k :: k in r ==> r[k] == m[k]
  {
    if keys == [] then m else Without(m - {keys[|keys| - 1]}, keys[..|keys| - 1])
  }

  /** One turn of the loop over the listed bases, from the last one. */
  lemma RetiredStep(bases: seq<nat>, i: nat, live: map<nat, nat>)
    requires i < |bases|
    ensures bases[i] in live ==>
              Retired(bases[..i + 1], live) == [live[bases[i]]] + Retired(bases[..i], live - {bases[i]})
    ensures bases[i] !in live ==> Retired(bases[..i + 1], live) == Retired(bases[..i], live)
  {
    assert bases[..i + 1][..i] == bases[..i];
  }

  lemma NothingLeft(allocations: map<nat, Allocation>, live: map<nat, nat>, bases: seq<nat>)
    ensures Without(allocations, bases[..0]) == allocations
    ensures Without(live, bases[..0]) == live && Retired(bases[..0], live) == []
  {
  }

  lemma WithoutStep<T>(m: map<nat, T>, bases: seq<nat>, i: nat)
    requires i < |bases|
    ensures Without(m, bases[..i + 1]) ==
              if bases[i] in m then Without(m - {bases[i]}, bases[..i]) else Without(m, bases[..i])
  {
    assert bases[..i + 1][..i] == bases[..i];
    if bases[i] !in m {
      assert m - {bases[i]} == m;
    }
  }

  lemma WithoutNone<T>(m: map<nat, T>, keys: seq<nat>)
    ensures Without(m, keys[..0]) == m
  {
  }

  lemma WithoutMore<T>(m: map<nat, T>, keys: seq<nat>, i: nat)
    requires i < |keys|
    ensures Without(m, keys[..i + 1]) == Without(m, keys[..i]) - {keys[i]}
  {
    assert keys[..i + 1] == keys[..i] + [keys[i]];
  }

  /** Some live records were retired, group by group; nothing else happened. */
  ghost predicate RetiredBy(was: Ledger, now: Ledger, groups: seq<seq<nat>>) {
    && now == was.(live := now.live, retired := was.retired + Concat(groups))
    && forall b :: b in now.live ==> b in was.live && now.live[b] == was.live[b]
  }

  lemma RetiredByNone(l: Ledger)
    ensures RetiredBy(l, l, [])
  {
  }

  lemma RetiredByMore(was: Ledger, before: Ledger, now: Ledger, groups: seq<seq<nat>>, group: seq<nat>)
    requires RetiredBy(was, before, groups)
    requires now == before.(live := now.live, retired := before.retired + group)
    requires forall b :: b in now.live ==> b in before.live && now.live[b] == before.live[b]
    ensures RetiredBy(was, now, groups + [group])
  {
    ConcatOneMore(groups, group);
  }

  /** Some reservation's list names the base. */
  ghost predicate NamedIn(reservations: map<nat, Reservation>, b: nat) {
    exists r :: r in reservations && b in reservations[r].allocations
  }

  /** The list of one of the first n reservations names the base. */
  ghost predicate NamedBy(reservations: map<nat, Reservation>, bases: seq<nat>, n: nat, b: nat)
    requires n <= |bases|
  {
    exists k :: 0 <= k < n && bases[k] in reservations && b in reservations[bases[k]].allocations
  }

  /** What is left live once the first n reservations are gone. */
  ghost predicate OnlyUnnamed(
    was: map<nat, nat>, now: map<nat, nat>, reservations: map<nat, Reservation>, bases: seq<nat>, n: nat
  )
    requires n <= |bases|
  {
    forall b :: b in now <==> b in was && !NamedBy(reservations, bases, n, b)
  }

  lemma OnlyUnnamedStep(
    was: map<nat, nat>, before: map<nat, nat>, now: map<nat, nat>,
    reservations: map<nat, Reservation>, bases: seq<nat>, n: nat
  )
    requires n < |bases| && OnlyUnnamed(was, before, reservations, bases, n)
    requires if bases[n] in reservations && bases[n] !in bases[..n]
             then forall b :: b in now <==> b in before && b !in reservations[bases[n]].allocations
             else now == before
    ensures OnlyUnnamed(was, now, reservations, bases, n + 1)
  {
    forall b ensures b in now <==> b in was && !NamedBy(reservations, bases, n + 1, b) {
      if bases[n] in bases[..n] {
        var k :| 0 <= k < n && bases[k] == bases[n];
        assert NamedBy(reservations, bases, n + 1, b) <==> NamedBy(reservations, bases, n, b);
      } else {
        var here := bases[n] in reservations && b in reservations[bases[n]].allocations;
        assert NamedBy(reservations, bases, n + 1, b) <==> NamedBy(reservations, bases, n, b) || here;
      }
    }
  }

  lemma NoneNamed(live: map<nat, nat>, reservations: map<nat, Reservation>, bases: seq<nat>)
    ensures OnlyUnnamed(live, live, reservations, bases, 0)
  {
  }

  lemma AllNamed(reservations: map<nat, Reservation>, bases: seq<nat>, b: nat)
    requires forall r :: r in reservations ==> r in bases
    ensures NamedBy(reservations, bases, |bases|, b) <==> NamedIn(reservations, b)
  {
    if NamedIn(reservations, b) {
      var r :| r in reservations && b in reservations[r].allocations;
      var k :| 0 <= k < |bases| && bases[k] == r;
    }
  }

  /** Each base's group is in reverse order of registration. */
  ghost predicate ReverseGroups(records: seq<Record>, bases: seq<nat>, n: nat, groups: seq<seq<nat>>)
    requires n <= |bases|
  {
    |groups| == n && forall k :: 0 <= k < n ==> ReverseOf(records, bases[k], groups[k])
  }

  function Retire(l: Ledger, base: nat): Ledger
    requires base in l.live
  {
    l.(live := l.live - {base}, retired := l.retired + [l.live[base]])
  }

  lemma RetireKeepsCore(l: Ledger, allocations: map<nat, Allocation>, executed: seq<Action>, base: nat)
    requires Core(l, allocations, executed) && base in l.live
    ensures Core(Retire(l, base), allocations - {base}, executed + Reverse(allocations[base].actions))
  {
    var after := Retire(l, base);
    var n := |l.retired|;
    assert after.retired[..n] == l.retired && after.retired[n] == l.live[base];
    assert l.live[base] !in l.retired;
    assert Distinct(after.retired);
  }

  /** A new record; if its base is live, the record there loses its place. */
  function Register(l: Ledger, r: Record): Ledger {
    l.(records := l.records + [r],
       live := l.live[r.base := |l.records|],
       overwritten := l.overwritten + (if r.base in l.live then {l.live[r.base]} else {}))
  }

  /** The live records that were registered under a base. */
  function LiveUnder(l: Ledger, base: nat): set<nat> {
    set b | b in l.live && l.live[b] < |l.records| && l.records[l.live[b]].mappingBase == base :: l.live[b]
  }

  /** The list of `base` is replaced by an empty one. */
  function Orphan(l: Ledger, base: nat): Ledger {
    l.(orphaned := l.orphaned + LiveUnder(l, base))
  }

  function PushTag(tags: Tags, mappingBase: nat, tag: nat): Tags {
    tags[mappingBase := (if mappingBase in tags then tags[mappingBase] else []) + [tag]]
  }

  /**
   The reservation map after `reservations_[base].allocations.push_back(...)`: a missing key appears, with size zero.
   */
  function PushAllocation(reservations: map<nat, Reservation>, base: nat, allocation: nat): map<nat, Reservation> {
    var known := if base in reservations then reservations[base] else Reservation(0, []);
    reservations[base := known.(allocations := known.allocations + [allocation])]
  }

  /** The list grows by one at its end; a new key has a block of size zero; no other reservation changes. */
  lemma PushedAllocation(reservations: map<nat, Reservation>, base: nat, allocation: nat)
    ensures var now := PushAllocation(reservations, base, allocation);
            && now.Keys == reservations.Keys + {base}
            && (forall other :: other in reservations && other != base ==> now[other] == reservations[other])
            && now[base].size == (if base in reservations then reservations[base].size else 0)
            && now[base].allocations != []
            && var n := |now[base].allocations| - 1;
               && now[base].allocations[n] == allocation
               && now[base].allocations[..n] == (if base in reservations then reservations[base].allocations else [])
  {
  }

  lemma RegisterAccounts(l: Ledger, r: Record)
    requires Accounted(l)
    ensures Accounted(Register(l, r))
  {
    var after, n := Register(l, r), |l.records|;
    assert forall i :: 0 <= i < n ==> after.records[i] == l.records[i];
    assert after.records[n] == r && n !in l.retired;
    assert forall b :: b in l.live && b != r.base ==> after.live[b] == l.live[b];
    assert r.base in l.live ==> l.records[l.live[r.base]].base == r.base && l.live[r.base] !in l.retired;
  }

  /** No record loses its place exactly when nothing is live at the new base. */
  lemma RegisterOverwritesNothing(l: Ledger, r: Record)
    requires Accounted(l)
    ensures Register(l, r).overwritten == l.overwritten <==> r.base !in l.live
  {
    assert r.base in l.live ==> l.records[l.live[r.base]].base == r.base && l.live[r.base] !in l.overwritten;
  }

  lemma RegisterTags(records: seq<Record>, tags: Tags, reservations: map<nat, Reservation>, r: Record)
    requires Tagged(records, tags, reservations)
    ensures Tagged(records + [r], PushTag(tags, r.mappingBase, |records|),
                   PushAllocation(reservations, r.mappingBase, r.base))
  {
    var more, pushed := PushTag(tags, r.mappingBase, |records|), PushAllocation(reservations, r.mappingBase, r.base);
    forall q | q in pushed ensures TagsMatch(records + [r], more[q], pushed[q].allocations, q) {
      if q in reservations {
        assert TagsMatch(records, tags[q], reservations[q].allocations, q);
      }
    }
  }

  lemma RegisterMirrors(l: Ledger, allocations: map<nat, Allocation>, executed: seq<Action>, r: Record)
    requires Mirrors(l, allocations, executed)
    ensures Mirrors(Register(l, r), allocations[r.base := AllocationOf(r)], executed)
  {
    MoreRecords(l.records, r, l.retired);
  }

  lemma RegisterKeepsCore(l: Ledger, allocations: map<nat, Allocation>, executed: seq<Action>, r: Record)
    requires Core(l, allocations, executed)
    ensures Core(Register(l, r), allocations[r.base := AllocationOf(r)], executed)
  {
    RegisterAccounts(l, r);
    RegisterMirrors(l, allocations, executed, r);
  }

  lemma RegisterAppends(l: Ledger, r: Record)
    ensures Register(l, r).records == l.records + [r]
  {
  }

  lemma OrphanKeepsCore(l: Ledger, allocations: map<nat, Allocation>, executed: seq<Action>, base: nat)
    requires Core(l, allocations, executed)
    ensures Core(Orphan(l, base), allocations, executed)
  {
  }

  lemma RegisterKeepsFindable(l: Ledger, tags: Tags, r: Record)
    requires Accounted(l) && Findable(l, tags)
    ensures Findable(Register(l, r), PushTag(tags, r.mappingBase, |l.records|))
  {
    var after, more := Register(l, r), PushTag(tags, r.mappingBase, |l.records|);
    assert more[r.mappingBase][|more[r.mappingBase]| - 1] == |l.records|;
    forall b | b in after.live && after.live[b] !in after.orphaned
      ensures var q := after.records[after.live[b]].mappingBase; q in more && after.live[b] in more[q]
    {
      if b != r.base {
        assert after.records[l.live[b]] == l.records[l.live[b]];
      }
    }
  }

  /** Replacing a list by an empty one orphans what is live under its base. */
  lemma ReserveKeepsFindable(l: Ledger, tags: Tags, base: nat)
    requires Accounted(l) && Findable(l, tags)
    ensures Findable(Orphan(l, base), tags[base := []])
  {
  }

  /**
   A reservation over any base keeps every live allocation findable exactly when nothing findable is live under it.
   */
  lemma ReserveLosesNothing(l: Ledger, tags: Tags, base: nat)
    requires Accounted(l) && Findable(l, tags)
    ensures Listed(l, tags[base := []]) <==> LiveUnder(l, base) <= l.orphaned
    ensures Orphan(l, base) == l <==> LiveUnder(l, base) <= l.orphaned
  {
    forall i | i in LiveUnder(l, base) && i !in l.orphaned ensures !Listed(l, tags[base := []]) {
      var b :| b in l.live && l.live[b] == i;
    }
  }

  lemma ReserveKeepsTagged(records: seq<Record>, tags: Tags, reservations: map<nat, Reservation>, base: nat, size: nat)
    requires Tagged(records, tags, reservations)
    ensures Tagged(records, tags[base := []], reservations[base := Reservation(size, [])])
  {
  }

  /** With fewer live allocations, those left are still findable. */
  lemma FewerKeepsFindable(before: Ledger, after: Ledger, tags: Tags)
    requires Accounted(before) && Findable(before, tags)
    requires after.records == before.records && after.orphaned == before.orphaned
    requires forall b :: b in after.live ==> b in before.live && after.live[b] == before.live[b]
    ensures Findable(after, tags)
  {
  }

  lemma ForgetKeepsTagged(records: seq<Record>, tags: Tags, reservations: map<nat, Reservation>, r: nat)
    requires Tagged(records, tags, reservations)
    ensures Tagged(records, tags - {r}, reservations - {r})
  {
  }

  /** Dropping a whole reservation after everything in its list is gone keeps the others findable. */
  lemma ForgetKeepsFindable(before: Ledger, after: Ledger, tags: Tags, reservations: map<nat, Reservation>, r: nat)
    requires Accounted(before) && Findable(before, tags) && Tagged(before.records, tags, reservations)
    requires r in reservations
    requires after.records == before.records && after.orphaned == before.orphaned
    requires after.live == Without(before.live, reservations[r].allocations)
    ensures Findable(after, tags - {r})
  {
  }

  /**
   Each record was retired once, or not at all while it is live or after it was overwritten; its actions ran as often.
   */
  ghost predicate FinalAccount(l: Ledger, executed: seq<Action>) {
    && (forall k :: 0 <= k < |l.retired| ==> l.retired[k] < |l.records|)
    && executed == Executions(l.records, l.retired)
    && forall i :: 0 <= i < |l.records| ==>
         multiset(l.retired)[i] == if i in l.live.Values || i in l.overwritten then 0 else 1
  }

  lemma RetiredAtMostOnce(l: Ledger, allocations: map<nat, Allocation>, executed: seq<Action>)
    requires Core(l, allocations, executed)
    ensures FinalAccount(l, executed)
  {
    forall i | 0 <= i < |l.records|
      ensures multiset(l.retired)[i] == if i in l.live.Values || i in l.overwritten then 0 else 1
    {
      if i in l.retired {
        CountOfDistinct(l.retired, i);
      } else {
        assert i !in multiset(l.retired);
      }
    }
  }

  ghost predicate EachRetiredOnce(l: Ledger) {
    forall i :: 0 <= i < |l.records| ==> multiset(l.retired)[i] == 1
  }

  /** All records are retired exactly once exactly when nothing is live and nothing was overwritten. */
  lemma AllRetiredOnce(l: Ledger, allocations: map<nat, Allocation>, executed: seq<Action>)
    requires Core(l, allocations, executed)
    ensures EachRetiredOnce(l) <==> l.live == map[] && l.overwritten == {}
  {
    RetiredAtMostOnce(l, allocations, executed);
    if l.live != map[] {
      var b :| b in l.live;
      assert multiset(l.retired)[l.live[b]] == 0;
    } else if l.overwritten != {} {
      var i :| i in l.overwritten;
      assert multiset(l.retired)[i] == 0;
    }
  }

  lemma {:induction false} CountOfDistinct(s: seq<nat>, x: nat)
    requires Distinct(s) && x in s
    ensures multiset(s)[x] == 1
  {
    var n := |s| - 1;
    assert s == s[..n] + [s[n]];
    if x == s[n] {
      assert x !in s[..n];
    } else {
      CountOfDistinct(s[..n], x);
    }
  }

  /** `tags` numbers the records behind `bases`, and has every live one of them that belongs to reservation r. */
  ghost predicate OwnEntries(l: Ledger, r: nat, bases: seq<nat>, tags: seq<nat>, live: map<nat, nat>) {
    && TagsMatch(l.records, tags, bases, r)
    && (forall b :: b in live ==> b in l.live && live[b] == l.live[b] < |l.records|)
    && (forall b :: b in bases && b in live && l.records[l.live[b]].mappingBase == r ==> live[b] in tags)
  }

  /** Those records in the list that belong to reservation r are in reverse order of registration. */
  ghost predicate ReverseOf(records: seq<Record>, r: nat, retired: seq<nat>) {
    && (forall k :: 0 <= k < |retired| ==> retired[k] < |records|)
    && (forall j, k ::
          0 <= j < k < |retired| && records[retired[j]].mappingBase == r == records[retired[k]].mappingBase ==>
          retired[j] > retired[k])
  }

  lemma NothingRetired(records: seq<Record>, r: nat)
    ensures ReverseOf(records, r, [])
  {
  }

  lemma OwnEntriesFront(l: Ledger, r: nat, bases: seq<nat>, tags: seq<nat>, live: map<nat, nat>)
    requires Accounted(l) && OwnEntries(l, r, bases, tags, live) && bases != []
    ensures var n := |bases| - 1;
            && OwnEntries(l, r, bases[..n], tags[..n], if bases[n] in live then live - {bases[n]} else live)
            && (bases[n] in live && l.records[live[bases[n]]].mappingBase == r ==> live[bases[n]] == tags[n])
  {
    var n := |bases| - 1;
    var b, front, below := bases[n], bases[..n], tags[..n];
    assert tags == below + [tags[n]];
    var rest := if b in live then live - {b} else live;
    if b in live && l.records[live[b]].mappingBase == r {
      assert l.live[b] in tags && tags[n] <= l.live[b];
    }
    forall c | c in front && c in rest && l.records[l.live[c]].mappingBase == r ensures rest[c] in below {
      assert c in bases && c != b;
      assert live[c] in tags && l.records[live[c]].base == c;
    }
  }

  /** Within one release, a reservation's allocations go in reverse order of registration, stale entries or not. */
  lemma {:induction false} RetiredInReverse(l: Ledger, r: nat, bases: seq<nat>, tags: seq<nat>, live: map<nat, nat>)
    requires Accounted(l) && OwnEntries(l, r, bases, tags, live)
    ensures forall k :: 0 <= k < |Retired(bases, live)| ==>
              && Retired(bases, live)[k] < |l.records|
              && (l.records[Retired(bases, live)[k]].mappingBase == r ==>
                    bases != [] && Retired(bases, live)[k] <= tags[|tags| - 1])
    ensures ReverseOf(l.records, r, Retired(bases, live))
  {
    if bases != [] {
      var n := |bases| - 1;
      var rest := if bases[n] in live then live - {bases[n]} else live;
      OwnEntriesFront(l, r, bases, tags, live);
      RetiredInReverse(l, r, bases[..n], tags[..n], rest);
      assert n > 0 ==> tags[..n][n - 1] < tags[n];
      assert bases[n] in live ==> Retired(bases, live) == [live[bases[n]]] + Retired(bases[..n], rest);
    }
  }

  lemma OwnEntriesOf(l: Ledger, tags: Tags, reservations: map<nat, Reservation>, r: nat)
    requires Accounted(l) && Findable(l, tags) && Tagged(l.records, tags, reservations) && r in reservations
    ensures OwnEntries(l, r, reservations[r].allocations, tags[r], l.live)
  {
  }

  lemma NothingListed(l: Ledger, tags: Tags, reservations: map<nat, Reservation>)
    requires Accounted(l) && Listed(l, tags) && Tagged(l.records, tags, reservations) && reservations == map[]
    ensures forall b :: b in l.live ==> l.live[b] in l.orphaned
  {
    assert tags.Keys == {};
  }

  /** The bounds and traits of a single segment. */
  lemma SingleSegment(mappingBase: nat, s: Segment)
    requires Size(s) > 0 && mappingBase + s.offset + Size(s) <= UNSET
    ensures Addressable(mappingBase, [s]) && Lowest(mappingBase, [s]) == mappingBase + s.offset
  {
    assert [s][..0] == [];
  }
}
