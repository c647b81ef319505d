/**
 How the JIT memory mapper (native/bridge/ckc_llvm.cpp) can lose an allocation: a reservation over a base that
 is already a key replaces the list of what is live there, and an initialization over a live key replaces the
 record.  Both are stated with the exact condition under which nothing is lost.
 */
module MapperLosses {
  import opened Basics
  import opened PageTable
  import opened MapperLedger
  import opened MemoryMapper

  /** Destruction now would run each record's actions exactly once. */
  ghost predicate NothingLost(mapper: Mapper)
    reads mapper
  {
    mapper.ledger.overwritten == {} && forall b :: b in mapper.allocations ==> NamedIn(mapper.reservations, b)
  }

  /** A reservation loses nothing exactly when every live allocation is named by the list of another base. */
  method ReserveThenDestroy(mapper: Mapper, base: nat, size: nat) returns (ok: bool)
    requires mapper.Valid() && NothingLost(mapper) && mapper.kernel.Unused(base, size)
    modifies mapper, mapper.kernel
    ensures EachRetiredOnce(mapper.ledger) <==>
              !ok || forall b :: b in old(mapper.allocations) ==> NamedIn(old(mapper.reservations) - {base}, b)
    ensures EachRetiredOnce(mapper.ledger) <==> mapper.allocations == map[]
    ensures mapper.Valid() && mapper.ledger.records == old(mapper.ledger.records)
    ensures ok <==> !mapper.kernel.fault(old(mapper.kernel.clock))
  {
    ghost var was := mapper.reservations;
    ok := mapper.Reserve(base, size);
    if ok {
      forall b ensures NamedIn(mapper.reservations, b) <==> NamedIn(was - {base}, b) {
        NamedWithoutList(was, base, size, b);
      }
    }
    hide NamedIn, EachRetiredOnce;
    mapper.Destroy();
  }

  lemma NamedWithoutList(reservations: map<nat, Reservation>, base: nat, size: nat, b: nat)
    ensures NamedIn(reservations[base := Reservation(size, [])], b) <==> NamedIn(reservations - {base}, b)
  {
    var now, rest := reservations[base := Reservation(size, [])], reservations - {base};
    assert forall r :: r in rest ==> r in now && now[r] == rest[r];
    assert forall r :: r in now && r != base ==> r in rest && now[r] == rest[r];
  }

  /** An initialization loses nothing exactly when its lowest address is not that of a live allocation. */
  method InitializeMayLose(mapper: Mapper, mappingBase: nat, segments: seq<Segment>, actions: Option<seq<Action>>)
    returns (r: Option<nat>)
    requires mapper.Valid() && NothingLost(mapper) && Addressable(mappingBase, segments)
    modifies mapper, mapper.kernel
    ensures mapper.Valid() && forall b :: b in mapper.allocations ==> NamedIn(mapper.reservations, b)
    ensures NothingLost(mapper) <==> r.None? || r.value !in old(mapper.allocations)
    ensures (&& (forall t :: !mapper.kernel.fault(t)) && actions.Some? && Lowest(mappingBase, segments) != UNSET
             && AllSegmentsMapped(mapper.kernel.pageSize, old(mapper.kernel.table).Keys, mappingBase, segments)) ==>
              r == Some(Lowest(mappingBase, segments))
  {
    ghost var was, live := mapper.reservations, mapper.allocations;
    forall record ensures Register(mapper.ledger, record).overwritten == {} <==> record.base !in live {
      OverwritesNothing(mapper, record);
    }
    hide Mapper.Valid, NamedIn, Register, AllSegmentsMapped, OnlySegments, Protected, PageDisjoint, SegmentTraits,
      Lowest, Highest;
    r := mapper.Initialize(mappingBase, segments, actions);
    if r.Some? {
      forall b | b in mapper.allocations ensures NamedIn(mapper.reservations, b) {
        NamedAfterPush(was, mappingBase, r.value, b);
      }
    }
  }

  /** So destruction right after it runs each record's actions exactly once on that condition only. */
  method InitializeThenDestroy(mapper: Mapper, mappingBase: nat, segments: seq<Segment>, actions: Option<seq<Action>>)
    returns (r: Option<nat>)
    requires mapper.Valid() && NothingLost(mapper) && Addressable(mappingBase, segments)
    modifies mapper, mapper.kernel
    ensures EachRetiredOnce(mapper.ledger) <==> r.None? || r.value !in old(mapper.allocations)
    ensures mapper.Valid() && mapper.allocations == map[]
    ensures (&& (forall t :: !mapper.kernel.fault(t)) && actions.Some? && Lowest(mappingBase, segments) != UNSET
             && AllSegmentsMapped(mapper.kernel.pageSize, old(mapper.kernel.table).Keys, mappingBase, segments)) ==>
              r == Some(Lowest(mappingBase, segments))
  {
    hide Mapper.Valid, NamedIn, EachRetiredOnce, AllSegmentsMapped, Lowest;
    r := InitializeMayLose(mapper, mappingBase, segments, actions);
    mapper.Destroy();
  }

  lemma OverwritesNothing(mapper: Mapper, record: Record)
    requires mapper.Valid() && mapper.ledger.overwritten == {}
    ensures Register(mapper.ledger, record).overwritten == {} <==> record.base !in mapper.allocations
  {
    RegisterOverwritesNothing(mapper.ledger, record);
  }

  lemma NamedAfterPush(reservations: map<nat, Reservation>, base: nat, allocation: nat, b: nat)
    requires b == allocation || NamedIn(reservations, b)
    ensures NamedIn(PushAllocation(reservations, base, allocation), b)
  {
    var now := PushAllocation(reservations, base, allocation);
    if b == allocation {
      assert base in now && b in now[base].allocations;
    } else {
      var r :| r in reservations && b in reservations[r].allocations;
      assert r in now && b in now[r].allocations;
    }
  }

  /** A mapper with one block and one allocation, a page at `base` inside it, filed under its own address. */
  method OneAllocation(pageSize: nat, block: nat, size: nat, base: nat) returns (mapper: Mapper)
    requires 0 < pageSize && block <= base && base + pageSize <= block + size <= UNSET
    ensures fresh(mapper) && fresh(mapper.kernel) && mapper.Valid()
    ensures mapper.kernel.pageSize == pageSize && forall t :: !mapper.kernel.fault(t)
    ensures mapper.kernel.table.Keys == mapper.kernel.Fresh(block, size).Keys
    ensures mapper.allocations.Keys == {base} && mapper.ledger.live == map[base := 0] && mapper.ledger.retired == []
    ensures mapper.reservations == PushAllocation(map[block := Reservation(size, [])], base, base)
    ensures |mapper.ledger.records| == 1 && mapper.ledger.records[0].actions == [7] && NothingLost(mapper)
  {
    hide Mapper.Consistent, Findable, SegmentTraits, OnlySegments, Protected, PageDisjoint, IsPage, Covers, Highest,
      LiveUnder, Addressable, Lowest, AllSegmentsMapped;
    var kernel := new Kernel(pageSize, _ => false);
    mapper := new Mapper(kernel);
    var segment := OnePage(pageSize, 0, READ_WRITE);
    var reserved := mapper.Reserve(block, size);
    assert kernel.table.Keys == kernel.Fresh(block, size).Keys;
    OnePageFits(kernel, block, size, base, segment);
    NothingLiveUnder(block);
    var r := mapper.Initialize(base, [segment], Some([7]));
    NamedAfterPush(map[block := Reservation(size, [])], base, base, base);
  }

  lemma NothingLiveUnder(base: nat)
    ensures LiveUnder(Ledger([], map[], [], {}, {}), base) == {}
  {
  }

  /**
   The allocation outlives its block: it was filed under its own address, and the release looks in the block's list.
   */
  method OutlivingAllocation(pageSize: nat) returns (mapper: Mapper)
    requires 0 < pageSize <= 0x1_0000
    ensures fresh(mapper) && fresh(mapper.kernel) && mapper.Valid() && forall t :: !mapper.kernel.fault(t)
    ensures mapper.kernel.table.Keys == {} && mapper.kernel.pageSize == pageSize
    ensures mapper.reservations.Keys == {2 * pageSize}
    ensures mapper.allocations.Keys == {2 * pageSize} && mapper.ledger.live == map[2 * pageSize := 0]
    ensures |mapper.ledger.records| == 1 && mapper.ledger.records[0].actions == [7] && NothingLost(mapper)
  {
    var block, other := pageSize, 2 * pageSize;
    mapper := OneAllocation(pageSize, block, 2 * pageSize, other);
    FiledElsewhere(block, 2 * pageSize, other);
    NothingLeft(mapper.allocations, mapper.ledger.live, []);
    hide *;
    assert mapper.RangesMapped([]);
    var _, _ := mapper.ReleaseOne(block);
    NoPageLeft(mapper, block, 2 * pageSize);
  }

  lemma NoPageLeft(mapper: Mapper, block: nat, size: nat)
    requires mapper.Unmapped(block, size) && size > 0 && mapper.kernel.pageSize > 0
    requires mapper.kernel.table.Keys <= mapper.kernel.Fresh(block, size).Keys
    ensures mapper.kernel.table.Keys == {}
  {
  }

  lemma FiledElsewhere(block: nat, size: nat, other: nat)
    requires block != other
    ensures var reservations := PushAllocation(map[block := Reservation(size, [])], other, other);
            && block in reservations && reservations[block] == Reservation(size, [])
            && (reservations - {block}).Keys == {other}
  {
  }

  lemma OnlyNamedHere(reservations: map<nat, Reservation>, base: nat, b: nat)
    requires reservations.Keys == {base}
    ensures !NamedIn(reservations - {base}, b)
  {
  }

  /**
   From the start: when the system hands the inner base out again, the allocation's list is replaced, and it is
   still there after destruction, its action never run.
   */
  method ReplacedReservation(pageSize: nat) returns (left: nat, ghost ran: seq<Action>)
    requires 0 < pageSize <= 0x1_0000
    ensures left > 0 && ran == []
  {
    var mapper := OutlivingAllocation(pageSize);
    OnlyNamedHere(mapper.reservations, 2 * pageSize, 2 * pageSize);
    assert mapper.kernel.Unused(2 * pageSize, pageSize);
    hide Mapper.Consistent, EachRetiredOnce, NamedIn;
    var _ := ReserveThenDestroy(mapper, 2 * pageSize, pageSize);
    left, ran := |mapper.allocations|, mapper.executed;
    NeverRan(mapper);
  }

  /** From the start: initialized twice at the same place, one of the two is never deinitialized. */
  method ReplacedAllocation(pageSize: nat) returns (left: nat, ghost once: bool)
    requires 0 < pageSize <= 0x1_0000
    ensures left == 0 && !once
  {
    var mapper := OneAllocation(pageSize, pageSize, pageSize, pageSize);
    var segment := OnePage(pageSize, 0, READ_WRITE);
    OnePageFits(mapper.kernel, pageSize, pageSize, pageSize, segment);
    hide Mapper.Consistent, Findable, EachRetiredOnce, NamedIn, IsPage, Covers, Addressable, Lowest, AllSegmentsMapped;
    var r := InitializeThenDestroy(mapper, pageSize, [segment], Some([8]));
    left, once := |mapper.allocations|, EachRetiredOnce(mapper.ledger);
  }

  /** With one record and something still allocated, no action has run. */
  lemma NeverRan(mapper: Mapper)
    requires mapper.Valid() && |mapper.ledger.records| == 1 && mapper.allocations.Keys != {}
    ensures mapper.executed == []
  {
    var l := mapper.ledger;
    var b :| b in mapper.allocations;
    assert l.live[b] == 0 && l.records[0].base == b;
    assert forall k :: 0 <= k < |l.retired| ==> l.retired[k] == 0;
    assert l.retired == [];
  }
}
