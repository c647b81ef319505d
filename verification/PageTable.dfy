/** The kernel's page protections, as far as the JIT memory mapper can see them. */
module PageTable {
  datatype Protection = Protection(read: bool, write: bool, execute: bool)

  const READ_WRITE := Protection(true, true, false)

  predicate WriteExecute(protection: Protection) {
    protection.write && protection.execute
  }

  /** The first address of the page that holds `address`. */
  function PageStart(pageSize: nat, address: nat): (start: nat)
    requires pageSize > 0
    ensures start <= address < start + pageSize
  {
    if address < pageSize then 0 else pageSize + PageStart(pageSize, address - pageSize)
  }

  lemma {:induction false} PageStartIsPage(pageSize: nat, address: nat)
    requires pageSize > 0
    ensures IsPage(pageSize, PageStart(pageSize, address))
  {
    if address >= pageSize {
      PageStartIsPage(pageSize, address - pageSize);
    }
  }

  /** A page is named by its first address. */
  predicate IsPage(pageSize: nat, page: nat)
    requires pageSize > 0
  {
    PageStart(pageSize, page) == page
  }

  /** Pages start at the multiples of the page size. */
  lemma {:induction false} PagesAreMultiples(pageSize: nat, page: nat)
    requires pageSize > 0
    ensures IsPage(pageSize, page) <==> exists k: nat :: page == k * pageSize
  {
    if page < pageSize {
      assert page == 0 ==> page == 0 * pageSize;
      forall k: nat | page == k * pageSize ensures page == 0 {
        assert k > 0 ==> k * pageSize >= pageSize;
      }
    } else {
      PagesAreMultiples(pageSize, page - pageSize);
      if k: nat :| page - pageSize == k * pageSize {
        assert page == (k + 1) * pageSize;
      }
      if k: nat :| page == k * pageSize {
        assert page - pageSize == (k - 1) * pageSize;
      }
    }
  }

  /** The page at `page` shares a byte with the range of `size` bytes at `base`. */
  predicate Covers(pageSize: nat, base: nat, size: nat, page: nat) {
    page < base + size && base < page + pageSize
  }

  type Table = map<nat, Protection>

  /** Every page of the range is among these. */
  predicate AllMapped(pageSize: nat, pages: set<nat>, base: nat, size: nat)
    requires pageSize > 0
  {
    forall p: nat | 0 <= p < base + size :: IsPage(pageSize, p) && Covers(pageSize, base, size, p) ==> p in pages
  }

  /** No page is writable and executable at once. */
  ghost predicate NeverBoth(table: Table) {
    forall p :: p in table ==> !WriteExecute(table[p])
  }

  class Kernel {
    const pageSize: nat
    /** Which system calls fail, by their number. */
    const fault: nat -> bool
    var clock: nat
    var table: Table
    /** Some page has been writable and executable at once, now or earlier. */
    ghost var everBoth: bool

    ghost predicate Valid()
      reads this
    {
      pageSize > 0 && (everBoth || NeverBoth(table))
    }

    constructor (pageSize: nat, fault: nat -> bool)
      requires pageSize > 0
      ensures Valid() && this.pageSize == pageSize && this.fault == fault
      ensures table == map[] && !everBoth && clock == 0
    {
      this.pageSize, this.fault := pageSize, fault;
      clock, table := 0, map[];
      everBoth := false;
    }

    /** The pages of a new block. */
    function Fresh(base: nat, size: nat): (block: Table)
      requires pageSize > 0
      ensures forall p :: p in block <==> IsPage(pageSize, p) && Covers(pageSize, base, size, p)
      ensures forall p :: p in block ==> block[p] == READ_WRITE
    {
      map p: nat | 0 <= p < base + size && IsPage(pageSize, p) && Covers(pageSize, base, size, p) :: READ_WRITE
    }

    /** No page of the range is mapped yet. */
    ghost predicate Unused(base: nat, size: nat)
      reads this`table
    {
      forall p :: p in table ==> !Covers(pageSize, base, size, p)
    }

    /** Maps fresh pages, readable and writable. */
    method Map(base: nat, size: nat) returns (ok: bool)
      requires Valid() && Unused(base, size)
      modifies this
      ensures Valid() && clock == old(clock) + 1
      ensures ok <==> !fault(old(clock))
      ensures table == if ok then old(table) + Fresh(base, size) else old(table)
      ensures everBoth == (old(everBoth) || !NeverBoth(table))
      ensures everBoth == old(everBoth)
    {
      ok := !fault(clock);
      clock := clock + 1;
      if ok {
        table := table + Fresh(base, size);
      }
      everBoth := everBoth || !NeverBoth(table);
    }

    /** Changes the protection of every page of a range; when it fails, any part of the range may have changed. */
    method Protect(base: nat, size: nat, protection: Protection) returns (ok: bool)
      requires Valid()
      modifies this
      ensures Valid() && clock == old(clock) + 1
      ensures table.Keys == old(table).Keys
      ensures ok <==> !fault(old(clock)) && AllMapped(pageSize, old(table).Keys, base, size)
      ensures forall p :: p in table ==>
                if !Covers(pageSize, base, size, p) then table[p] == old(table)[p]
                else table[p] == protection || (!ok && table[p] == old(table)[p])
      ensures everBoth == (old(everBoth) || !NeverBoth(table))
      ensures !WriteExecute(protection) ==> everBoth == old(everBoth)
      ensures ok && size > 0 && WriteExecute(protection) ==> everBoth
    {
      PageStartIsPage(pageSize, base);
      ghost var first := PageStart(pageSize, base);
      var changed := set p | p in table && Covers(pageSize, base, size, p);
      ok := AllMapped(pageSize, table.Keys, base, size) && !fault(clock);
      if !ok {
        changed :| changed <= set p | p in table && Covers(pageSize, base, size, p);
      }
      table := map p | p in table :: if p in changed then protection else table[p];
      clock := clock + 1;
      everBoth := everBoth || !NeverBoth(table);
      assert ok && size > 0 ==> first in table && table[first] == protection;
    }

    /** Unmaps a range; an empty range is accepted and nothing happens. */
    method Unmap(base: nat, size: nat) returns (ok: bool)
      requires Valid()
      modifies this
      ensures Valid() && clock == old(clock) + 1
      ensures ok <==> size == 0 || !fault(old(clock))
      ensures table == if ok && size != 0
                       then map p | p in old(table) && !Covers(pageSize, base, size, p) :: old(table)[p]
                       else old(table)
      ensures everBoth == old(everBoth)
    {
      ok := size == 0 || !fault(clock);
      if ok && size != 0 {
        table := map p | p in table && !Covers(pageSize, base, size, p) :: table[p];
      }
      clock := clock + 1;
      everBoth := everBoth || !NeverBoth(table);
    }
  }
}
