/**
 What marking a region of physical memory as rasterizer-cached means for every virtual address and every
 page table entry, said of the physical addresses alone.
 */
module RegionMarking {
  import opened Common
  import opened MemoryMap

  /** The page of `v` stands for a physical page that the region reaches into. */
  predicate Within(start: nat, size: nat, v: nat)
    requires Cacheable(v)
  {
    start / PAGE_SIZE <= Physical(v) / PAGE_SIZE <= (start + size - 1) / PAGE_SIZE
  }

  /** The host memory behind a physical address that the rasterizer may cache. */
  function RefAt(paddr: nat): MemoryRef
    requires VRAM_PADDR <= paddr
  {
    if paddr < FCRAM_PADDR then MemoryRef(VRAM, paddr - VRAM_PADDR) else MemoryRef(FCRAM, paddr - FCRAM_PADDR)
  }

  /** The two linear heaps and VRAM show host memory by physical address. */
  lemma LinearRefIsPhysical(v: nat)
    requires Cacheable(v)
    ensures LinearRef(v) == RefAt(Physical(v))
  {
  }

  /** An entry of a page table before and after a region was marked. */
  ghost predicate EntryMarked(before: Entry, after: Entry, page: nat, start: nat, size: nat, cached: bool) {
    var v := page * PAGE_SIZE;
    if before.kind != Unmapped && Cacheable(v) && Within(start, size, v) then
      if cached then before.kind == Memory && after == Entry(RasterizerCachedMemory, None)
      else before.kind == RasterizerCachedMemory && after == Entry(Memory, Some(RefAt(Physical(v))))
    else
      after == before
  }

  /** Exactly the pages of the region are marked, in the marker and wherever a table maps them. */
  ghost predicate RegionMarked(before: System, after: System, start: nat, size: nat, cached: bool)
    requires SystemOk(before) && SystemOk(after)
  {
    && |after.tables| == |before.tables|
    && (forall v: nat :: IsCached(after.marker, v) == if Cacheable(v) && Within(start, size, v) then cached else IsCached(before.marker, v))
    && forall i, page: nat :: 0 <= i < |before.tables| && page < PAGE_TABLE_NUM_ENTRIES ==>
         EntryMarked(EntryAt(before.tables[i], page), EntryAt(after.tables[i], page), page, start, size, cached)
  }

  // ---------------------------------------------------------------- pages of a region

  lemma TouchesConcat(a: seq<nat>, b: seq<nat>, page: nat)
    ensures Touches(a + b, page) <==> Touches(a, page) || Touches(b, page)
  {
    if Touches(a, page) {
      var k :| 0 <= k < |a| && a[k] / PAGE_SIZE == page;
      assert (a + b)[k] / PAGE_SIZE == page;
    }
    if Touches(b, page) {
      var k :| 0 <= k < |b| && b[k] / PAGE_SIZE == page;
      assert (a + b)[|a| + k] / PAGE_SIZE == page;
    }
  }

  /** Every alias of a physical page, and nothing else, is among its virtual addresses. */
  lemma PageIsTouchedIff(paddr: nat, v: nat)
    requires Cacheable(v)
    ensures Touches(Virtuals(paddr), v / PAGE_SIZE) <==> Physical(v) / PAGE_SIZE == paddr / PAGE_SIZE
  {
    var vaddrs := Virtuals(paddr);
    VirtualsInvert(paddr);
    if Touches(vaddrs, v / PAGE_SIZE) {
      var k :| 0 <= k < |vaddrs| && vaddrs[k] / PAGE_SIZE == v / PAGE_SIZE;
      assert vaddrs[k] in vaddrs;
      SamePageSamePhysical(vaddrs[k], v);
    }
    if Physical(v) / PAGE_SIZE == paddr / PAGE_SIZE {
      var k := if InNewLinearHeap(v) && paddr < FCRAM_PADDR_END then 1 else 0;
      assert vaddrs[k] / PAGE_SIZE == v / PAGE_SIZE;
    }
  }

  lemma {:induction false} RegionIsTouchedIff(start: nat, n: nat, v: nat)
    requires Cacheable(v)
    ensures Touches(RegionVirtuals(start, n), v / PAGE_SIZE) <==> start / PAGE_SIZE <= Physical(v) / PAGE_SIZE < start / PAGE_SIZE + n
  {
    if n > 0 {
      RegionIsTouchedIff(start, n - 1, v);
      PageIsTouchedIff(start + (n - 1) * PAGE_SIZE, v);
      TouchesConcat(RegionVirtuals(start, n - 1), Virtuals(start + (n - 1) * PAGE_SIZE), v / PAGE_SIZE);
    }
  }

  /** The pages between the first and the last byte of the region, at each of their addresses. */
  lemma RegionCovers(start: nat, size: nat, v: nat)
    requires start > 0 && Cacheable(v)
    ensures Touches(RegionVirtuals(start, NumPages(start, size)), v / PAGE_SIZE) <==> Within(start, size, v)
  {
    RegionIsTouchedIff(start, NumPages(start, size), v);
  }

  // ---------------------------------------------------------------- effect of a marking

  lemma TouchesLast(vaddrs: seq<nat>, page: nat)
    requires vaddrs != []
    ensures Touches(vaddrs, page) <==> Touches(vaddrs[..|vaddrs| - 1], page) || vaddrs[|vaddrs| - 1] / PAGE_SIZE == page
  {
    var last := [vaddrs[|vaddrs| - 1]];
    assert vaddrs == vaddrs[..|vaddrs| - 1] + last;
    TouchesConcat(vaddrs[..|vaddrs| - 1], last, page);
    assert Touches(last, page) <==> last[0] / PAGE_SIZE == page;
  }

  lemma {:induction false} MarkAllInMarker(s: System, vaddrs: seq<nat>, cached: bool, a: nat)
    requires SystemOk(s) && (forall v :: v in vaddrs ==> Cacheable(v)) && MarkAll(s, vaddrs, cached).Some?
    ensures IsCached(MarkAll(s, vaddrs, cached).value.marker, a) == if Touches(vaddrs, a / PAGE_SIZE) then cached else IsCached(s.marker, a)
    decreases |vaddrs|
  {
    if vaddrs != [] {
      MarkAllInMarker(s, vaddrs[..|vaddrs| - 1], cached, a);
      TouchesLast(vaddrs, a / PAGE_SIZE);
    }
  }

  /** A table entry after distinct pages were marked: its own page, if it is among them, was marked once. */
  lemma {:induction false} MarkAllInTable(s: System, vaddrs: seq<nat>, cached: bool, i: nat, page: nat)
    requires SystemOk(s) && (forall v :: v in vaddrs ==> Cacheable(v)) && MarkAll(s, vaddrs, cached).Some?
    requires DistinctPages(vaddrs) && i < |s.tables| && page < PAGE_TABLE_NUM_ENTRIES
    ensures |MarkAll(s, vaddrs, cached).value.tables| == |s.tables|
    ensures Touches(vaddrs, page) ==> Cacheable(page * PAGE_SIZE)
    ensures var e, e' := EntryAt(s.tables[i], page), EntryAt(MarkAll(s, vaddrs, cached).value.tables[i], page);
            if Touches(vaddrs, page) then MarkEntry(e, page, cached) == Some(e') else e' == e
    decreases |vaddrs|
  {
    if vaddrs != [] {
      var before, v := vaddrs[..|vaddrs| - 1], vaddrs[|vaddrs| - 1];
      DistinctInit(vaddrs);
      MarkAllInTable(s, before, cached, i, page);
      TouchesLast(vaddrs, page);
      MarkTablesAt(MarkAll(s, before, cached).value.tables, PageOf(v), cached);
    }
  }

  /** A successful call of `RasterizerMarkRegionCached` marks the region at every alias and in every table. */
  lemma MarkRegionMarks(s: System, start: nat, size: nat, cached: bool)
    requires SystemOk(s) && start > 0 && MarkRegion(s, start, size, cached).Some?
    ensures |MarkRegion(s, start, size, cached).value.tables| == |s.tables|
    ensures RegionMarked(s, MarkRegion(s, start, size, cached).value, start, size, cached)
  {
    var vaddrs := RegionVirtuals(start, NumPages(start, size));
    var after := MarkRegion(s, start, size, cached).value;
    RegionPagesDistinct(start, NumPages(start, size));
    SameTableCount(s, vaddrs, cached);
    forall v: nat
      ensures IsCached(after.marker, v) == if Cacheable(v) && Within(start, size, v) then cached else IsCached(s.marker, v)
    {
      MarkAllInMarker(s, vaddrs, cached, v);
      if Cacheable(v) {
        RegionCovers(start, size, v);
      }
    }
    forall i, page: nat | 0 <= i < |s.tables| && page < PAGE_TABLE_NUM_ENTRIES
      ensures EntryMarked(EntryAt(s.tables[i], page), EntryAt(after.tables[i], page), page, start, size, cached)
    {
      MarkAllInTable(s, vaddrs, cached, i, page);
      if Cacheable(page * PAGE_SIZE) {
        RegionCovers(start, size, page * PAGE_SIZE);
        LinearRefIsPhysical(page * PAGE_SIZE);
      }
    }
  }

  lemma {:induction false} SameTableCount(s: System, vaddrs: seq<nat>, cached: bool)
    requires SystemOk(s) && (forall v :: v in vaddrs ==> Cacheable(v)) && MarkAll(s, vaddrs, cached).Some?
    ensures |MarkAll(s, vaddrs, cached).value.tables| == |s.tables|
    decreases |vaddrs|
  {
    if vaddrs != [] {
      SameTableCount(s, vaddrs[..|vaddrs| - 1], cached);
    }
  }

  /**
   The call gets through if and only if, at every alias of every page of the region, each table leaves the
   page unmapped or has it as memory in the state opposite to the one asked for.
   */
  lemma RegionCanBeMarkedIff(s: System, start: nat, size: nat, cached: bool)
    requires SystemOk(s) && Agrees(s) && start > 0
    ensures MarkRegion(s, start, size, cached).Some? <==>
            forall v: nat :: Cacheable(v) && Within(start, size, v) ==>
              forall i :: 0 <= i < |s.tables| ==>
                var kind := s.tables[i].kinds[v / PAGE_SIZE];
                kind == Unmapped || kind == if cached then Memory else RasterizerCachedMemory
  {
    var vaddrs := RegionVirtuals(start, NumPages(start, size));
    MarkRegionSucceedsIff(s, start, size, cached);
    forall v: nat | Cacheable(v)
      ensures CanMark(s, v, cached) <==>
              forall i :: 0 <= i < |s.tables| ==>
                var kind := s.tables[i].kinds[v / PAGE_SIZE];
                kind == Unmapped || kind == if cached then Memory else RasterizerCachedMemory
    {
      CanMarkIff(s, v, cached);
    }
    if CanMarkEach(s, vaddrs, cached) {
      forall v: nat | Cacheable(v) && Within(start, size, v)
        ensures CanMark(s, v, cached)
      {
        RegionCovers(start, size, v);
        var k :| 0 <= k < |vaddrs| && vaddrs[k] / PAGE_SIZE == v / PAGE_SIZE;
        SamePageSameMark(s.marker, v);
        SamePageSameMark(s.marker, vaddrs[k]);
        assert CanMark(s, vaddrs[k], cached);
      }
    }
    if forall v: nat :: Cacheable(v) && Within(start, size, v) ==> CanMark(s, v, cached) {
      forall k | 0 <= k < |vaddrs|
        ensures CanMark(s, vaddrs[k], cached)
      {
        assert vaddrs[k] in vaddrs && Touches(vaddrs, vaddrs[k] / PAGE_SIZE);
        RegionCovers(start, size, vaddrs[k]);
      }
    }
  }

  lemma CanMarkIff(s: System, v: nat, cached: bool)
    requires SystemOk(s) && Agrees(s) && Cacheable(v)
    ensures CanMark(s, v, cached) <==>
            forall i :: 0 <= i < |s.tables| ==>
              var kind := s.tables[i].kinds[v / PAGE_SIZE];
              kind == Unmapped || kind == if cached then Memory else RasterizerCachedMemory
  {
    SamePageSameMark(s.marker, v);
    forall i | 0 <= i < |s.tables|
      ensures EntryAgrees(s.marker, PageOf(v), EntryAt(s.tables[i], PageOf(v)))
    {
    }
  }
}
