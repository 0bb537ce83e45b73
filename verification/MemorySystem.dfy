/**
 `MemorySystem`: page tables and the cache marker as the arrays they are, and the operations that map pages
 and mark them cached in place.
 */
module MemorySystem {
  import opened Common
  import opened MemoryMap
  import opened RegionMarking

  class PageTable {
    const attributes: array<PageType>
    const pointers: array<Option<MemoryRef>>

    predicate Valid() {
      attributes.Length == PAGE_TABLE_NUM_ENTRIES == pointers.Length
    }

    ghost function View(): (t: Table)
      requires Valid()
      reads attributes, pointers
      ensures TableOk(t)
    {
      Table(attributes[..], pointers[..])
    }

    constructor ()
      ensures Valid() && View() == Cleared() && fresh(attributes) && fresh(pointers)
    {
      attributes := new PageType[PAGE_TABLE_NUM_ENTRIES](_ => Unmapped);
      pointers := new Option<MemoryRef>[PAGE_TABLE_NUM_ENTRIES](_ => None);
      new;
      assert View().kinds == Cleared().kinds && View().pointers == Cleared().pointers;
    }

    method Set(page: nat, e: Entry)
      requires Valid() && page < PAGE_TABLE_NUM_ENTRIES
      modifies attributes, pointers
      ensures View() == SetEntry(old(View()), page, e)
    {
      attributes[page] := e.kind;
      pointers[page] := e.pointer;
      assert View().kinds == old(View()).kinds[page := e.kind];
      assert View().pointers == old(View()).pointers[page := e.pointer];
    }
  }

  class RasterizerCacheMarker {
    const vram: array<bool>
    const linearHeap: array<bool>
    const newLinearHeap: array<bool>

    predicate Valid() {
      && vram.Length == VRAM_SIZE / PAGE_SIZE
      && linearHeap.Length == LINEAR_HEAP_SIZE / PAGE_SIZE
      && newLinearHeap.Length == NEW_LINEAR_HEAP_SIZE / PAGE_SIZE
      && vram != linearHeap && linearHeap != newLinearHeap && vram != newLinearHeap
    }

    ghost function View(): (m: MemoryMap.Marker)
      requires Valid()
      reads vram, linearHeap, newLinearHeap
      ensures MarkerOk(m)
    {
      Marker(vram[..], linearHeap[..], newLinearHeap[..])
    }

    constructor ()
      ensures Valid() && View() == AllClear().marker
    {
      vram := new bool[VRAM_SIZE / PAGE_SIZE](_ => false);
      linearHeap := new bool[LINEAR_HEAP_SIZE / PAGE_SIZE](_ => false);
      newLinearHeap := new bool[NEW_LINEAR_HEAP_SIZE / PAGE_SIZE](_ => false);
      new;
      assert View().vram == AllClear().marker.vram && View().linearHeap == AllClear().marker.linearHeap;
      assert View().newLinearHeap == AllClear().marker.newLinearHeap;
    }

    method Mark(addr: nat, cached: bool)
      requires Valid()
      modifies vram, linearHeap, newLinearHeap
      ensures View() == MemoryMap.Mark(old(View()), addr, cached)
    {
      if InVram(addr) {
        vram[(addr - VRAM_VADDR) / PAGE_SIZE] := cached;
      } else if InLinearHeap(addr) {
        linearHeap[(addr - LINEAR_HEAP_VADDR) / PAGE_SIZE] := cached;
      } else if InNewLinearHeap(addr) {
        newLinearHeap[(addr - NEW_LINEAR_HEAP_VADDR) / PAGE_SIZE] := cached;
      }
    }

    method IsCached(addr: nat) returns (cached: bool)
      requires Valid()
      ensures cached == MemoryMap.IsCached(View(), addr)
    {
      if InVram(addr) {
        return vram[(addr - VRAM_VADDR) / PAGE_SIZE];
      } else if InLinearHeap(addr) {
        return linearHeap[(addr - LINEAR_HEAP_VADDR) / PAGE_SIZE];
      } else if InNewLinearHeap(addr) {
        return newLinearHeap[(addr - NEW_LINEAR_HEAP_VADDR) / PAGE_SIZE];
      }
      return false;
    }
  }

  class MemorySystemImpl {
    const cacheMarker: RasterizerCacheMarker
    var pageTableList: seq<PageTable>

    ghost predicate Valid()
      reads this
    {
      && cacheMarker.Valid()
      && (forall i :: 0 <= i < |pageTableList| ==> pageTableList[i].Valid())
      && forall i, j :: 0 <= i < j < |pageTableList| ==>
           pageTableList[i].attributes != pageTableList[j].attributes && pageTableList[i].pointers != pageTableList[j].pointers
    }

    /** Everything marking may write to. */
    ghost function Frame(): (f: set<object>)
      reads this
      ensures this !in f
    {
      {cacheMarker.vram as object, cacheMarker.linearHeap, cacheMarker.newLinearHeap} +
      (set t | t in pageTableList :: t.attributes as object) + (set t | t in pageTableList :: t.pointers as object)
    }

    ghost function Tables(): (ts: seq<Table>)
      requires Valid()
      reads this, Frame()
      ensures |ts| == |pageTableList| && TablesOk(ts)
      ensures forall i :: 0 <= i < |ts| ==> ts[i] == pageTableList[i].View()
    {
      seq(|pageTableList|, i requires 0 <= i < |pageTableList| && pageTableList[i].Valid() reads this, Frame() =>
        assert pageTableList[i].attributes in Frame() && pageTableList[i].pointers in Frame();
        pageTableList[i].View())
    }

    ghost function View(): (s: System)
      requires Valid()
      reads this, Frame()
      ensures SystemOk(s)
    {
      System(cacheMarker.View(), Tables())
    }

    constructor ()
      ensures Valid() && View() == AllClear()
    {
      cacheMarker := new RasterizerCacheMarker();
      pageTableList := [];
    }

    /** `RegisterPageTable`. */
    method Register(t: PageTable)
      requires Valid() && t.Valid()
      requires forall u :: u in pageTableList ==> u.attributes != t.attributes && u.pointers != t.pointers
      modifies this`pageTableList
      ensures Valid() && pageTableList == old(pageTableList) + [t]
    {
      pageTableList := pageTableList + [t];
    }

    method MapPages(t: PageTable, base: nat, size: nat, memory: Option<MemoryRef>, kind: PageType)
      requires Valid() && t.Valid() && base + size <= PAGE_TABLE_NUM_ENTRIES
      modifies t.attributes, t.pointers
      ensures t.View() == MemoryMap.MapPages(cacheMarker.View(), old(t.View()), base, size, memory, kind)
    {
      var current := memory;
      var page := base;
      while page != base + size
        invariant base <= page <= base + size
        invariant current == AfterPages(memory, page - base)
        invariant t.View() == MemoryMap.MapPages(cacheMarker.View(), old(t.View()), base, page - base, memory, kind)
        decreases base + size - page
      {
        var entry := Entry(kind, current);
        var cached := cacheMarker.IsCached(page * PAGE_SIZE);
        if kind == Memory && cached {
          entry := Entry(RasterizerCachedMemory, None);
        }
        t.Set(page, entry);
        page := page + 1;
        if current.Some? && Remaining(current.value) > PAGE_SIZE {
          current := Some(current.value.(offset := current.value.offset + PAGE_SIZE));
        }
      }
    }

    /** The loop over the registered tables. */
    method MarkInTables(page: nat, cached: bool)
      requires Valid() && page < PAGE_TABLE_NUM_ENTRIES && Cacheable(page * PAGE_SIZE)
      requires forall i :: 0 <= i < |pageTableList| ==> MarkEntry(EntryAt(pageTableList[i].View(), page), page, cached).Some?
      modifies set t | t in pageTableList :: t.attributes, set t | t in pageTableList :: t.pointers
      ensures forall i :: 0 <= i < |pageTableList| ==>
                pageTableList[i].View() ==
                SetEntry(old(pageTableList[i].View()), page, MarkEntry(EntryAt(old(pageTableList[i].View()), page), page, cached).value)
    {
      var i := 0;
      while i < |pageTableList|
        invariant 0 <= i <= |pageTableList|
        invariant forall j :: 0 <= j < i ==>
          pageTableList[j].View() ==
          SetEntry(old(pageTableList[j].View()), page, MarkEntry(EntryAt(old(pageTableList[j].View()), page), page, cached).value)
        invariant forall j :: i <= j < |pageTableList| ==> pageTableList[j].View() == old(pageTableList[j].View())
      {
        MarkOne(pageTableList[i], page, cached);
        i := i + 1;
      }
    }

    method MarkOne(t: PageTable, page: nat, cached: bool)
      requires t.Valid() && page < PAGE_TABLE_NUM_ENTRIES && Cacheable(page * PAGE_SIZE)
      requires MarkEntry(EntryAt(t.View(), page), page, cached).Some?
      modifies t.attributes, t.pointers
      ensures t.View() == SetEntry(old(t.View()), page, MarkEntry(EntryAt(old(t.View()), page), page, cached).value)
    {
      var kind := t.attributes[page];
      if cached && kind == Memory {
        t.Set(page, Entry(RasterizerCachedMemory, None));
      } else if !cached && kind == RasterizerCachedMemory {
        t.Set(page, Entry(Memory, Some(LinearRef(page * PAGE_SIZE))));
      } else {
        assert SetEntry(t.View(), page, EntryAt(t.View(), page)) == t.View();
      }
    }

    method SetMarker(v: nat, cached: bool)
      requires Valid()
      modifies cacheMarker.vram, cacheMarker.linearHeap, cacheMarker.newLinearHeap
      ensures cacheMarker.View() == MemoryMap.Mark(old(cacheMarker.View()), v, cached)
      ensures Tables() == old(Tables())
    {
      cacheMarker.Mark(v, cached);
    }

    method MarkAllTables(page: nat, cached: bool)
      requires Valid() && page < PAGE_TABLE_NUM_ENTRIES && Cacheable(page * PAGE_SIZE)
      requires MarkTables(Tables(), page, cached).Some?
      modifies set t | t in pageTableList :: t.attributes, set t | t in pageTableList :: t.pointers
      ensures Some(Tables()) == MarkTables(old(Tables()), page, cached)
    {
      ghost var before := Tables();
      MarkTablesAt(before, page, cached);
      assert forall i :: 0 <= i < |before| ==> before[i] == pageTableList[i].View();
      MarkInTables(page, cached);
      assert Tables() == MarkTables(before, page, cached).value;
    }

    /** One virtual page: the marker, then every registered table. */
    method MarkVirtualPage(v: nat, cached: bool)
      requires Valid() && Cacheable(v) && MarkVirtual(View(), v, cached).Some?
      modifies Frame()
      ensures Valid() && pageTableList == old(pageTableList) && Some(View()) == MarkVirtual(old(View()), v, cached)
    {
      SetMarker(v, cached);
      MarkAllTables(PageOf(v), cached);
    }

    /** The next virtual address of a page, after those before `k` were marked from state `s`. */
    method MarkNext(vaddrs: seq<nat>, k: nat, cached: bool, ghost s: System)
      requires Valid() && k < |vaddrs| && SystemOk(s) && forall v :: v in vaddrs ==> Cacheable(v)
      requires MarkAll(s, vaddrs, cached).Some? && MarkAll(s, vaddrs[..k], cached) == Some(View())
      modifies Frame()
      ensures Valid() && pageTableList == old(pageTableList) && MarkAll(s, vaddrs[..k + 1], cached) == Some(View())
    {
      MarkAllTake(s, vaddrs, k + 1, cached);
      assert vaddrs[..k + 1][..k] == vaddrs[..k];
      MarkVirtualPage(vaddrs[k], cached);
    }

    /** One physical page: all its virtual addresses. */
    method MarkPhysicalPage(paddr: nat, cached: bool)
      requires Valid() && MarkAll(View(), Virtuals(paddr), cached).Some?
      modifies Frame()
      ensures Valid() && pageTableList == old(pageTableList) && Some(View()) == MarkAll(old(View()), Virtuals(paddr), cached)
    {
      ghost var s := View();
      var vaddrs := Virtuals(paddr);
      var k := 0;
      while k < |vaddrs|
        invariant 0 <= k <= |vaddrs| && Valid() && pageTableList == old(pageTableList)
        invariant MarkAll(s, vaddrs[..k], cached) == Some(View())
      {
        MarkNext(vaddrs, k, cached, s);
        k := k + 1;
      }
      assert vaddrs[..k] == vaddrs;
    }

    method MarkPages(start: nat, numPages: nat, cached: bool)
      requires Valid() && MarkAll(View(), RegionVirtuals(start, numPages), cached).Some?
      modifies Frame()
      ensures Valid() && pageTableList == old(pageTableList)
      ensures Some(View()) == MarkAll(old(View()), RegionVirtuals(start, numPages), cached)
    {
      ghost var s := View();
      var i := 0;
      while i < numPages
        invariant 0 <= i <= numPages && Valid() && pageTableList == old(pageTableList)
        invariant MarkAll(s, RegionVirtuals(start, i), cached) == Some(View())
      {
        RegionStep(s, start, i, numPages, cached);
        MarkPhysicalPage(start + i * PAGE_SIZE, cached);
        i := i + 1;
      }
    }

    method RasterizerMarkRegionCached(start: nat, size: nat, cached: bool)
      requires Valid() && Agrees(View()) && CanMarkRegion(View(), start, size, cached)
      modifies Frame()
      ensures Valid() && pageTableList == old(pageTableList) && Some(View()) == MarkRegion(old(View()), start, size, cached)
      ensures Agrees(View())
      ensures if start == 0 then View() == old(View()) else RegionMarked(old(View()), View(), start, size, cached)
    {
      ghost var s := View();
      MarkRegionSucceedsIff(s, start, size, cached);
      if start != 0 {
        MarkRegionMarks(s, start, size, cached);
        MarkPages(start, NumPages(start, size), cached);
      }
    }
  }

  /** A successful marking is successful on every prefix. */
  lemma MarkAllTake(s: System, vaddrs: seq<nat>, k: nat, cached: bool)
    requires SystemOk(s) && (forall v :: v in vaddrs ==> Cacheable(v)) && k <= |vaddrs|
    requires MarkAll(s, vaddrs, cached).Some?
    ensures MarkAll(s, vaddrs[..k], cached).Some?
  {
    assert vaddrs == vaddrs[..k] + vaddrs[k..];
    MarkAllConcat(s, vaddrs[..k], vaddrs[k..], cached);
  }

  lemma {:induction false} RegionPrefix(start: nat, i: nat, n: nat)
    requires i <= n
    ensures RegionVirtuals(start, i) <= RegionVirtuals(start, n)
    decreases n
  {
    if i < n {
      RegionPrefix(start, i, n - 1);
    }
  }

  /** One more page of a marking that is successful as a whole. */
  lemma RegionStep(s: System, start: nat, i: nat, n: nat, cached: bool)
    requires SystemOk(s) && i < n && MarkAll(s, RegionVirtuals(start, n), cached).Some?
    ensures MarkAll(s, RegionVirtuals(start, i), cached).Some? && MarkAll(s, RegionVirtuals(start, i + 1), cached).Some?
    ensures MarkAll(MarkAll(s, RegionVirtuals(start, i), cached).value, Virtuals(start + i * PAGE_SIZE), cached) ==
            MarkAll(s, RegionVirtuals(start, i + 1), cached)
  {
    var all, upTo, next := RegionVirtuals(start, n), RegionVirtuals(start, i + 1), RegionVirtuals(start, i);
    RegionPrefix(start, i + 1, n);
    MarkAllTake(s, all, |upTo|, cached);
    assert all[..|upTo|] == upTo;
    assert upTo == next + Virtuals(start + i * PAGE_SIZE);
    MarkAllConcat(s, next, Virtuals(start + i * PAGE_SIZE), cached);
  }
}
