/**
 Guest address spaces: page tables, host memory references and the marker that records which pages the
 rasterizer has cached. Everything is a value here; `MemorySystem` updates it in place.
 */
module MemoryMap {
  import opened Common

  const PAGE_SIZE: nat := 0x1000
  const PAGE_TABLE_NUM_ENTRIES: nat := 0x10_0000

  const VRAM_SIZE: nat := 0x0060_0000
  const DSP_RAM_SIZE: nat := 0x0008_0000
  const FCRAM_N3DS_SIZE: nat := 0x1000_0000
  const N3DS_EXTRA_RAM_SIZE: nat := 0x0040_0000

  const VRAM_PADDR: nat := 0x1800_0000
  const VRAM_PADDR_END: nat := VRAM_PADDR + VRAM_SIZE
  const FCRAM_PADDR: nat := 0x2000_0000
  const FCRAM_PADDR_END: nat := FCRAM_PADDR + 0x0800_0000
  const FCRAM_N3DS_PADDR_END: nat := FCRAM_PADDR + FCRAM_N3DS_SIZE

  const LINEAR_HEAP_VADDR: nat := 0x1400_0000
  const LINEAR_HEAP_SIZE: nat := 0x0800_0000
  const LINEAR_HEAP_VADDR_END: nat := LINEAR_HEAP_VADDR + LINEAR_HEAP_SIZE
  const VRAM_VADDR: nat := 0x1F00_0000
  const VRAM_VADDR_END: nat := VRAM_VADDR + VRAM_SIZE
  const NEW_LINEAR_HEAP_VADDR: nat := 0x3000_0000
  const NEW_LINEAR_HEAP_SIZE: nat := 0x1000_0000
  const NEW_LINEAR_HEAP_VADDR_END: nat := NEW_LINEAR_HEAP_VADDR + NEW_LINEAR_HEAP_SIZE

  datatype PageType = Unmapped | Memory | RasterizerCachedMemory | Special

  datatype Region = FCRAM | VRAM | DSP | N3DS

  function RegionSize(r: Region): nat {
    match r
    case FCRAM => FCRAM_N3DS_SIZE
    case VRAM => VRAM_SIZE
    case DSP => DSP_RAM_SIZE
    case N3DS => N3DS_EXTRA_RAM_SIZE
  }

  /** A non-null `MemoryRef`. */
  datatype MemoryRef = MemoryRef(backing: Region, offset: nat)

  /** `GetSize`: what is left of the region from here on. */
  function Remaining(m: MemoryRef): int {
    RegionSize(m.backing) - m.offset
  }

  /** What `MapPages` does to its reference after each page. */
  function AdvancePage(m: Option<MemoryRef>): Option<MemoryRef> {
    if m.Some? && Remaining(m.value) > PAGE_SIZE then Some(m.value.(offset := m.value.offset + PAGE_SIZE)) else m
  }

  function AfterPages(m: Option<MemoryRef>, k: nat): Option<MemoryRef> {
    if k == 0 then m else AdvancePage(AfterPages(m, k - 1))
  }

  // ---------------------------------------------------------------- addresses the rasterizer can cache

  predicate InLinearHeap(addr: nat) {
    LINEAR_HEAP_VADDR <= addr < LINEAR_HEAP_VADDR_END
  }

  predicate InNewLinearHeap(addr: nat) {
    NEW_LINEAR_HEAP_VADDR <= addr < NEW_LINEAR_HEAP_VADDR_END
  }

  predicate InVram(addr: nat) {
    VRAM_VADDR <= addr < VRAM_VADDR_END
  }

  predicate Cacheable(addr: nat) {
    InLinearHeap(addr) || InNewLinearHeap(addr) || InVram(addr)
  }

  function PageOf(addr: nat): (page: nat)
    requires Cacheable(addr)
    ensures page == addr / PAGE_SIZE && page < PAGE_TABLE_NUM_ENTRIES && Cacheable(page * PAGE_SIZE)
  {
    addr / PAGE_SIZE
  }

  /** `GetPointerForRasterizerCache`. */
  function LinearRef(addr: nat): (m: MemoryRef)
    requires Cacheable(addr)
    ensures m.offset < RegionSize(m.backing)
  {
    if InLinearHeap(addr) then MemoryRef(FCRAM, addr - LINEAR_HEAP_VADDR)
    else if InNewLinearHeap(addr) then MemoryRef(FCRAM, addr - NEW_LINEAR_HEAP_VADDR)
    else MemoryRef(VRAM, addr - VRAM_VADDR)
  }

  /** `PhysicalToVirtualAddressForRasterizer`. */
  function Virtuals(paddr: nat): (vaddrs: seq<nat>)
    ensures forall v :: v in vaddrs ==> Cacheable(v)
  {
    if VRAM_PADDR <= paddr < VRAM_PADDR_END then [paddr - VRAM_PADDR + VRAM_VADDR]
    else if FCRAM_PADDR <= paddr < FCRAM_PADDR_END then
      [paddr - FCRAM_PADDR + LINEAR_HEAP_VADDR, paddr - FCRAM_PADDR + NEW_LINEAR_HEAP_VADDR]
    else if FCRAM_PADDR_END <= paddr < FCRAM_N3DS_PADDR_END then [paddr - FCRAM_PADDR + NEW_LINEAR_HEAP_VADDR]
    else []
  }

  // ---------------------------------------------------------------- the cache marker

  /** `RasterizerCacheMarker`, one flag per page of each cacheable region. */
  datatype Marker = Marker(vram: seq<bool>, linearHeap: seq<bool>, newLinearHeap: seq<bool>)

  predicate MarkerOk(m: Marker) {
    && |m.vram| == VRAM_SIZE / PAGE_SIZE
    && |m.linearHeap| == LINEAR_HEAP_SIZE / PAGE_SIZE
    && |m.newLinearHeap| == NEW_LINEAR_HEAP_SIZE / PAGE_SIZE
  }

  predicate IsCached(m: Marker, addr: nat)
    requires MarkerOk(m)
  {
    if InVram(addr) then m.vram[(addr - VRAM_VADDR) / PAGE_SIZE]
    else if InLinearHeap(addr) then m.linearHeap[(addr - LINEAR_HEAP_VADDR) / PAGE_SIZE]
    else if InNewLinearHeap(addr) then m.newLinearHeap[(addr - NEW_LINEAR_HEAP_VADDR) / PAGE_SIZE]
    else false
  }

  function Mark(m: Marker, addr: nat, cached: bool): (r: Marker)
    requires MarkerOk(m)
    ensures MarkerOk(r)
    ensures forall a: nat :: IsCached(r, a) == if Cacheable(addr) && a / PAGE_SIZE == addr / PAGE_SIZE then cached else IsCached(m, a)
  {
    if InVram(addr) then m.(vram := m.vram[(addr - VRAM_VADDR) / PAGE_SIZE := cached])
    else if InLinearHeap(addr) then m.(linearHeap := m.linearHeap[(addr - LINEAR_HEAP_VADDR) / PAGE_SIZE := cached])
    else if InNewLinearHeap(addr) then m.(newLinearHeap := m.newLinearHeap[(addr - NEW_LINEAR_HEAP_VADDR) / PAGE_SIZE := cached])
    else m
  }

  // ---------------------------------------------------------------- page tables

  datatype Table = Table(kinds: seq<PageType>, pointers: seq<Option<MemoryRef>>)

  predicate TableOk(t: Table) {
    |t.kinds| == PAGE_TABLE_NUM_ENTRIES == |t.pointers|
  }

  datatype Entry = Entry(kind: PageType, pointer: Option<MemoryRef>)

  function EntryAt(t: Table, page: nat): Entry
    requires TableOk(t) && page < PAGE_TABLE_NUM_ENTRIES
  {
    Entry(t.kinds[page], t.pointers[page])
  }

  function SetEntry(t: Table, page: nat, e: Entry): (r: Table)
    requires TableOk(t) && page < PAGE_TABLE_NUM_ENTRIES
    ensures TableOk(r)
    ensures forall i :: 0 <= i < PAGE_TABLE_NUM_ENTRIES ==> EntryAt(r, i) == if i == page then e else EntryAt(t, i)
  {
    Table(t.kinds[page := e.kind], t.pointers[page := e.pointer])
  }

  /** `PageTable::Clear`. */
  function Cleared(): Table {
    Table(seq(PAGE_TABLE_NUM_ENTRIES, _ => Unmapped), seq(PAGE_TABLE_NUM_ENTRIES, _ => None))
  }

  /** The marker and the registered page tables. */
  datatype System = System(marker: Marker, tables: seq<Table>)

  predicate TablesOk(tables: seq<Table>) {
    forall i :: 0 <= i < |tables| ==> TableOk(tables[i])
  }

  predicate SystemOk(s: System) {
    MarkerOk(s.marker) && TablesOk(s.tables)
  }

  // ---------------------------------------------------------------- mapping

  /** A memory page that is already rasterizer-cached is mapped as such, without a pointer. */
  function MapEntry(m: Marker, page: nat, kind: PageType, memory: Option<MemoryRef>): Entry
    requires MarkerOk(m)
  {
    if kind == Memory && IsCached(m, page * PAGE_SIZE) then Entry(RasterizerCachedMemory, None) else Entry(kind, memory)
  }

  /** The first `k` rounds of `MapPages`. */
  function MapPages(m: Marker, t: Table, base: nat, k: nat, memory: Option<MemoryRef>, kind: PageType): (r: Table)
    requires MarkerOk(m) && TableOk(t) && base + k <= PAGE_TABLE_NUM_ENTRIES
    ensures TableOk(r)
  {
    if k == 0 then t
    else SetEntry(MapPages(m, t, base, k - 1, memory, kind), base + k - 1,
                  MapEntry(m, base + k - 1, kind, AfterPages(memory, k - 1)))
  }

  lemma {:induction false} MapPagesAt(m: Marker, t: Table, base: nat, k: nat, memory: Option<MemoryRef>, kind: PageType, page: nat)
    requires MarkerOk(m) && TableOk(t) && base + k <= PAGE_TABLE_NUM_ENTRIES && page < PAGE_TABLE_NUM_ENTRIES
    ensures EntryAt(MapPages(m, t, base, k, memory, kind), page) ==
            if page < base || base + k <= page then EntryAt(t, page)
            else if kind == Memory && IsCached(m, page * PAGE_SIZE) then Entry(RasterizerCachedMemory, None)
            else Entry(kind, AfterPages(memory, page - base))
  {
    if k > 0 {
      MapPagesAt(m, t, base, k - 1, memory, kind, page);
    }
  }

  /** A target as long as the region is walked page by page and never overrun. */
  lemma {:induction false} LongTargetWalk(m: MemoryRef, size: nat, k: nat)
    requires k < size && size * PAGE_SIZE <= Remaining(m)
    ensures AfterPages(Some(m), k) == Some(m.(offset := m.offset + k * PAGE_SIZE))
    ensures m.offset + k * PAGE_SIZE + PAGE_SIZE <= RegionSize(m.backing)
  {
    if k > 0 {
      LongTargetWalk(m, size, k - 1);
    }
  }

  /** Any target is walked page by page, and its last page, whole or not, stands for all that follow. */
  lemma {:induction false} TargetWalk(m: MemoryRef, k: nat)
    ensures var last := if Remaining(m) > 0 then (Remaining(m) - 1) / PAGE_SIZE else 0;
            AfterPages(Some(m), k) == Some(m.(offset := m.offset + (if k < last then k else last) * PAGE_SIZE))
  {
    if k > 0 {
      TargetWalk(m, k - 1);
    }
  }

  // ---------------------------------------------------------------- marking

  /** The inner switch of `RasterizerMarkRegionCached`; `None` is the `UNREACHABLE` default. */
  function MarkEntry(e: Entry, page: nat, cached: bool): Option<Entry>
    requires Cacheable(page * PAGE_SIZE)
  {
    if e.kind == Unmapped then Some(e)
    else if cached && e.kind == Memory then Some(Entry(RasterizerCachedMemory, None))
    else if !cached && e.kind == RasterizerCachedMemory then Some(Entry(Memory, Some(LinearRef(page * PAGE_SIZE))))
    else None
  }

  /** The loop over the registered tables. */
  function MarkTables(tables: seq<Table>, page: nat, cached: bool): (r: Option<seq<Table>>)
    requires TablesOk(tables) && page < PAGE_TABLE_NUM_ENTRIES && Cacheable(page * PAGE_SIZE)
    ensures r.Some? ==> |r.value| == |tables| && TablesOk(r.value)
  {
    if tables == [] then Some([])
    else
      var n := |tables| - 1;
      var before := MarkTables(tables[..n], page, cached);
      var e := MarkEntry(EntryAt(tables[n], page), page, cached);
      if before.None? || e.None? then None else Some(before.value + [SetEntry(tables[n], page, e.value)])
  }

  function MarkVirtual(s: System, v: nat, cached: bool): (r: Option<System>)
    requires SystemOk(s) && Cacheable(v)
    ensures r.Some? ==> SystemOk(r.value)
  {
    var tables := MarkTables(s.tables, PageOf(v), cached);
    if tables.None? then None else Some(System(Mark(s.marker, v, cached), tables.value))
  }

  function MarkAll(s: System, vaddrs: seq<nat>, cached: bool): (r: Option<System>)
    requires SystemOk(s) && forall v :: v in vaddrs ==> Cacheable(v)
    ensures r.Some? ==> SystemOk(r.value)
  {
    if vaddrs == [] then Some(s)
    else
      var before := MarkAll(s, vaddrs[..|vaddrs| - 1], cached);
      if before.None? then None else MarkVirtual(before.value, vaddrs[|vaddrs| - 1], cached)
  }

  lemma {:induction false} MarkAllConcat(s: System, a: seq<nat>, b: seq<nat>, cached: bool)
    requires SystemOk(s) && (forall v :: v in a ==> Cacheable(v)) && (forall v :: v in b ==> Cacheable(v))
    ensures MarkAll(s, a + b, cached) ==
            match MarkAll(s, a, cached) case None => None case Some(mid) => MarkAll(mid, b, cached)
    decreases |b|
  {
    if b == [] {
      assert a + b == a;
    } else {
      var shorter := b[..|b| - 1];
      assert (a + b)[..|a + b| - 1] == a + shorter;
      MarkAllConcat(s, a, shorter, cached);
    }
  }

  /** All virtual addresses of the first `n` physical pages from `start`, in the source's order. */
  function RegionVirtuals(start: nat, n: nat): (vaddrs: seq<nat>)
    ensures forall v :: v in vaddrs ==> Cacheable(v)
  {
    if n == 0 then [] else RegionVirtuals(start, n - 1) + Virtuals(start + (n - 1) * PAGE_SIZE)
  }

  function NumPages(start: nat, size: nat): (n: nat)
    requires start > 0
  {
    (start + size - 1) / PAGE_SIZE - start / PAGE_SIZE + 1
  }

  /** `RasterizerMarkRegionCached`. */
  function MarkRegion(s: System, start: nat, size: nat, cached: bool): Option<System>
    requires SystemOk(s)
  {
    if start == 0 then Some(s)
    else MarkAll(s, RegionVirtuals(start, NumPages(start, size)), cached)
  }

  // ---------------------------------------------------------------- agreement of marker and tables

  /** Pointers go with type `Memory`, and memory is of cached type exactly where the marker says so. */
  predicate EntryAgrees(m: Marker, page: nat, e: Entry)
    requires MarkerOk(m)
  {
    && (e.pointer.Some? <==> e.kind == Memory)
    && (e.kind == Memory ==> !IsCached(m, page * PAGE_SIZE))
    && (e.kind == RasterizerCachedMemory ==> IsCached(m, page * PAGE_SIZE))
  }

  ghost predicate Agrees(s: System)
    requires SystemOk(s)
  {
    forall i, page :: 0 <= i < |s.tables| && 0 <= page < PAGE_TABLE_NUM_ENTRIES ==>
      EntryAgrees(s.marker, page, EntryAt(s.tables[i], page))
  }

  /** Cacheable pages are mapped one to one. */
  predicate EntryLinear(page: nat, e: Entry) {
    Cacheable(page * PAGE_SIZE) && e.kind == Memory ==> e.pointer == Some(LinearRef(page * PAGE_SIZE))
  }

  ghost predicate Linear(s: System)
    requires SystemOk(s)
  {
    forall i, page :: 0 <= i < |s.tables| && 0 <= page < PAGE_TABLE_NUM_ENTRIES ==> EntryLinear(page, EntryAt(s.tables[i], page))
  }

  /** Each table that maps the page of `v` at all has it as memory in the state opposite to `cached`. */
  ghost predicate CanMark(s: System, v: nat, cached: bool)
    requires SystemOk(s) && Cacheable(v)
  {
    forall i :: 0 <= i < |s.tables| ==>
      var kind := s.tables[i].kinds[PageOf(v)];
      kind == Unmapped || (kind != Special && IsCached(s.marker, v) == !cached)
  }

  /** What marking one page does to every entry of every table. */
  lemma {:induction false} MarkTablesAt(tables: seq<Table>, page: nat, cached: bool)
    requires TablesOk(tables) && page < PAGE_TABLE_NUM_ENTRIES && Cacheable(page * PAGE_SIZE)
    ensures MarkTables(tables, page, cached).Some? <==>
            forall i :: 0 <= i < |tables| ==> MarkEntry(EntryAt(tables[i], page), page, cached).Some?
    ensures MarkTables(tables, page, cached).Some? ==>
            forall i :: 0 <= i < |tables| ==>
              MarkTables(tables, page, cached).value[i] ==
              SetEntry(tables[i], page, MarkEntry(EntryAt(tables[i], page), page, cached).value)
    decreases |tables|
  {
    if tables != [] {
      var n := |tables| - 1;
      MarkTablesAt(tables[..n], page, cached);
      assert forall i :: 0 <= i < n ==> tables[..n][i] == tables[i];
    }
  }

  /**
   When marker and tables agree, `UNREACHABLE` is met exactly if some table maps the page as special, or as
   memory whose state is already the one asked for.
   */
  lemma MarkSucceedsIff(s: System, v: nat, cached: bool)
    requires SystemOk(s) && Agrees(s) && Cacheable(v)
    ensures MarkVirtual(s, v, cached).Some? <==> CanMark(s, v, cached)
  {
    MarkTablesAt(s.tables, PageOf(v), cached);
    SamePageSameMark(s.marker, v);
    forall i | 0 <= i < |s.tables|
      ensures MarkEntry(EntryAt(s.tables[i], PageOf(v)), PageOf(v), cached).Some? <==>
              var kind := s.tables[i].kinds[PageOf(v)];
              kind == Unmapped || (kind != Special && IsCached(s.marker, v) == !cached)
    {
      assert EntryAgrees(s.marker, PageOf(v), EntryAt(s.tables[i], PageOf(v)));
    }
  }

  lemma SamePageSameMark(m: Marker, v: nat)
    requires MarkerOk(m)
    ensures IsCached(m, v) == IsCached(m, v / PAGE_SIZE * PAGE_SIZE)
  {
  }

  lemma MarkVirtualKeepsAgreement(s: System, v: nat, cached: bool)
    requires SystemOk(s) && Agrees(s) && Cacheable(v) && MarkVirtual(s, v, cached).Some?
    ensures Agrees(MarkVirtual(s, v, cached).value)
    ensures Linear(s) ==> Linear(MarkVirtual(s, v, cached).value)
  {
    var after, p := MarkVirtual(s, v, cached).value, PageOf(v);
    MarkTablesAt(s.tables, p, cached);
    forall i, page | 0 <= i < |after.tables| && 0 <= page < PAGE_TABLE_NUM_ENTRIES
      ensures EntryAgrees(after.marker, page, EntryAt(after.tables[i], page))
      ensures Linear(s) ==> EntryLinear(page, EntryAt(after.tables[i], page))
    {
      assert EntryAgrees(s.marker, page, EntryAt(s.tables[i], page));
      assert Linear(s) ==> EntryLinear(page, EntryAt(s.tables[i], page));
    }
  }

  // ---------------------------------------------------------------- whole regions

  predicate Touches(vaddrs: seq<nat>, page: nat) {
    exists k :: 0 <= k < |vaddrs| && vaddrs[k] / PAGE_SIZE == page
  }

  ghost predicate DistinctPages(vaddrs: seq<nat>) {
    forall j, k :: 0 <= j < k < |vaddrs| ==> vaddrs[j] / PAGE_SIZE != vaddrs[k] / PAGE_SIZE
  }

  /** Marking leaves the pages it does not touch as they are. */
  ghost predicate SameOutside(s: System, after: System, vaddrs: seq<nat>)
    requires SystemOk(s) && SystemOk(after)
  {
    && |after.tables| == |s.tables|
    && (forall a: nat :: IsCached(after.marker, a) == IsCached(s.marker, a) || Touches(vaddrs, a / PAGE_SIZE))
    && (forall i, page :: 0 <= i < |s.tables| && 0 <= page < PAGE_TABLE_NUM_ENTRIES && !Touches(vaddrs, page) ==>
          EntryAt(after.tables[i], page) == EntryAt(s.tables[i], page))
  }

  lemma MarkVirtualOutside(s: System, v: nat, cached: bool, page: nat, i: nat)
    requires SystemOk(s) && Cacheable(v) && MarkVirtual(s, v, cached).Some?
    requires i < |s.tables| && page < PAGE_TABLE_NUM_ENTRIES && page != PageOf(v)
    ensures EntryAt(MarkVirtual(s, v, cached).value.tables[i], page) == EntryAt(s.tables[i], page)
  {
    MarkTablesAt(s.tables, PageOf(v), cached);
  }

  /** A successful marking keeps the agreement, and every page ends up in the state asked for. */
  lemma {:induction false} MarkAllKeepsAgreement(s: System, vaddrs: seq<nat>, cached: bool)
    requires SystemOk(s) && Agrees(s) && forall v :: v in vaddrs ==> Cacheable(v)
    requires MarkAll(s, vaddrs, cached).Some?
    ensures Agrees(MarkAll(s, vaddrs, cached).value) && SameOutside(s, MarkAll(s, vaddrs, cached).value, vaddrs)
    ensures Linear(s) ==> Linear(MarkAll(s, vaddrs, cached).value)
    ensures forall k :: 0 <= k < |vaddrs| ==> IsCached(MarkAll(s, vaddrs, cached).value.marker, vaddrs[k]) == cached
    decreases |vaddrs|
  {
    if vaddrs != [] {
      var before := vaddrs[..|vaddrs| - 1];
      assert forall k :: 0 <= k < |before| ==> before[k] == vaddrs[k];
      MarkAllKeepsAgreement(s, before, cached);
      MarkLast(s, MarkAll(s, before, cached).value, vaddrs, cached);
    }
  }

  lemma MarkLast(s: System, mid: System, vaddrs: seq<nat>, cached: bool)
    requires SystemOk(s) && SystemOk(mid) && vaddrs != [] && Agrees(mid)
    requires forall v :: v in vaddrs ==> Cacheable(v)
    requires SameOutside(s, mid, vaddrs[..|vaddrs| - 1]) && MarkVirtual(mid, vaddrs[|vaddrs| - 1], cached).Some?
    requires forall k :: 0 <= k < |vaddrs| - 1 ==> IsCached(mid.marker, vaddrs[k]) == cached
    ensures var after := MarkVirtual(mid, vaddrs[|vaddrs| - 1], cached).value;
            && Agrees(after) && SameOutside(s, after, vaddrs) && (Linear(mid) ==> Linear(after))
            && forall k :: 0 <= k < |vaddrs| ==> IsCached(after.marker, vaddrs[k]) == cached
  {
    var v := vaddrs[|vaddrs| - 1];
    MarkVirtualKeepsAgreement(mid, v, cached);
    OutsideExtends(s, mid, MarkVirtual(mid, v, cached).value, vaddrs, cached);
  }

  /** Marking other pages first does not decide about a page. */
  lemma CanMarkLater(s: System, mid: System, before: seq<nat>, v: nat, cached: bool)
    requires SystemOk(s) && SystemOk(mid) && Cacheable(v) && SameOutside(s, mid, before) && !Touches(before, PageOf(v))
    ensures CanMark(mid, v, cached) <==> CanMark(s, v, cached)
  {
    forall i | 0 <= i < |s.tables|
      ensures mid.tables[i].kinds[PageOf(v)] == s.tables[i].kinds[PageOf(v)]
    {
      assert EntryAt(mid.tables[i], PageOf(v)) == EntryAt(s.tables[i], PageOf(v));
    }
  }

  /** The last page, after the others were marked. */
  lemma LastSucceedsIff(s: System, before: seq<nat>, v: nat, cached: bool)
    requires SystemOk(s) && Agrees(s) && (forall w :: w in before ==> Cacheable(w)) && Cacheable(v)
    requires MarkAll(s, before, cached).Some? && !Touches(before, PageOf(v))
    ensures MarkVirtual(MarkAll(s, before, cached).value, v, cached).Some? <==> CanMark(s, v, cached)
  {
    var mid := MarkAll(s, before, cached).value;
    MarkAllKeepsAgreement(s, before, cached);
    CanMarkLater(s, mid, before, v, cached);
    MarkSucceedsIff(mid, v, cached);
  }

  lemma DistinctInit(vaddrs: seq<nat>)
    requires DistinctPages(vaddrs) && vaddrs != []
    ensures DistinctPages(vaddrs[..|vaddrs| - 1]) && !Touches(vaddrs[..|vaddrs| - 1], vaddrs[|vaddrs| - 1] / PAGE_SIZE)
  {
  }

  ghost predicate CanMarkEach(s: System, vaddrs: seq<nat>, cached: bool)
    requires SystemOk(s) && forall v :: v in vaddrs ==> Cacheable(v)
  {
    forall k :: 0 <= k < |vaddrs| ==> CanMark(s, vaddrs[k], cached)
  }

  lemma CanMarkEachLast(s: System, vaddrs: seq<nat>, cached: bool)
    requires SystemOk(s) && vaddrs != [] && forall v :: v in vaddrs ==> Cacheable(v)
    ensures CanMarkEach(s, vaddrs, cached) <==>
            CanMarkEach(s, vaddrs[..|vaddrs| - 1], cached) && CanMark(s, vaddrs[|vaddrs| - 1], cached)
  {
    assert forall k :: 0 <= k < |vaddrs| - 1 ==> vaddrs[..|vaddrs| - 1][k] == vaddrs[k];
  }

  /** Marking distinct pages gets through if and only if each of them could be marked by itself. */
  lemma {:induction false} MarkAllSucceedsIff(s: System, vaddrs: seq<nat>, cached: bool)
    requires SystemOk(s) && Agrees(s) && DistinctPages(vaddrs) && forall v :: v in vaddrs ==> Cacheable(v)
    ensures MarkAll(s, vaddrs, cached).Some? <==> CanMarkEach(s, vaddrs, cached)
    decreases |vaddrs|
  {
    if vaddrs != [] {
      var before, v := vaddrs[..|vaddrs| - 1], vaddrs[|vaddrs| - 1];
      DistinctInit(vaddrs);
      CanMarkEachLast(s, vaddrs, cached);
      MarkAllSucceedsIff(s, before, cached);
      if MarkAll(s, before, cached).Some? {
        LastSucceedsIff(s, before, v, cached);
      }
    }
  }

  lemma OutsideExtends(s: System, mid: System, after: System, vaddrs: seq<nat>, cached: bool)
    requires SystemOk(s) && SystemOk(mid) && vaddrs != [] && (forall v :: v in vaddrs ==> Cacheable(v))
    requires SameOutside(s, mid, vaddrs[..|vaddrs| - 1])
    requires MarkVirtual(mid, vaddrs[|vaddrs| - 1], cached) == Some(after)
    ensures SameOutside(s, after, vaddrs)
  {
    var before, v := vaddrs[..|vaddrs| - 1], vaddrs[|vaddrs| - 1];
    assert forall page :: Touches(before, page) || page == PageOf(v) ==> Touches(vaddrs, page) by {
      forall page | Touches(before, page)
        ensures Touches(vaddrs, page)
      {
        var k :| 0 <= k < |before| && before[k] / PAGE_SIZE == page;
        assert vaddrs[k] / PAGE_SIZE == page;
      }
    }
    forall i, page | 0 <= i < |s.tables| && 0 <= page < PAGE_TABLE_NUM_ENTRIES && !Touches(vaddrs, page)
      ensures EntryAt(after.tables[i], page) == EntryAt(s.tables[i], page)
    {
      MarkVirtualOutside(mid, v, cached, page, i);
    }
  }

  /** The physical address a cacheable virtual address stands for. */
  function Physical(v: nat): nat
    requires Cacheable(v)
  {
    if InVram(v) then v - VRAM_VADDR + VRAM_PADDR
    else if InLinearHeap(v) then v - LINEAR_HEAP_VADDR + FCRAM_PADDR
    else v - NEW_LINEAR_HEAP_VADDR + FCRAM_PADDR
  }

  lemma VirtualsInvert(paddr: nat)
    ensures forall v :: v in Virtuals(paddr) ==> Physical(v) == paddr
    ensures DistinctPages(Virtuals(paddr))
  {
  }

  /** The virtual addresses of different physical pages lie on different pages. */
  lemma {:induction false} RegionPagesDistinct(start: nat, n: nat)
    ensures DistinctPages(RegionVirtuals(start, n))
    ensures forall v :: v in RegionVirtuals(start, n) ==> Physical(v) / PAGE_SIZE < start / PAGE_SIZE + n
  {
    if n > 0 {
      RegionPagesDistinct(start, n - 1);
      var before, last := RegionVirtuals(start, n - 1), Virtuals(start + (n - 1) * PAGE_SIZE);
      VirtualsInvert(start + (n - 1) * PAGE_SIZE);
      forall j, k | 0 <= j < |before| && 0 <= k < |last|
        ensures before[j] / PAGE_SIZE != last[k] / PAGE_SIZE
      {
        assert before[j] in before && last[k] in last;
        SamePageSamePhysical(before[j], last[k]);
      }
    }
  }

  lemma SamePageSamePhysical(v: nat, w: nat)
    requires Cacheable(v) && Cacheable(w)
    ensures v / PAGE_SIZE == w / PAGE_SIZE ==> Physical(v) / PAGE_SIZE == Physical(w) / PAGE_SIZE
  {
  }

  /** All virtual pages of the region can be marked. */
  ghost predicate CanMarkRegion(s: System, start: nat, size: nat, cached: bool)
    requires SystemOk(s)
  {
    start == 0 || CanMarkEach(s, RegionVirtuals(start, NumPages(start, size)), cached)
  }

  /**
   A call of `RasterizerMarkRegionCached` does not reach `UNREACHABLE` if and only if every page of the region, at
   each of its virtual addresses and in every registered table, is unmapped or memory in the opposite state.
   */
  lemma MarkRegionSucceedsIff(s: System, start: nat, size: nat, cached: bool)
    requires SystemOk(s) && Agrees(s)
    ensures MarkRegion(s, start, size, cached).Some? <==> CanMarkRegion(s, start, size, cached)
    ensures MarkRegion(s, start, size, cached).Some? ==> Agrees(MarkRegion(s, start, size, cached).value)
    ensures MarkRegion(s, start, size, cached).Some? && Linear(s) ==> Linear(MarkRegion(s, start, size, cached).value)
  {
    if start > 0 {
      var vaddrs := RegionVirtuals(start, NumPages(start, size));
      RegionPagesDistinct(start, NumPages(start, size));
      MarkAllSucceedsIff(s, vaddrs, cached);
      if MarkAll(s, vaddrs, cached).Some? {
        MarkAllKeepsAgreement(s, vaddrs, cached);
      }
    }
  }

  /** The first page of the linear heap, mapped by one process and cached. */
  function OneCachedPage(): (s: System)
    ensures SystemOk(s)
  {
    System(Mark(AllClear().marker, LINEAR_HEAP_VADDR, true),
           [SetEntry(Cleared(), LINEAR_HEAP_VADDR / PAGE_SIZE, Entry(RasterizerCachedMemory, None))])
  }

  /** For example, marking a page as cached that is cached. */
  lemma MarkingCachedPageFails()
    ensures Agrees(OneCachedPage()) && MarkRegion(OneCachedPage(), FCRAM_PADDR, 1, true).None?
  {
    var s := OneCachedPage();
    var page := LINEAR_HEAP_VADDR / PAGE_SIZE;
    forall i, p | 0 <= i < |s.tables| && 0 <= p < PAGE_TABLE_NUM_ENTRIES
      ensures EntryAgrees(s.marker, p, EntryAt(s.tables[i], p))
    {
      assert EntryAt(s.tables[0], p) == if p == page then Entry(RasterizerCachedMemory, None) else Entry(Unmapped, None);
    }
    var vaddrs := RegionVirtuals(FCRAM_PADDR, NumPages(FCRAM_PADDR, 1));
    assert RegionVirtuals(FCRAM_PADDR, 0) == [];
    assert vaddrs[0] == LINEAR_HEAP_VADDR;
    assert EntryAt(s.tables[0], page).kind == RasterizerCachedMemory;
    assert !CanMark(s, vaddrs[0], true);
    MarkRegionSucceedsIff(s, FCRAM_PADDR, 1, true);
  }

  // ---------------------------------------------------------------- runs

  datatype Operation =
    | MapMemoryRegion(table: nat, base: nat, size: nat, target: MemoryRef)   // in pages
    | MapIoRegion(table: nat, base: nat, size: nat)
    | UnmapRegion(table: nat, base: nat, size: nat)
    | RegisterPageTable
    | UnregisterPageTable(table: nat)
    | RasterizerMarkRegionCached(start: nat, bytes: nat, cached: bool)

  /** `base * PAGE_SIZE ..` is mapped to the memory the rasterizer finds there. */
  ghost predicate OneToOne(base: nat, size: nat, target: MemoryRef) {
    forall k: nat :: k < size && Cacheable((base + k) * PAGE_SIZE) ==>
      AfterPages(Some(target), k) == Some(LinearRef((base + k) * PAGE_SIZE))
  }

  /** What callers owe: ranges inside the address space, and marking only pages that can be marked. */
  ghost predicate Allowed(s: System, op: Operation)
    requires SystemOk(s)
  {
    match op
    case MapMemoryRegion(table, base, size, _) => table < |s.tables| && base + size <= PAGE_TABLE_NUM_ENTRIES
    case MapIoRegion(table, base, size) => table < |s.tables| && base + size <= PAGE_TABLE_NUM_ENTRIES
    case UnmapRegion(table, base, size) => table < |s.tables| && base + size <= PAGE_TABLE_NUM_ENTRIES
    case RegisterPageTable => true
    case UnregisterPageTable(table) => table < |s.tables|
    case RasterizerMarkRegionCached(start, bytes, cached) => CanMarkRegion(s, start, bytes, cached)
  }

  function Remap(s: System, table: nat, base: nat, size: nat, memory: Option<MemoryRef>, kind: PageType): (r: System)
    requires SystemOk(s) && table < |s.tables| && base + size <= PAGE_TABLE_NUM_ENTRIES
    ensures SystemOk(r)
  {
    s.(tables := s.tables[table := MapPages(s.marker, s.tables[table], base, size, memory, kind)])
  }

  function Perform(s: System, op: Operation): (r: Option<System>)
    requires SystemOk(s) && Allowed(s, op)
    ensures r.Some? ==> SystemOk(r.value)
  {
    match op
    case MapMemoryRegion(table, base, size, target) => Some(Remap(s, table, base, size, Some(target), Memory))
    case MapIoRegion(table, base, size) => Some(Remap(s, table, base, size, None, Special))
    case UnmapRegion(table, base, size) => Some(Remap(s, table, base, size, None, Unmapped))
    case RegisterPageTable => Some(s.(tables := s.tables + [Cleared()]))
    case UnregisterPageTable(table) => Some(s.(tables := s.tables[..table] + s.tables[table + 1..]))
    case RasterizerMarkRegionCached(start, bytes, cached) => MarkRegion(s, start, bytes, cached)
  }

  lemma {:induction false} AfterPagesSome(m: MemoryRef, k: nat)
    ensures AfterPages(Some(m), k).Some? && AfterPages(None, k) == None
  {
    if k > 0 {
      AfterPagesSome(m, k - 1);
    }
  }

  lemma RemapKeepsAgreement(s: System, table: nat, base: nat, size: nat, memory: Option<MemoryRef>, kind: PageType)
    requires SystemOk(s) && Agrees(s) && table < |s.tables| && base + size <= PAGE_TABLE_NUM_ENTRIES
    requires kind != RasterizerCachedMemory && (kind == Memory <==> memory.Some?)
    ensures Agrees(Remap(s, table, base, size, memory, kind))
    ensures Linear(s) && (kind == Memory ==> OneToOne(base, size, memory.value)) ==> Linear(Remap(s, table, base, size, memory, kind))
  {
    var after := Remap(s, table, base, size, memory, kind);
    forall i, page | 0 <= i < |after.tables| && 0 <= page < PAGE_TABLE_NUM_ENTRIES
      ensures EntryAgrees(after.marker, page, EntryAt(after.tables[i], page))
      ensures Linear(s) && (kind == Memory ==> OneToOne(base, size, memory.value)) ==> EntryLinear(page, EntryAt(after.tables[i], page))
    {
      assert EntryAgrees(s.marker, page, EntryAt(s.tables[i], page));
      assert Linear(s) ==> EntryLinear(page, EntryAt(s.tables[i], page));
      if i == table {
        MapPagesAt(s.marker, s.tables[table], base, size, memory, kind, page);
        if base <= page < base + size {
          AfterPagesSome(if memory.Some? then memory.value else MemoryRef(FCRAM, 0), page - base);
          assert base + (page - base) == page;
        }
      }
    }
  }

  /** Every operation succeeds and keeps marker and page tables in agreement; one-to-one mappings stay so. */
  lemma PerformKeepsAgreement(s: System, op: Operation)
    requires SystemOk(s) && Agrees(s) && Allowed(s, op)
    ensures Perform(s, op).Some? && Agrees(Perform(s, op).value)
    ensures Linear(s) && (op.MapMemoryRegion? ==> OneToOne(op.base, op.size, op.target)) ==> Linear(Perform(s, op).value)
  {
    match op {
      case MapMemoryRegion(table, base, size, target) => RemapKeepsAgreement(s, table, base, size, Some(target), Memory);
      case MapIoRegion(table, base, size) => RemapKeepsAgreement(s, table, base, size, None, Special);
      case UnmapRegion(table, base, size) => RemapKeepsAgreement(s, table, base, size, None, Unmapped);
      case RasterizerMarkRegionCached(start, bytes, cached) =>
        MarkRegionSucceedsIff(s, start, bytes, cached);
      case RegisterPageTable =>
      case UnregisterPageTable(table) =>
        var after := Perform(s, op).value;
        forall i, page | 0 <= i < |after.tables| && 0 <= page < PAGE_TABLE_NUM_ENTRIES
          ensures EntryAgrees(after.marker, page, EntryAt(after.tables[i], page))
          ensures Linear(s) ==> EntryLinear(page, EntryAt(after.tables[i], page))
        {
          assert after.tables[i] == s.tables[if i < table then i else i + 1];
        }
    }
  }

  function AllClear(): (s: System)
    ensures SystemOk(s)
  {
    System(Marker(seq(VRAM_SIZE / PAGE_SIZE, _ => false), seq(LINEAR_HEAP_SIZE / PAGE_SIZE, _ => false),
                  seq(NEW_LINEAR_HEAP_SIZE / PAGE_SIZE, _ => false)), [])
  }

  ghost predicate IsRun(states: seq<System>, ops: seq<Operation>) {
    && |states| == |ops| + 1
    && states[0] == AllClear()
    && (forall i :: 0 <= i < |states| ==> SystemOk(states[i]))
    && forall i :: 0 <= i < |ops| ==> Allowed(states[i], ops[i]) && Perform(states[i], ops[i]) == Some(states[i + 1])
  }

  /** Agreement of marker and page tables after any sequence of operations. */
  lemma {:induction false} RunKeepsAgreement(states: seq<System>, ops: seq<Operation>, i: nat)
    requires IsRun(states, ops) && i <= |ops|
    ensures Agrees(states[i])
    ensures (forall j :: 0 <= j < i && ops[j].MapMemoryRegion? ==> OneToOne(ops[j].base, ops[j].size, ops[j].target)) ==> Linear(states[i])
  {
    if i > 0 {
      RunKeepsAgreement(states, ops, i - 1);
      PerformKeepsAgreement(states[i - 1], ops[i - 1]);
    }
  }

  /** A long enough linear target makes a mapping one to one. */
  lemma LinearTargetIsOneToOne(base: nat, size: nat)
    requires Cacheable(base * PAGE_SIZE) && size > 0 && Cacheable((base + size - 1) * PAGE_SIZE)
    requires LinearRef((base + size - 1) * PAGE_SIZE).offset == LinearRef(base * PAGE_SIZE).offset + (size - 1) * PAGE_SIZE
    requires LinearRef((base + size - 1) * PAGE_SIZE).backing == LinearRef(base * PAGE_SIZE).backing
    requires InLinearHeap(base * PAGE_SIZE) <==> InLinearHeap((base + size - 1) * PAGE_SIZE)
    ensures OneToOne(base, size, LinearRef(base * PAGE_SIZE))
  {
    var target := LinearRef(base * PAGE_SIZE);
    forall k: nat | k < size && Cacheable((base + k) * PAGE_SIZE)
      ensures AfterPages(Some(target), k) == Some(LinearRef((base + k) * PAGE_SIZE))
    {
      LongTargetWalk(target, size, k);
    }
  }
}
