/**
 What guest addresses mean: the byte of host memory, the I/O register or nothing that a page table makes of
 them, and reads and writes of one byte or of a range, byte by byte. The host memory of all regions is one
 flat sequence, each region at its own base.
 */
module GuestAccess {
  import opened Bytes
  import opened Common
  import opened MemoryMap

  const ADDRESS_SPACE: nat := 0x1_0000_0000

  function RegionBase(r: Region): nat {
    match r
    case FCRAM => 0
    case VRAM => FCRAM_N3DS_SIZE
    case DSP => FCRAM_N3DS_SIZE + VRAM_SIZE
    case N3DS => FCRAM_N3DS_SIZE + VRAM_SIZE + DSP_RAM_SIZE
  }

  const HOST_SIZE: nat := FCRAM_N3DS_SIZE + VRAM_SIZE + DSP_RAM_SIZE + N3DS_EXTRA_RAM_SIZE

  function HostOf(m: MemoryRef): nat {
    RegionBase(m.backing) + m.offset
  }

  /** A memory page has a whole page of its region behind it, and cached pages are cacheable ones. */
  predicate EntryUsable(page: nat, e: Entry) {
    && (e.kind == Memory ==> e.pointer.Some? && PAGE_SIZE <= Remaining(e.pointer.value))
    && (e.kind == RasterizerCachedMemory ==> Cacheable(page * PAGE_SIZE))
  }

  ghost predicate Usable(t: Table) {
    TableOk(t) && forall page :: 0 <= page < PAGE_TABLE_NUM_ENTRIES ==> EntryUsable(page, EntryAt(t, page))
  }

  datatype Place = Host(at: nat) | Io(register: nat) | Nowhere

  function Shift(p: Place, k: nat): Place {
    match p case Host(at) => Host(at + k) case Io(r) => Io(r + k) case Nowhere => Nowhere
  }

  /** Where an address of page `page` at `offset` lies. */
  function PlaceIn(page: nat, e: Entry, offset: nat): (p: Place)
    requires EntryUsable(page, e) && page < PAGE_TABLE_NUM_ENTRIES && offset < PAGE_SIZE
    ensures p.Host? ==> p.at < HOST_SIZE
  {
    match e.kind
    case Unmapped => Nowhere
    case Memory => Host(HostOf(e.pointer.value) + offset)
    case RasterizerCachedMemory => Host(HostOf(LinearRef(page * PAGE_SIZE + offset)))
    case Special => Io(page * PAGE_SIZE + offset)
  }

  function Translate(t: Table, v: nat): (p: Place)
    requires Usable(t) && v < ADDRESS_SPACE
    ensures p.Host? ==> p.at < HOST_SIZE
  {
    PlaceIn(v / PAGE_SIZE, EntryAt(t, v / PAGE_SIZE), v % PAGE_SIZE)
  }

  /** Within a page, consecutive addresses lie in consecutive places. */
  lemma PageIsContiguous(t: Table, v: nat, k: nat)
    requires Usable(t) && v % PAGE_SIZE + k < PAGE_SIZE && v + k < ADDRESS_SPACE
    ensures Translate(t, v + k) == Shift(Translate(t, v), k)
  {
    assert (v + k) / PAGE_SIZE == v / PAGE_SIZE && (v + k) % PAGE_SIZE == v % PAGE_SIZE + k;
    assert EntryUsable(v / PAGE_SIZE, EntryAt(t, v / PAGE_SIZE));
  }

  // ---------------------------------------------------------------- caching is transparent

  /** Marking a page cached or uncached moves none of its bytes exactly when it is mapped one to one. */
  lemma MarkingMovesNothingIff(page: nat, e: Entry, offset: nat)
    requires page < PAGE_TABLE_NUM_ENTRIES && Cacheable(page * PAGE_SIZE) && offset < PAGE_SIZE
    requires EntryUsable(page, e) && e.kind == Memory
    ensures EntryUsable(page, MarkEntry(e, page, true).value)
    ensures PlaceIn(page, MarkEntry(e, page, true).value, offset) == PlaceIn(page, e, offset) <==> EntryLinear(page, e)
  {
    var q, l := e.pointer.value, LinearRef(page * PAGE_SIZE);
    assert HostOf(LinearRef(page * PAGE_SIZE + offset)) == HostOf(l) + offset;
    assert HostOf(q) == HostOf(l) ==> q == l;
  }

  /** For example, the first page of the linear heap mapped to the second page of its memory. */
  lemma MarkingCanMoveBytes()
    ensures var page, e := LINEAR_HEAP_VADDR / PAGE_SIZE, Entry(Memory, Some(MemoryRef(FCRAM, PAGE_SIZE)));
            && EntryUsable(page, e) && EntryUsable(page, MarkEntry(e, page, true).value)
            && PlaceIn(page, e, 0) == Host(PAGE_SIZE) && PlaceIn(page, MarkEntry(e, page, true).value, 0) == Host(0)
  {
  }

  lemma MarkedPlace(page: nat, e: Entry, offset: nat, cached: bool)
    requires page < PAGE_TABLE_NUM_ENTRIES && Cacheable(page * PAGE_SIZE) && offset < PAGE_SIZE
    requires EntryUsable(page, e) && EntryLinear(page, e) && MarkEntry(e, page, cached).Some?
    ensures EntryUsable(page, MarkEntry(e, page, cached).value)
    ensures PlaceIn(page, MarkEntry(e, page, cached).value, offset) == PlaceIn(page, e, offset)
  {
    if e.kind == Memory {
      MarkingMovesNothingIff(page, e, offset);
    }
  }

  lemma MarkVirtualUsable(s: System, w: nat, cached: bool, i: nat)
    requires SystemOk(s) && Cacheable(w) && MarkVirtual(s, w, cached).Some?
    requires i < |s.tables| && Usable(s.tables[i])
    ensures i < |MarkVirtual(s, w, cached).value.tables| && Usable(MarkVirtual(s, w, cached).value.tables[i])
  {
    var before, after, p := s.tables[i], MarkVirtual(s, w, cached).value.tables[i], PageOf(w);
    MarkTablesAt(s.tables, p, cached);
    forall page | 0 <= page < PAGE_TABLE_NUM_ENTRIES
      ensures EntryUsable(page, EntryAt(after, page))
    {
      assert EntryUsable(page, EntryAt(before, page));
    }
  }

  lemma MarkVirtualTranslates(s: System, w: nat, cached: bool, i: nat)
    requires SystemOk(s) && Linear(s) && Cacheable(w) && MarkVirtual(s, w, cached).Some?
    requires i < |s.tables| && Usable(s.tables[i])
    ensures i < |MarkVirtual(s, w, cached).value.tables| && Usable(MarkVirtual(s, w, cached).value.tables[i])
    ensures forall v :: 0 <= v < ADDRESS_SPACE ==>
              Translate(MarkVirtual(s, w, cached).value.tables[i], v) == Translate(s.tables[i], v)
  {
    var before, after, p := s.tables[i], MarkVirtual(s, w, cached).value.tables[i], PageOf(w);
    MarkTablesAt(s.tables, p, cached);
    MarkVirtualUsable(s, w, cached, i);
    assert EntryLinear(p, EntryAt(before, p)) && EntryUsable(p, EntryAt(before, p));
    forall v | 0 <= v < ADDRESS_SPACE
      ensures Translate(after, v) == Translate(before, v)
    {
      if v / PAGE_SIZE == p {
        MarkedPlace(p, EntryAt(before, p), v % PAGE_SIZE, cached);
      }
    }
  }

  /**
   However the rasterizer marks pages, a guest that maps the cacheable regions one to one finds every byte
   where it was.
   */
  lemma {:induction false} MarkingIsTransparent(s: System, vaddrs: seq<nat>, cached: bool, i: nat)
    requires SystemOk(s) && Agrees(s) && Linear(s) && i < |s.tables| && Usable(s.tables[i])
    requires (forall v :: v in vaddrs ==> Cacheable(v)) && MarkAll(s, vaddrs, cached).Some?
    ensures var after := MarkAll(s, vaddrs, cached).value;
            && Agrees(after) && Linear(after) && i < |after.tables| && Usable(after.tables[i])
            && forall v :: 0 <= v < ADDRESS_SPACE ==> Translate(after.tables[i], v) == Translate(s.tables[i], v)
    decreases |vaddrs|
  {
    if vaddrs != [] {
      var n := |vaddrs| - 1;
      MarkingIsTransparent(s, vaddrs[..n], cached, i);
      var mid := MarkAll(s, vaddrs[..n], cached).value;
      MarkVirtualKeepsAgreement(mid, vaddrs[n], cached);
      MarkVirtualTranslates(mid, vaddrs[n], cached, i);
    }
  }

  ghost predicate AllUsable(s: System)
    requires SystemOk(s)
  {
    forall i :: 0 <= i < |s.tables| ==> Usable(s.tables[i])
  }

  lemma {:induction false} MarkAllUsable(s: System, vaddrs: seq<nat>, cached: bool)
    requires SystemOk(s) && AllUsable(s) && (forall v :: v in vaddrs ==> Cacheable(v)) && MarkAll(s, vaddrs, cached).Some?
    ensures AllUsable(MarkAll(s, vaddrs, cached).value)
    decreases |vaddrs|
  {
    if vaddrs != [] {
      var n := |vaddrs| - 1;
      MarkAllUsable(s, vaddrs[..n], cached);
      var mid := MarkAll(s, vaddrs[..n], cached).value;
      forall i | 0 <= i < |mid.tables|
        ensures Usable(MarkVirtual(mid, vaddrs[n], cached).value.tables[i])
      {
        MarkVirtualUsable(mid, vaddrs[n], cached, i);
      }
    }
  }

  lemma RemapUsable(s: System, table: nat, base: nat, size: nat, memory: Option<MemoryRef>, kind: PageType)
    requires SystemOk(s) && AllUsable(s) && table < |s.tables| && base + size <= PAGE_TABLE_NUM_ENTRIES
    requires kind != RasterizerCachedMemory && (kind == Memory ==> memory.Some? && size * PAGE_SIZE <= Remaining(memory.value))
    ensures AllUsable(Remap(s, table, base, size, memory, kind))
  {
    var after := Remap(s, table, base, size, memory, kind).tables[table];
    forall page | 0 <= page < PAGE_TABLE_NUM_ENTRIES
      ensures EntryUsable(page, EntryAt(after, page))
    {
      assert EntryUsable(page, EntryAt(s.tables[table], page));
      MapPagesAt(s.marker, s.tables[table], base, size, memory, kind, page);
      if kind == Memory && base <= page < base + size {
        LongTargetWalk(memory.value, size, page - base);
      }
    }
  }

  /**
   Mapped pages stay backed by a whole page of memory, and cached ones by the linear region, in every run in
   which mapping targets are as long as the region they back, as `MapMemoryRegion` asks of its callers.
   */
  lemma {:induction false} RunKeepsUsable(states: seq<System>, ops: seq<Operation>, i: nat)
    requires MemoryMap.IsRun(states, ops) && i <= |ops|
    requires forall j :: 0 <= j < i && ops[j].MapMemoryRegion? ==> ops[j].size * PAGE_SIZE <= Remaining(ops[j].target)
    ensures AllUsable(states[i])
  {
    if i > 0 {
      RunKeepsUsable(states, ops, i - 1);
      var s := states[i - 1];
      match ops[i - 1] {
        case MapMemoryRegion(table, base, size, target) => RemapUsable(s, table, base, size, Some(target), Memory);
        case MapIoRegion(table, base, size) => RemapUsable(s, table, base, size, None, Special);
        case UnmapRegion(table, base, size) => RemapUsable(s, table, base, size, None, Unmapped);
        case RegisterPageTable =>
        case UnregisterPageTable(_) =>
        case RasterizerMarkRegionCached(start, bytes, cached) =>
          if start > 0 {
            MarkAllUsable(s, RegionVirtuals(start, NumPages(start, bytes)), cached);
          }
      }
    }
  }

  // ---------------------------------------------------------------- bytes

  /** Host memory, and the bytes written to I/O registers so far. */
  datatype Store = Store(host: seq<byte>, io: seq<(nat, byte)>)

  /** `registers` answers reads of I/O registers. */
  function ReadByte(t: Table, host: seq<byte>, registers: nat -> byte, v: nat): byte
    requires Usable(t) && |host| == HOST_SIZE && v < ADDRESS_SPACE
  {
    match Translate(t, v)
    case Host(at) => host[at]
    case Io(register) => registers(register)
    case Nowhere => 0
  }

  /**
   What an address means, by the kind of its page: nothing, a register, a byte behind the page's pointer, or for a
   cached page the byte at its physical address.
   */
  lemma MeaningByKind(t: Table, host: seq<byte>, registers: nat -> byte, v: nat)
    requires Usable(t) && |host| == HOST_SIZE && v < ADDRESS_SPACE
    ensures match t.kinds[v / 0x1000]
            case Unmapped => Translate(t, v) == Nowhere && ReadByte(t, host, registers, v) == 0
            case Special => Translate(t, v) == Io(v) && ReadByte(t, host, registers, v) == registers(v)
            case Memory =>
              && t.pointers[v / 0x1000].Some?
              && var m := t.pointers[v / 0x1000].value;
                 Translate(t, v) == Host(RegionBase(m.backing) + m.offset + v % 0x1000)
            case RasterizerCachedMemory =>
              && Cacheable(v)
              && Translate(t, v) == Host(if InVram(v) then RegionBase(VRAM) + (Physical(v) - VRAM_PADDR)
                                         else RegionBase(FCRAM) + (Physical(v) - FCRAM_PADDR))
    ensures Translate(t, v).Host? ==> ReadByte(t, host, registers, v) == host[Translate(t, v).at]
  {
    var page := v / PAGE_SIZE;
    assert EntryUsable(page, EntryAt(t, page));
    assert v == page * PAGE_SIZE + v % PAGE_SIZE;
  }

  /** One byte written to a place. */
  function Put(s: Store, p: Place, b: byte): (r: Store)
    requires p.Host? ==> p.at < |s.host|
    ensures |r.host| == |s.host|
  {
    match p
    case Host(at) => s.(host := s.host[at := b])
    case Io(register) => s.(io := s.io + [(register, b)])
    case Nowhere => s
  }

  /** What a single access reaches: a place of the page table's, or a hardware register behind its back. */
  datatype Target = At(place: Place) | Hardware(address: nat)

  const WINDOW: nat := 0x8000_0000
  const IO_AREA_PADDR: nat := 0x1010_0000
  const IO_AREA_VADDR: nat := 0x1EC0_0000

  /** The Luma3DS mapping: with the highest bit set, what follows is a physical address. */
  function WindowTarget(v: nat): Option<Target> {
    if WINDOW + FCRAM_PADDR <= v < WINDOW + FCRAM_N3DS_PADDR_END then
      Some(At(Host(RegionBase(FCRAM) + (v - WINDOW - FCRAM_PADDR))))
    else if WINDOW + IO_AREA_PADDR <= v < WINDOW + 0x2000_0000 then Some(Hardware(v - WINDOW - IO_AREA_PADDR + IO_AREA_VADDR))
    else None
  }

  /** The order in which `Read` and `Write` decide: the pointer first, then the window, then the kind of the page. */
  function AccessTarget(t: Table, v: nat): Target
    requires Usable(t) && v < ADDRESS_SPACE
  {
    var e := EntryAt(t, v / PAGE_SIZE);
    if e.pointer.Some? then At(Host(HostOf(e.pointer.value) + v % PAGE_SIZE))
    else if WindowTarget(v).Some? then WindowTarget(v).value
    else
      match e.kind
      case RasterizerCachedMemory =>
        assert EntryUsable(v / PAGE_SIZE, e);
        assert v == v / PAGE_SIZE * PAGE_SIZE + v % PAGE_SIZE;
        At(Host(HostOf(LinearRef(v))))
      case Special => At(Io(v))
      case _ => At(Nowhere)
  }

  /**
   The fast path is right because only memory pages have a pointer. A single access reaches what the page table
   says, as block operations do, if and only if the page is memory or the address outside the window.
   */
  lemma AccessFollowsTableIff(m: Marker, t: Table, v: nat)
    requires MarkerOk(m) && Usable(t) && v < ADDRESS_SPACE && EntryAgrees(m, v / PAGE_SIZE, EntryAt(t, v / PAGE_SIZE))
    ensures AccessTarget(t, v) == At(Translate(t, v)) <==> t.kinds[v / PAGE_SIZE] == Memory || WindowTarget(v).None?
  {
    var e := EntryAt(t, v / PAGE_SIZE);
    assert EntryUsable(v / PAGE_SIZE, e);
    if WindowTarget(v).Some? {
      assert !Cacheable(v / PAGE_SIZE * PAGE_SIZE);
      assert e.kind != RasterizerCachedMemory;
    }
  }

  /** For example, with nothing mapped the window shows the start of FCRAM, which block operations do not see. */
  lemma BlocksMissTheWindow()
    ensures Usable(Cleared())
    ensures AccessTarget(Cleared(), WINDOW + FCRAM_PADDR) == At(Host(0))
    ensures Translate(Cleared(), WINDOW + FCRAM_PADDR) == Nowhere
  {
  }

  predicate TargetOk(target: Target) {
    target.At? && target.place.Host? ==> target.place.at < HOST_SIZE
  }

  /** The byte found there; `hardware` answers reads of the registers that the window shows. */
  function ValueAt(target: Target, host: seq<byte>, registers: nat -> byte, hardware: nat -> byte): byte
    requires TargetOk(target) && |host| == HOST_SIZE
  {
    match target
    case At(Host(at)) => host[at]
    case At(Io(register)) => registers(register)
    case At(Nowhere) => 0
    case Hardware(address) => hardware(address)
  }

  /** `Read8`. */
  function Read8(t: Table, host: seq<byte>, registers: nat -> byte, hardware: nat -> byte, v: nat): byte
    requires Usable(t) && |host| == HOST_SIZE && v < ADDRESS_SPACE
    requires t.pointers[v / PAGE_SIZE].Some? ==> PAGE_SIZE <= Remaining(t.pointers[v / PAGE_SIZE].value)
  {
    ValueAt(AccessTarget(t, v), host, registers, hardware)
  }

  /** Outside the window, and on memory pages anywhere, a read is the byte-wise read of the block operations. */
  lemma Read8IsReadByte(m: Marker, t: Table, host: seq<byte>, registers: nat -> byte, hardware: nat -> byte, v: nat)
    requires MarkerOk(m) && Usable(t) && |host| == HOST_SIZE && v < ADDRESS_SPACE
    requires EntryAgrees(m, v / PAGE_SIZE, EntryAt(t, v / PAGE_SIZE))
    requires t.kinds[v / PAGE_SIZE] == Memory || WindowTarget(v).None?
    ensures EntryUsable(v / PAGE_SIZE, EntryAt(t, v / PAGE_SIZE))
    ensures Read8(t, host, registers, hardware, v) == ReadByte(t, host, registers, v)
  {
    assert EntryUsable(v / PAGE_SIZE, EntryAt(t, v / PAGE_SIZE));
    AccessFollowsTableIff(m, t, v);
  }

  /** On other pages the window shows the memory that the linear heap shows at the same physical address. */
  lemma WindowShowsFcram(m: Marker, t: Table, host: seq<byte>, registers: nat -> byte, hardware: nat -> byte, v: nat, linear: nat)
    requires MarkerOk(m) && Usable(t) && |host| == HOST_SIZE && v < ADDRESS_SPACE && linear < ADDRESS_SPACE
    requires EntryAgrees(m, v / PAGE_SIZE, EntryAt(t, v / PAGE_SIZE)) && t.kinds[v / PAGE_SIZE] != Memory
    requires InNewLinearHeap(linear) && v == WINDOW + FCRAM_PADDR + (linear - NEW_LINEAR_HEAP_VADDR)
    requires EntryLinear(linear / PAGE_SIZE, EntryAt(t, linear / PAGE_SIZE))
    requires t.kinds[linear / PAGE_SIZE] == Memory || t.kinds[linear / PAGE_SIZE] == RasterizerCachedMemory
    ensures Read8(t, host, registers, hardware, v) == ReadByte(t, host, registers, linear)
  {
    assert EntryUsable(linear / PAGE_SIZE, EntryAt(t, linear / PAGE_SIZE));
    assert linear == linear / PAGE_SIZE * PAGE_SIZE + linear % PAGE_SIZE;
    assert Cacheable(linear / PAGE_SIZE * PAGE_SIZE);
  }

  // ---------------------------------------------------------------- wider reads

  function ShiftTarget(target: Target, k: nat): Target {
    match target case At(p) => At(Shift(p, k)) case Hardware(address) => Hardware(address + k)
  }

  /** Within a page, what single-byte accesses reach lies side by side. */
  lemma AccessIsContiguous(t: Table, v: nat, k: nat)
    requires Usable(t) && v < ADDRESS_SPACE && v % PAGE_SIZE + k < PAGE_SIZE
    ensures v + k < ADDRESS_SPACE && AccessTarget(t, v + k) == ShiftTarget(AccessTarget(t, v), k)
  {
    var page := v / PAGE_SIZE;
    assert (v + k) / PAGE_SIZE == page && (v + k) % PAGE_SIZE == v % PAGE_SIZE + k;
    assert v == page * PAGE_SIZE + v % PAGE_SIZE;
    assert EntryUsable(page, EntryAt(t, page));
  }

  /** Every pointer has a whole page behind it. */
  ghost predicate Backed(t: Table) {
    Usable(t) && forall page :: 0 <= page < PAGE_TABLE_NUM_ENTRIES ==>
      EntryAt(t, page).pointer.Some? ==> PAGE_SIZE <= Remaining(EntryAt(t, page).pointer.value)
  }

  /** The end of the region that a byte of host memory belongs to. */
  function RegionEnd(at: nat): nat {
    if at < RegionBase(VRAM) then RegionBase(VRAM)
    else if at < RegionBase(DSP) then RegionBase(DSP)
    else if at < RegionBase(N3DS) then RegionBase(N3DS)
    else HOST_SIZE
  }

  /** A read of `n` bytes finds memory, and does not run out of its region, or finds nothing. */
  predicate FindsMemory(t: Table, v: nat, n: nat)
    requires Usable(t) && v < ADDRESS_SPACE
  {
    match AccessTarget(t, v)
    case At(Host(at)) => at + n <= RegionEnd(at)
    case At(Nowhere) => true
    case _ => false
  }

  /** `Read` of an integer of `n` bytes, lowest first: one copy from where its first byte is. */
  function ReadWide(t: Table, host: seq<byte>, v: nat, n: nat): (bytes: seq<byte>)
    requires Usable(t) && |host| == HOST_SIZE && v < ADDRESS_SPACE && FindsMemory(t, v, n)
    ensures |bytes| == n
  {
    match AccessTarget(t, v)
    case At(Host(at)) => host[at..at + n]
    case _ => Zeros(n)
  }

  /** Addresses have 32 bits. */
  function Wrapped(v: nat): (w: nat)
    ensures w < ADDRESS_SPACE
  {
    v % ADDRESS_SPACE
  }

  function NextPage(v: nat): nat {
    Wrapped((v / PAGE_SIZE + 1) * PAGE_SIZE)
  }

  /** The bytes from `v` to the end of its page. */
  function LeftInPage(v: nat): (left: nat)
    ensures 0 < left <= PAGE_SIZE
  {
    PAGE_SIZE - v % PAGE_SIZE
  }

  /** The next page goes on where the page of `v` ends, in the same memory or in none. */
  predicate GoesOn(t: Table, v: nat)
    requires Usable(t) && v < ADDRESS_SPACE
  {
    AccessTarget(t, NextPage(v)) == ShiftTarget(AccessTarget(t, v), LeftInPage(v))
  }

  lemma AccessOk(t: Table, v: nat)
    requires Backed(t) && v < ADDRESS_SPACE
    ensures TargetOk(AccessTarget(t, v))
    ensures t.pointers[v / PAGE_SIZE].Some? ==> PAGE_SIZE <= Remaining(t.pointers[v / PAGE_SIZE].value)
  {
    assert EntryUsable(v / PAGE_SIZE, EntryAt(t, v / PAGE_SIZE));
    assert v == v / PAGE_SIZE * PAGE_SIZE + v % PAGE_SIZE;
  }

  ghost predicate SameByte(t: Table, v: nat, n: nat, k: nat, host: seq<byte>, registers: nat -> byte, hardware: nat -> byte)
    requires Backed(t) && v < ADDRESS_SPACE && FindsMemory(t, v, n) && k < n && |host| == HOST_SIZE
  {
    AccessOk(t, Wrapped(v + k));
    ReadWide(t, host, v, n)[k] == Read8(t, host, registers, hardware, Wrapped(v + k))
  }

  /** Byte `k` of a wide read is the one that `Read8` reads, whatever memory and registers hold. */
  ghost predicate ByteAgrees(t: Table, v: nat, n: nat, k: nat)
    requires Backed(t) && v < ADDRESS_SPACE && FindsMemory(t, v, n) && k < n
  {
    forall host: seq<byte>, registers: nat -> byte, hardware: nat -> byte ::
      |host| == HOST_SIZE ==> SameByte(t, v, n, k, host, registers, hardware)
  }

  /** Different targets can hold different bytes. */
  lemma TellApart(p: Place, q: Target) returns (host: seq<byte>, registers: nat -> byte, hardware: nat -> byte)
    requires !p.Io? && TargetOk(At(p)) && TargetOk(q) && q != At(p)
    ensures |host| == HOST_SIZE && ValueAt(At(p), host, registers, hardware) != ValueAt(q, host, registers, hardware)
  {
    var b: byte := if p.Host? then 0 else 1;
    registers, hardware := (_: nat) => b, (_: nat) => b;
    host := seq<byte>(HOST_SIZE, k => if p.Host? && k != p.at then 0 else 1);
  }

  /** What byte `k` of a wide read is. */
  lemma WideByte(t: Table, v: nat, n: nat, k: nat, host: seq<byte>, registers: nat -> byte, hardware: nat -> byte)
    requires Backed(t) && v < ADDRESS_SPACE && FindsMemory(t, v, n) && k < n && |host| == HOST_SIZE
    ensures TargetOk(ShiftTarget(AccessTarget(t, v), k)) && ShiftTarget(AccessTarget(t, v), k).At?
    ensures !ShiftTarget(AccessTarget(t, v), k).place.Io?
    ensures ReadWide(t, host, v, n)[k] == ValueAt(ShiftTarget(AccessTarget(t, v), k), host, registers, hardware)
  {
  }

  lemma ByteAgreesIff(t: Table, v: nat, n: nat, k: nat)
    requires Backed(t) && v < ADDRESS_SPACE && FindsMemory(t, v, n) && k < n
    ensures ByteAgrees(t, v, n, k) <==> AccessTarget(t, Wrapped(v + k)) == ShiftTarget(AccessTarget(t, v), k)
  {
    var here, there := ShiftTarget(AccessTarget(t, v), k), AccessTarget(t, Wrapped(v + k));
    AccessOk(t, Wrapped(v + k));
    forall host: seq<byte>, registers: nat -> byte, hardware: nat -> byte | |host| == HOST_SIZE
      ensures SameByte(t, v, n, k, host, registers, hardware) <==>
              TargetOk(here) && ValueAt(here, host, registers, hardware) == ValueAt(there, host, registers, hardware)
    {
      WideByte(t, v, n, k, host, registers, hardware);
    }
    if there != here {
      WideByte(t, v, n, k, seq<byte>(HOST_SIZE, _ => 0), (_: nat) => 0, (_: nat) => 0);
      var host, registers, hardware := TellApart(here.place, there);
      assert !SameByte(t, v, n, k, host, registers, hardware);
    }
  }

  /**
   A read of two to eight bytes takes the page of its first byte for all of them. It gives the bytes that single
   reads give if and only if it stays in that page or the next one goes on where it ends.
   */
  lemma WideReadIff(t: Table, v: nat, n: nat)
    requires Backed(t) && v < ADDRESS_SPACE && 0 < n <= 8 && FindsMemory(t, v, n)
    ensures (forall k :: 0 <= k < n ==> ByteAgrees(t, v, n, k)) <==> n <= LeftInPage(v) || GoesOn(t, v)
  {
    forall k | 0 <= k < n
      ensures ByteAgrees(t, v, n, k) <==> k < LeftInPage(v) || GoesOn(t, v)
    {
      ByteAgreesIff(t, v, n, k);
      ByteInPlaceIff(t, v, k);
    }
    if LeftInPage(v) < n {
      assert ByteAgrees(t, v, n, LeftInPage(v)) <==> GoesOn(t, v);
    }
  }

  /** Two pages of memory mapped in the other order. */
  function SwappedPages(): (t: Table)
    ensures TableOk(t)
  {
    SetEntry(SetEntry(Cleared(), 0, Entry(Memory, Some(MemoryRef(FCRAM, PAGE_SIZE)))), 1, Entry(Memory, Some(MemoryRef(FCRAM, 0))))
  }

  /** For example, two bytes across these pages: the second one is not the one that a single read gives. */
  lemma CrossingReadDiffers()
    ensures Backed(SwappedPages()) && FindsMemory(SwappedPages(), PAGE_SIZE - 1, 2)
    ensures !ByteAgrees(SwappedPages(), PAGE_SIZE - 1, 2, 1)
  {
    var t := SwappedPages();
    forall page | 0 <= page < PAGE_TABLE_NUM_ENTRIES
      ensures EntryUsable(page, EntryAt(t, page))
      ensures EntryAt(t, page).pointer.Some? ==> PAGE_SIZE <= Remaining(EntryAt(t, page).pointer.value)
    {
      assert page > 1 ==> EntryAt(t, page) == Entry(Unmapped, None);
    }
    ByteAgreesIff(t, PAGE_SIZE - 1, 2, 1);
    assert AccessTarget(t, PAGE_SIZE) == At(Host(0));
  }

  lemma ShiftSum(target: Target, j: nat, k: nat)
    ensures ShiftTarget(ShiftTarget(target, j), k) == ShiftTarget(target, j + k)
  {
  }

  lemma ShiftInjective(x: Target, y: Target, k: nat)
    ensures ShiftTarget(x, k) == ShiftTarget(y, k) <==> x == y
  {
  }

  lemma AddressBehind(v: nat, k: nat)
    requires v < ADDRESS_SPACE && LeftInPage(v) <= k < PAGE_SIZE
    ensures NextPage(v) % PAGE_SIZE == 0 && Wrapped(v + k) == NextPage(v) + (k - LeftInPage(v))
  {
    var page := v / PAGE_SIZE;
    assert v + k == (page + 1) * PAGE_SIZE + (k - LeftInPage(v));
    if page + 1 == PAGE_TABLE_NUM_ENTRIES {
      assert NextPage(v) == 0;
    } else {
      assert NextPage(v) == (page + 1) * PAGE_SIZE;
    }
  }

  lemma AddressInPage(v: nat, k: nat)
    requires v < ADDRESS_SPACE && k < LeftInPage(v)
    ensures v % PAGE_SIZE + k < PAGE_SIZE && Wrapped(v + k) == v + k
  {
  }

  /** Byte `j` of the next page. */
  lemma BehindIff(t: Table, v: nat, next: nat, j: nat)
    requires Usable(t) && v < ADDRESS_SPACE && next == NextPage(v) && next % PAGE_SIZE == 0 && j < PAGE_SIZE
    ensures next + j < ADDRESS_SPACE
    ensures AccessTarget(t, next + j) == ShiftTarget(AccessTarget(t, v), LeftInPage(v) + j) <==> GoesOn(t, v)
  {
    AccessIsContiguous(t, next, j);
    ShiftSum(AccessTarget(t, v), LeftInPage(v), j);
    ShiftInjective(AccessTarget(t, next), ShiftTarget(AccessTarget(t, v), LeftInPage(v)), j);
  }

  /** Byte `k` is where the page of the first one would go on, if it is on that page or the next one goes on. */
  lemma ByteInPlaceIff(t: Table, v: nat, k: nat)
    requires Usable(t) && v < ADDRESS_SPACE && k < 8
    ensures AccessTarget(t, Wrapped(v + k)) == ShiftTarget(AccessTarget(t, v), k) <==> k < LeftInPage(v) || GoesOn(t, v)
  {
    if k < LeftInPage(v) {
      AddressInPage(v, k);
      AccessIsContiguous(t, v, k);
    } else {
      AddressBehind(v, k);
      BehindIff(t, v, NextPage(v), k - LeftInPage(v));
    }
  }

  function ReadBytes(t: Table, host: seq<byte>, registers: nat -> byte, v: nat, n: nat): (data: seq<byte>)
    requires Usable(t) && |host| == HOST_SIZE && v + n <= ADDRESS_SPACE
    ensures |data| == n && forall i :: 0 <= i < n ==> data[i] == ReadByte(t, host, registers, v + i)
  {
    seq<byte>(n, i requires 0 <= i < n => ReadByte(t, host, registers, v + i))
  }

  predicate InHost(places: seq<Place>, size: nat) {
    forall i :: 0 <= i < |places| ==> places[i].Host? ==> places[i].at < size
  }

  /** Bytes written one after the other, each to its place. */
  function PutAll(s: Store, places: seq<Place>, data: seq<byte>): (r: Store)
    requires |places| == |data| && InHost(places, |s.host|)
    ensures |r.host| == |s.host|
  {
    if data == [] then s
    else
      var n := |data| - 1;
      Put(PutAll(s, places[..n], data[..n]), places[n], data[n])
  }

  /** The places of a range, in order. */
  function Places(t: Table, v: nat, n: nat): (places: seq<Place>)
    requires Usable(t) && v + n <= ADDRESS_SPACE
    ensures |places| == n && (forall i :: 0 <= i < n ==> places[i] == Translate(t, v + i))
    ensures InHost(places, HOST_SIZE)
  {
    var places := seq<Place>(n, i requires 0 <= i < n => Translate(t, v + i));
    assert forall i :: 0 <= i < n ==> places[i] == Translate(t, v + i);
    places
  }

  function WriteBytes(t: Table, s: Store, v: nat, data: seq<byte>): (r: Store)
    requires Usable(t) && |s.host| == HOST_SIZE && v + |data| <= ADDRESS_SPACE
    ensures |r.host| == HOST_SIZE
  {
    PutAll(s, Places(t, v, |data|), data)
  }

  lemma {:induction false} PutAllConcat(s: Store, p: seq<Place>, q: seq<Place>, a: seq<byte>, b: seq<byte>)
    requires |p| == |a| && |q| == |b| && InHost(p, |s.host|) && InHost(q, |s.host|)
    ensures InHost(p + q, |s.host|)
    ensures PutAll(s, p + q, a + b) == PutAll(PutAll(s, p, a), q, b)
    decreases |b|
  {
    if b == [] {
      assert a + b == a && p + q == p;
    } else {
      var n := |b| - 1;
      assert (a + b)[..|a + b| - 1] == a + b[..n] && (p + q)[..|a + b| - 1] == p + q[..n];
      PutAllConcat(s, p, q[..n], a, b[..n]);
    }
  }

  lemma WriteBytesConcat(t: Table, s: Store, v: nat, a: seq<byte>, b: seq<byte>)
    requires Usable(t) && |s.host| == HOST_SIZE && v + |a| + |b| <= ADDRESS_SPACE
    ensures WriteBytes(t, s, v, a + b) == WriteBytes(t, WriteBytes(t, s, v, a), v + |a|, b)
  {
    var p, q := Places(t, v, |a|), Places(t, v + |a|, |b|);
    forall i | 0 <= i < |b|
      ensures Places(t, v, |a + b|)[|a| + i] == q[i]
    {
      assert v + (|a| + i) == v + |a| + i;
    }
    assert Places(t, v, |a + b|) == p + q;
    PutAllConcat(s, p, q, a, b);
  }

  /** `from` with the bytes from `at` on replaced by `data`. */
  function Patch(from: seq<byte>, at: nat, data: seq<byte>): seq<byte>
    requires at + |data| <= |from|
  {
    from[..at] + data + from[at + |data|..]
  }

  function ReadRegisters(registers: nat -> byte, v: nat, n: nat): (data: seq<byte>)
    ensures |data| == n && forall i :: 0 <= i < n ==> data[i] == registers(v + i)
  {
    seq<byte>(n, i requires 0 <= i < n => registers(v + i))
  }

  function Zeros(n: nat): (data: seq<byte>)
    ensures |data| == n && forall i :: 0 <= i < n ==> data[i] == 0
  {
    seq<byte>(n, _ => 0)
  }

  /** I/O writes of a range. */
  function IoWrites(v: nat, data: seq<byte>): (log: seq<(nat, byte)>)
    ensures |log| == |data| && forall i :: 0 <= i < |data| ==> log[i] == (v + i, data[i])
  {
    seq<(nat, byte)>(|data|, i requires 0 <= i < |data| => (v + i, data[i]))
  }

  /** What one copy to the place `p` does. */
  function PutChunk(p: Place, s: Store, data: seq<byte>): Store
    requires p.Host? ==> p.at + |data| <= |s.host|
  {
    match p
    case Host(at) => s.(host := Patch(s.host, at, data))
    case Io(register) => s.(io := s.io + IoWrites(register, data))
    case Nowhere => s
  }

  /** A run of consecutive places takes its bytes in one copy. */
  lemma {:induction false} PutRun(p: Place, s: Store, places: seq<Place>, data: seq<byte>)
    requires |places| == |data| && (p.Host? ==> p.at + |data| <= |s.host|)
    requires forall i :: 0 <= i < |places| ==> places[i] == Shift(p, i)
    ensures InHost(places, |s.host|) && PutAll(s, places, data) == PutChunk(p, s, data)
    decreases |data|
  {
    if data != [] {
      var n := |data| - 1;
      PutRun(p, s, places[..n], data[..n]);
      match p {
        case Host(at) => assert Patch(s.host, at, data[..n])[at + n := data[n]] == Patch(s.host, at, data);
        case Io(register) => assert s.io + IoWrites(register, data) == (s.io + IoWrites(register, data[..n])) + [(register + n, data[n])];
        case Nowhere =>
      }
    } else {
      match p {
        case Host(at) => assert Patch(s.host, at, data) == s.host;
        case Io(register) => assert s.io + IoWrites(register, data) == s.io;
        case Nowhere =>
      }
    }
  }

  /** One page's worth of a block write, done in one copy. */
  lemma WriteChunk(t: Table, s: Store, v: nat, data: seq<byte>)
    requires Usable(t) && |s.host| == HOST_SIZE && data != []
    requires v % PAGE_SIZE + |data| <= PAGE_SIZE && v + |data| <= ADDRESS_SPACE
    ensures Translate(t, v).Host? ==> Translate(t, v).at + |data| <= HOST_SIZE
    ensures WriteBytes(t, s, v, data) == PutChunk(Translate(t, v), s, data)
  {
    PageIsContiguous(t, v, |data| - 1);
    var places := Places(t, v, |data|);
    forall i | 0 <= i < |data|
      ensures places[i] == Shift(Translate(t, v), i)
    {
      PageIsContiguous(t, v, i);
    }
    PutRun(Translate(t, v), s, places, data);
  }

  /** Bytes written to registers arrive there in order, and nowhere else. */
  lemma RegistersGetTheBytes(t: Table, s: Store, v: nat, data: seq<byte>)
    requires Usable(t) && |s.host| == HOST_SIZE && v + |data| <= ADDRESS_SPACE
    requires forall u :: v <= u < v + |data| ==> t.kinds[u / PAGE_SIZE] == Special
    ensures WriteBytes(t, s, v, data) == Store(s.host, s.io + seq<(nat, byte)>(|data|, i requires 0 <= i < |data| => (v + i, data[i])))
  {
    var places := Places(t, v, |data|);
    forall i | 0 <= i < |data|
      ensures places[i] == Shift(Io(v), i)
    {
      assert t.kinds[(v + i) / PAGE_SIZE] == Special;
    }
    PutRun(Io(v), s, places, data);
  }

  /** What one copy from the place `p` gives. */
  function Chunk(p: Place, host: seq<byte>, registers: nat -> byte, n: nat): (data: seq<byte>)
    requires p.Host? ==> p.at + n <= |host|
    ensures |data| == n
  {
    match p
    case Host(at) => host[at..at + n]
    case Io(register) => ReadRegisters(registers, register, n)
    case Nowhere => Zeros(n)
  }

  /** One page's worth of a block read. */
  lemma ReadChunk(t: Table, host: seq<byte>, registers: nat -> byte, v: nat, n: nat)
    requires Usable(t) && |host| == HOST_SIZE && 0 < n && v + n <= ADDRESS_SPACE && v % PAGE_SIZE + n <= PAGE_SIZE
    ensures Translate(t, v).Host? ==> Translate(t, v).at + n <= HOST_SIZE
    ensures ReadBytes(t, host, registers, v, n) == Chunk(Translate(t, v), host, registers, n)
  {
    PageIsContiguous(t, v, n - 1);
    var data, chunk := ReadBytes(t, host, registers, v, n), Chunk(Translate(t, v), host, registers, n);
    forall i | 0 <= i < n
      ensures data[i] == chunk[i]
    {
      PageIsContiguous(t, v, i);
    }
  }

  lemma ReadBytesConcat(t: Table, host: seq<byte>, registers: nat -> byte, v: nat, m: nat, n: nat)
    requires Usable(t) && |host| == HOST_SIZE && v + m + n <= ADDRESS_SPACE
    ensures ReadBytes(t, host, registers, v, m + n) == ReadBytes(t, host, registers, v, m) + ReadBytes(t, host, registers, v + m, n)
  {
    var all, second := ReadBytes(t, host, registers, v, m + n), ReadBytes(t, host, registers, v + m, n);
    forall i | 0 <= i < n
      ensures all[m + i] == second[i]
    {
      assert v + (m + i) == v + m + i;
    }
  }

  // ---------------------------------------------------------------- properties of ranges

  /** No address of the range translates to host byte `h`. */
  ghost predicate Misses(t: Table, v: nat, n: nat, h: nat)
    requires Usable(t) && v + n <= ADDRESS_SPACE
  {
    forall u :: v <= u < v + n ==> Translate(t, u) != Host(h)
  }

  lemma {:induction false} PutAllElsewhere(s: Store, places: seq<Place>, data: seq<byte>, h: nat)
    requires |places| == |data| && InHost(places, |s.host|) && h < |s.host|
    requires forall i :: 0 <= i < |places| ==> places[i] != Host(h)
    ensures PutAll(s, places, data).host[h] == s.host[h]
    decreases |data|
  {
    if data != [] {
      PutAllElsewhere(s, places[..|data| - 1], data[..|data| - 1], h);
    }
  }

  /** Of several writes to one byte the last one stays. */
  lemma {:induction false} PutAllLast(s: Store, places: seq<Place>, data: seq<byte>, i: nat)
    requires |places| == |data| && InHost(places, |s.host|) && i < |data| && places[i].Host?
    requires forall j :: i < j < |places| ==> places[j] != places[i]
    ensures PutAll(s, places, data).host[places[i].at] == data[i]
    decreases |data|
  {
    if i < |data| - 1 {
      PutAllLast(s, places[..|data| - 1], data[..|data| - 1], i);
    }
  }

  /** A block write changes no byte of host memory that the range does not translate to. */
  lemma WriteTouchesOnlyTheRange(t: Table, s: Store, v: nat, data: seq<byte>, h: nat)
    requires Usable(t) && |s.host| == HOST_SIZE && v + |data| <= ADDRESS_SPACE && h < HOST_SIZE
    requires Misses(t, v, |data|, h)
    ensures WriteBytes(t, s, v, data).host[h] == s.host[h]
  {
    PutAllElsewhere(s, Places(t, v, |data|), data, h);
  }

  /** Writing and reading back gives the data where the range is memory and no two addresses share a byte. */
  lemma WriteThenRead(t: Table, s: Store, registers: nat -> byte, v: nat, data: seq<byte>)
    requires Usable(t) && |s.host| == HOST_SIZE && v + |data| <= ADDRESS_SPACE
    requires forall u :: v <= u < v + |data| ==> Translate(t, u).Host?
    requires forall u, w :: v <= u < w < v + |data| ==> Translate(t, u) != Translate(t, w)
    ensures ReadBytes(t, WriteBytes(t, s, v, data).host, registers, v, |data|) == data
  {
    var after := WriteBytes(t, s, v, data).host;
    forall i | 0 <= i < |data|
      ensures ReadBytes(t, after, registers, v, |data|)[i] == data[i]
    {
      PutAllLast(s, Places(t, v, |data|), data, i);
    }
  }

  /** A read depends only on the host bytes its range translates to. */
  lemma ReadUnaffected(t: Table, a: seq<byte>, b: seq<byte>, registers: nat -> byte, v: nat, n: nat)
    requires Usable(t) && |a| == |b| == HOST_SIZE && v + n <= ADDRESS_SPACE
    requires forall h :: 0 <= h < HOST_SIZE ==> a[h] == b[h] || Misses(t, v, n, h)
    ensures ReadBytes(t, a, registers, v, n) == ReadBytes(t, b, registers, v, n)
  {
    var x, y := ReadBytes(t, a, registers, v, n), ReadBytes(t, b, registers, v, n);
    forall i | 0 <= i < n
      ensures x[i] == y[i]
    {
      match Translate(t, v + i) {
        case Host(h) => assert !Misses(t, v, n, h);
        case _ =>
      }
    }
  }
}
