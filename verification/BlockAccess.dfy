/**
 The block operations of `MemorySystem`, which go through a range page by page with one copy for each, on
 host memory as one array. Flushing the rasterizer leaves host memory as it is.
 */
module BlockAccess {
  import opened Bytes
  import opened Common
  import opened MemoryMap
  import opened GuestAccess
  import opened MemorySystem

  /** The page cursor of the block loops stands at `v`. */
  predicate CursorAt(v: nat, pageIndex: nat, pageOffset: nat) {
    pageOffset < PAGE_SIZE && pageIndex * PAGE_SIZE + pageOffset == v
  }

  lemma CursorStart(v: nat)
    ensures CursorAt(v, v / PAGE_SIZE, v % PAGE_SIZE)
  {
  }

  /** One round of a block loop stays in its page, and if anything remains the next one starts a page. */
  lemma CursorStep(v: nat, pageIndex: nat, pageOffset: nat, remaining: nat)
    requires CursorAt(v, pageIndex, pageOffset) && remaining > 0
    ensures var n := Min(PAGE_SIZE - pageOffset, remaining);
            && 0 < n <= remaining && v % PAGE_SIZE + n <= PAGE_SIZE && v / PAGE_SIZE == pageIndex
            && (n < remaining ==> CursorAt(v + n, pageIndex + 1, 0))
  {
  }

  class HostMemory {
    const host: array<byte>
    /** What has been written to I/O registers. */
    var ioLog: seq<(nat, byte)>

    predicate Valid() {
      host.Length == HOST_SIZE
    }

    ghost function State(): Store
      reads this, host
    {
      Store(host[..], ioLog)
    }

    constructor ()
      ensures Valid() && fresh(host) && ioLog == []
    {
      host := new byte[HOST_SIZE](_ => 0);
      ioLog := [];
    }

    /** `memcpy` into host memory. */
    method CopyIn(at: nat, data: seq<byte>)
      requires at + |data| <= host.Length
      modifies host
      ensures host[..] == Patch(old(host[..]), at, data)
    {
      var k := 0;
      while k < |data|
        invariant 0 <= k <= |data|
        invariant forall h :: 0 <= h < host.Length ==> host[h] == if at <= h < at + k then data[h - at] else old(host[h])
      {
        host[at + k] := data[k];
        k := k + 1;
      }
    }

    /** The switch of `ReadBlockImpl` for one page. */
    method ReadPage(t: PageTable, registers: nat -> byte, v: nat, n: nat) returns (data: seq<byte>)
      requires Valid() && t.Valid() && Usable(t.View())
      requires 0 < n && v % PAGE_SIZE + n <= PAGE_SIZE && v + n <= ADDRESS_SPACE
      ensures data == ReadBytes(t.View(), host[..], registers, v, n)
    {
      ReadChunk(t.View(), host[..], registers, v, n);
      var pageIndex, pageOffset := v / PAGE_SIZE, v % PAGE_SIZE;
      assert EntryUsable(pageIndex, EntryAt(t.View(), pageIndex));
      match t.attributes[pageIndex] {
        case Unmapped => data := Zeros(n);
        case Memory =>
          var at := HostOf(t.pointers[pageIndex].value) + pageOffset;
          data := host[at..at + n];
        case Special => data := ReadRegisters(registers, v, n);
        case RasterizerCachedMemory =>
          var at := HostOf(LinearRef(v));
          data := host[at..at + n];
      }
    }

    /** One round of a block read: what is left of the page, or of the range, after the first `done` bytes. */
    method ReadNext(t: PageTable, registers: nat -> byte, srcAddr: nat, size: nat, done: nat, pageIndex: nat, pageOffset: nat)
      returns (data: seq<byte>)
      requires Valid() && t.Valid() && Usable(t.View()) && srcAddr + size <= ADDRESS_SPACE
      requires done < size && CursorAt(srcAddr + done, pageIndex, pageOffset)
      ensures 0 < |data| <= size - done
      ensures done + |data| < size ==> CursorAt(srcAddr + (done + |data|), pageIndex + 1, 0)
      ensures ReadBytes(t.View(), host[..], registers, srcAddr, done) + data ==
              ReadBytes(t.View(), host[..], registers, srcAddr, done + |data|)
    {
      var copyAmount := Min(PAGE_SIZE - pageOffset, size - done);
      CursorStep(srcAddr + done, pageIndex, pageOffset, size - done);
      data := ReadPage(t, registers, pageIndex * PAGE_SIZE + pageOffset, copyAmount);
      ReadBytesConcat(t.View(), host[..], registers, srcAddr, done, copyAmount);
    }

    method ReadBlock(t: PageTable, registers: nat -> byte, srcAddr: nat, size: nat) returns (dest: seq<byte>)
      requires Valid() && t.Valid() && Usable(t.View()) && srcAddr + size <= ADDRESS_SPACE
      ensures dest == ReadBytes(t.View(), host[..], registers, srcAddr, size)
    {
      var pageIndex: nat := srcAddr / PAGE_SIZE;
      var pageOffset: nat := srcAddr % PAGE_SIZE;
      dest := [];
      CursorStart(srcAddr);
      while |dest| < size
        invariant |dest| <= size
        invariant |dest| < size ==> CursorAt(srcAddr + |dest|, pageIndex, pageOffset)
        invariant dest == ReadBytes(t.View(), host[..], registers, srcAddr, |dest|)
      {
        var data := ReadNext(t, registers, srcAddr, size, |dest|, pageIndex, pageOffset);
        dest := dest + data;
        pageIndex := pageIndex + 1;
        pageOffset := 0;
      }
    }

    /** One copy, or the register writes of one, or nothing. */
    method PutAt(p: Place, data: seq<byte>)
      requires Valid() && (p.Host? ==> p.at + |data| <= HOST_SIZE)
      modifies this`ioLog, host
      ensures State() == PutChunk(p, old(State()), data)
    {
      match p {
        case Host(at) => CopyIn(at, data);
        case Io(register) => ioLog := ioLog + IoWrites(register, data);
        case Nowhere =>
      }
    }

    /** The switch of `WriteBlockImpl` for one page. */
    method WritePage(t: PageTable, v: nat, data: seq<byte>)
      requires Valid() && t.Valid() && Usable(t.View())
      requires data != [] && v % PAGE_SIZE + |data| <= PAGE_SIZE && v + |data| <= ADDRESS_SPACE
      modifies this`ioLog, host
      ensures State() == WriteBytes(t.View(), old(State()), v, data)
    {
      WriteChunk(t.View(), State(), v, data);
      var place := PlaceOf(t, v);
      PutAt(place, data);
    }

    /** What the entry of the page leads to. */
    method PlaceOf(t: PageTable, v: nat) returns (p: Place)
      requires t.Valid() && Usable(t.View()) && v < ADDRESS_SPACE
      ensures p == Translate(t.View(), v)
    {
      var pageIndex, pageOffset := v / PAGE_SIZE, v % PAGE_SIZE;
      assert EntryUsable(pageIndex, EntryAt(t.View(), pageIndex));
      match t.attributes[pageIndex] {
        case Unmapped => p := Nowhere;
        case Memory => p := Host(HostOf(t.pointers[pageIndex].value) + pageOffset);
        case Special => p := Io(v);
        case RasterizerCachedMemory => p := Host(HostOf(LinearRef(v)));
      }
    }

    /** One round of a block write: as much of `source` from `done` on as is left of the page. */
    method WriteNext(t: PageTable, destAddr: nat, source: seq<byte>, done: nat, pageIndex: nat, pageOffset: nat, ghost before: Store)
      returns (copyAmount: nat)
      requires Valid() && t.Valid() && Usable(t.View()) && |before.host| == HOST_SIZE && destAddr + |source| <= ADDRESS_SPACE
      requires done < |source| && CursorAt(destAddr + done, pageIndex, pageOffset)
      requires State() == WriteBytes(t.View(), before, destAddr, source[..done])
      modifies this`ioLog, host
      ensures 0 < copyAmount <= |source| - done
      ensures done + copyAmount < |source| ==> CursorAt(destAddr + (done + copyAmount), pageIndex + 1, 0)
      ensures State() == WriteBytes(t.View(), before, destAddr, source[..done + copyAmount])
    {
      copyAmount := Min(PAGE_SIZE - pageOffset, |source| - done);
      CursorStep(destAddr + done, pageIndex, pageOffset, |source| - done);
      var part := source[done..done + copyAmount];
      assert source[..done] + part == source[..done + copyAmount];
      WriteBytesConcat(t.View(), before, destAddr, source[..done], part);
      WritePage(t, pageIndex * PAGE_SIZE + pageOffset, part);
    }

    method WriteBlock(t: PageTable, destAddr: nat, source: seq<byte>)
      requires Valid() && t.Valid() && Usable(t.View()) && destAddr + |source| <= ADDRESS_SPACE
      modifies this`ioLog, host
      ensures State() == WriteBytes(t.View(), old(State()), destAddr, source)
    {
      var done := 0;
      var pageIndex: nat := destAddr / PAGE_SIZE;
      var pageOffset: nat := destAddr % PAGE_SIZE;
      CursorStart(destAddr);
      while done < |source|
        invariant 0 <= done <= |source| && t.View() == old(t.View())
        invariant done < |source| ==> CursorAt(destAddr + done, pageIndex, pageOffset)
        invariant State() == WriteBytes(t.View(), old(State()), destAddr, source[..done])
      {
        var copyAmount := WriteNext(t, destAddr, source, done, pageIndex, pageOffset, old(State()));
        pageIndex := pageIndex + 1;
        pageOffset := 0;
        done := done + copyAmount;
      }
      assert source[..done] == source;
    }

    /** One round of zeroing. */
    method ZeroNext(t: PageTable, destAddr: nat, size: nat, done: nat, pageIndex: nat, pageOffset: nat, ghost before: Store)
      returns (copyAmount: nat)
      requires Valid() && t.Valid() && Usable(t.View()) && |before.host| == HOST_SIZE && destAddr + size <= ADDRESS_SPACE
      requires done < size && CursorAt(destAddr + done, pageIndex, pageOffset)
      requires State() == WriteBytes(t.View(), before, destAddr, Zeros(done))
      modifies this`ioLog, host
      ensures 0 < copyAmount <= size - done
      ensures done + copyAmount < size ==> CursorAt(destAddr + (done + copyAmount), pageIndex + 1, 0)
      ensures State() == WriteBytes(t.View(), before, destAddr, Zeros(done + copyAmount))
    {
      copyAmount := Min(PAGE_SIZE - pageOffset, size - done);
      CursorStep(destAddr + done, pageIndex, pageOffset, size - done);
      ZerosConcat(done, copyAmount);
      WriteBytesConcat(t.View(), before, destAddr, Zeros(done), Zeros(copyAmount));
      WritePage(t, pageIndex * PAGE_SIZE + pageOffset, Zeros(copyAmount));
    }

    method ZeroBlock(t: PageTable, destAddr: nat, size: nat)
      requires Valid() && t.Valid() && Usable(t.View()) && destAddr + size <= ADDRESS_SPACE
      modifies this`ioLog, host
      ensures State() == WriteBytes(t.View(), old(State()), destAddr, Zeros(size))
    {
      var done := 0;
      var pageIndex: nat := destAddr / PAGE_SIZE;
      var pageOffset: nat := destAddr % PAGE_SIZE;
      CursorStart(destAddr);
      while done < size
        invariant 0 <= done <= size && t.View() == old(t.View())
        invariant done < size ==> CursorAt(destAddr + done, pageIndex, pageOffset)
        invariant State() == WriteBytes(t.View(), old(State()), destAddr, Zeros(done))
      {
        var copyAmount := ZeroNext(t, destAddr, size, done, pageIndex, pageOffset, old(State()));
        pageIndex := pageIndex + 1;
        pageOffset := 0;
        done := done + copyAmount;
      }
    }

    /** The switch of `CopyBlock` for one page of the source. */
    method CopyPage(destTable: PageTable, srcTable: PageTable, registers: nat -> byte, destAddr: nat, v: nat, n: nat)
      requires Valid() && destTable.Valid() && srcTable.Valid() && Usable(destTable.View()) && Usable(srcTable.View())
      requires 0 < n && v % PAGE_SIZE + n <= PAGE_SIZE && v + n <= ADDRESS_SPACE && destAddr + n <= ADDRESS_SPACE
      modifies this`ioLog, host
      ensures State() == WriteBytes(destTable.View(), old(State()), destAddr, ReadBytes(srcTable.View(), old(host[..]), registers, v, n))
    {
      if srcTable.attributes[v / PAGE_SIZE] == Unmapped {
        UnmappedReadsZero(srcTable.View(), host[..], registers, v, n);
        ZeroBlock(destTable, destAddr, n);
      } else {
        var data := ReadPage(srcTable, registers, v, n);
        WriteBlock(destTable, destAddr, data);
      }
    }

    /** Copies `n` bytes within one page of the source. */
    method CopyPart(destTable: PageTable, srcTable: PageTable, registers: nat -> byte, destAddr: nat, v: nat, n: nat,
                    ghost plan: CopyPlan, ghost done: nat)
      requires Valid() && destTable.Valid() && srcTable.Valid() && PlanOk(plan)
      requires destTable.View() == plan.dest && srcTable.View() == plan.source && registers == plan.registers
      requires 0 < n && done + n <= plan.size && v % PAGE_SIZE + n <= PAGE_SIZE
      requires destAddr == plan.destAddr + done && v == plan.srcAddr + done
      requires State() == Copied(plan, done)
      modifies this`ioLog, host
      ensures State() == Copied(plan, done + n)
    {
      SourceUntouched(plan, done, n);
      CopyPage(destTable, srcTable, registers, destAddr, v, n);
    }

    /** A block copy after `done` bytes, its cursor at the next byte of the source. */
    ghost predicate Copying(destTable: PageTable, srcTable: PageTable, plan: CopyPlan, done: nat, pageIndex: nat, pageOffset: nat)
      reads this, host, destTable.attributes, destTable.pointers, srcTable.attributes, srcTable.pointers
    {
      && Valid() && destTable.Valid() && srcTable.Valid() && PlanOk(plan) && done <= plan.size
      && destTable.View() == plan.dest && srcTable.View() == plan.source
      && (done < plan.size ==> CursorAt(plan.srcAddr + done, pageIndex, pageOffset))
      && State() == Copied(plan, done)
    }

    /** One round of a block copy. */
    method CopyNext(destTable: PageTable, srcTable: PageTable, registers: nat -> byte, destAddr: nat, srcAddr: nat, size: nat,
                    done: nat, pageIndex: nat, pageOffset: nat, ghost plan: CopyPlan)
      returns (copyAmount: nat)
      requires Copying(destTable, srcTable, plan, done, pageIndex, pageOffset) && done < size
      requires registers == plan.registers && destAddr == plan.destAddr && srcAddr == plan.srcAddr && size == plan.size
      modifies this`ioLog, host
      ensures 0 < copyAmount <= size - done
      ensures Copying(destTable, srcTable, plan, done + copyAmount, pageIndex + 1, 0)
    {
      copyAmount := Min(PAGE_SIZE - pageOffset, size - done);
      CursorStep(srcAddr + done, pageIndex, pageOffset, size - done);
      CopyPart(destTable, srcTable, registers, destAddr + done, pageIndex * PAGE_SIZE + pageOffset, copyAmount, plan, done);
    }

    /** The loop of `CopyBlock`. */
    method CopyPages(destTable: PageTable, srcTable: PageTable, registers: nat -> byte, destAddr: nat, srcAddr: nat, size: nat,
                     ghost plan: CopyPlan)
      requires Copying(destTable, srcTable, plan, 0, srcAddr / PAGE_SIZE, srcAddr % PAGE_SIZE)
      requires registers == plan.registers && destAddr == plan.destAddr && srcAddr == plan.srcAddr && size == plan.size
      modifies this`ioLog, host
      ensures PlanOk(plan) && State() == Copied(plan, size)
    {
      var done := 0;
      var pageIndex: nat := srcAddr / PAGE_SIZE;
      var pageOffset: nat := srcAddr % PAGE_SIZE;
      while done < size
        invariant 0 <= done <= size
        invariant Copying(destTable, srcTable, plan, done, pageIndex, pageOffset)
      {
        var copyAmount := CopyNext(destTable, srcTable, registers, destAddr, srcAddr, size, done, pageIndex, pageOffset, plan);
        pageIndex := pageIndex + 1;
        pageOffset := 0;
        done := done + copyAmount;
      }
    }

    /**
     `CopyBlock` between two processes. Where no byte that is read is among those written, it writes what a
     read of the whole source range gave before.
     */
    method CopyBlock(destTable: PageTable, srcTable: PageTable, registers: nat -> byte, destAddr: nat, srcAddr: nat, size: nat)
      requires Valid() && destTable.Valid() && srcTable.Valid() && Usable(destTable.View()) && Usable(srcTable.View())
      requires destAddr + size <= ADDRESS_SPACE && srcAddr + size <= ADDRESS_SPACE
      requires Disjoint(destTable.View(), srcTable.View(), destAddr, srcAddr, size)
      modifies this`ioLog, host
      ensures State() == WriteBytes(destTable.View(), old(State()), destAddr,
                                    ReadBytes(srcTable.View(), old(host[..]), registers, srcAddr, size))
    {
      ghost var plan := CopyPlan(destTable.View(), srcTable.View(), State(), registers, destAddr, srcAddr, size);
      CursorStart(srcAddr);
      NothingCopied(plan);
      CopyPages(destTable, srcTable, registers, destAddr, srcAddr, size, plan);
    }
  }

  lemma NothingCopied(p: CopyPlan)
    requires PlanOk(p)
    ensures Copied(p, 0) == p.before
  {
  }

  lemma ZerosConcat(a: nat, b: nat)
    ensures Zeros(a + b) == Zeros(a) + Zeros(b)
  {
  }

  lemma UnmappedReadsZero(t: Table, host: seq<byte>, registers: nat -> byte, v: nat, n: nat)
    requires Usable(t) && |host| == HOST_SIZE && 0 < n && v % PAGE_SIZE + n <= PAGE_SIZE && v + n <= ADDRESS_SPACE
    requires t.kinds[v / PAGE_SIZE] == Unmapped
    ensures ReadBytes(t, host, registers, v, n) == Zeros(n)
  {
    ReadChunk(t, host, registers, v, n);
  }

  /** No host byte of the source range is a host byte of the destination range. */
  ghost predicate Disjoint(dest: Table, source: Table, destAddr: nat, srcAddr: nat, size: nat)
    requires Usable(dest) && Usable(source) && destAddr + size <= ADDRESS_SPACE && srcAddr + size <= ADDRESS_SPACE
  {
    forall h :: 0 <= h < HOST_SIZE ==> Misses(dest, destAddr, size, h) || Misses(source, srcAddr, size, h)
  }

  /** The arguments of a block copy and the store it begins with. */
  datatype CopyPlan = CopyPlan(dest: Table, source: Table, before: Store, registers: nat -> byte,
                               destAddr: nat, srcAddr: nat, size: nat)

  ghost predicate PlanOk(p: CopyPlan) {
    && Usable(p.dest) && Usable(p.source) && |p.before.host| == HOST_SIZE
    && p.destAddr + p.size <= ADDRESS_SPACE && p.srcAddr + p.size <= ADDRESS_SPACE
    && Disjoint(p.dest, p.source, p.destAddr, p.srcAddr, p.size)
  }

  /** The store after the first `done` bytes. */
  ghost function Copied(p: CopyPlan, done: nat): (s: Store)
    requires PlanOk(p) && done <= p.size
    ensures |s.host| == HOST_SIZE
  {
    WriteBytes(p.dest, p.before, p.destAddr, ReadBytes(p.source, p.before.host, p.registers, p.srcAddr, done))
  }

  /** The part of the source not yet copied still reads as it did before the copy. */
  lemma RestUntouched(p: CopyPlan, done: nat, n: nat)
    requires PlanOk(p) && done + n <= p.size
    ensures ReadBytes(p.source, Copied(p, done).host, p.registers, p.srcAddr + done, n) ==
            ReadBytes(p.source, p.before.host, p.registers, p.srcAddr + done, n)
  {
    var soFar := ReadBytes(p.source, p.before.host, p.registers, p.srcAddr, done);
    forall h | 0 <= h < HOST_SIZE
      ensures Copied(p, done).host[h] == p.before.host[h] || Misses(p.source, p.srcAddr + done, n, h)
    {
      if Misses(p.dest, p.destAddr, p.size, h) {
        assert Misses(p.dest, p.destAddr, done, h);
        WriteTouchesOnlyTheRange(p.dest, p.before, p.destAddr, soFar, h);
      }
    }
    ReadUnaffected(p.source, Copied(p, done).host, p.before.host, p.registers, p.srcAddr + done, n);
  }

  lemma WritesJoin(t: Table, s: Store, v: nat, w: nat, first: seq<byte>, next: seq<byte>, all: seq<byte>, mid: Store)
    requires Usable(t) && |s.host| == HOST_SIZE && v + |first| + |next| <= ADDRESS_SPACE
    requires all == first + next && w == v + |first| && mid == WriteBytes(t, s, v, first)
    ensures WriteBytes(t, mid, w, next) == WriteBytes(t, s, v, all)
  {
    WriteBytesConcat(t, s, v, first, next);
  }

  /** Copying the next part continues the copy. */
  lemma SourceUntouched(p: CopyPlan, done: nat, n: nat)
    requires PlanOk(p) && done + n <= p.size
    ensures WriteBytes(p.dest, Copied(p, done), p.destAddr + done,
                       ReadBytes(p.source, Copied(p, done).host, p.registers, p.srcAddr + done, n)) == Copied(p, done + n)
  {
    RestUntouched(p, done, n);
    var first := ReadBytes(p.source, p.before.host, p.registers, p.srcAddr, done);
    var next := ReadBytes(p.source, p.before.host, p.registers, p.srcAddr + done, n);
    var all := ReadBytes(p.source, p.before.host, p.registers, p.srcAddr, done + n);
    ReadBytesConcat(p.source, p.before.host, p.registers, p.srcAddr, done, n);
    var soFar := Copied(p, done);
    WritesJoin(p.dest, p.before, p.destAddr, p.destAddr + done, first, next, all, soFar);
    assert ReadBytes(p.source, soFar.host, p.registers, p.srcAddr + done, n) == next;
  }
}
