/**
 `SlotVector`: values in numbered slots, with a bitset of the slots in use, a stack of free slots and storage
 that doubles when the stack runs empty. A 64-bit word of the bitset is the sequence of its bits, lowest first.
 */
module SlotVector {

  const INVALID_INDEX: nat := 0xFFFF_FFFF

  type Word = w: seq<bool> | |w| == 64 witness seq(64, _ => false)

  const ZERO: Word := seq(64, _ => false)

  /** The union of an object and nothing. */
  datatype Entry<T> = Dummy | Object(value: T)

  /** Bit `index` of the bitset, false beyond its end. */
  predicate StorageBit(bitset: seq<Word>, index: nat) {
    index / 64 < |bitset| && bitset[index / 64][index % 64]
  }

  function PutBit(bitset: seq<Word>, index: nat, bit: bool): (r: seq<Word>)
    requires index / 64 < |bitset|
    ensures |r| == |bitset|
    ensures forall i: nat :: StorageBit(r, i) == if i == index then bit else StorageBit(bitset, i)
  {
    var r := bitset[index / 64 := bitset[index / 64][index % 64 := bit]];
    assert forall i: nat :: i / 64 == index / 64 && i % 64 == index % 64 ==> i == index;
    r
  }

  ghost predicate NoDuplicates(s: seq<nat>) {
    forall i, j :: 0 <= i < j < |s| ==> s[i] != s[j]
  }

  /** The free list and the set bits divide `[0, capacity)` between them, and no bit is set beyond. */
  ghost predicate Partitioned(bitset: seq<Word>, freeList: seq<nat>, capacity: nat) {
    && |bitset| == (capacity + 63) / 64
    && NoDuplicates(freeList)
    && (forall f :: f in freeList ==> f < capacity)
    && (forall i :: 0 <= i < capacity ==> (StorageBit(bitset, i) <==> i !in freeList))
    && (forall i: nat :: capacity <= i ==> !StorageBit(bitset, i))
  }

  lemma PopPartitioned(bitset: seq<Word>, freeList: seq<nat>, capacity: nat)
    requires Partitioned(bitset, freeList, capacity) && freeList != []
    ensures var f := freeList[|freeList| - 1];
            && !StorageBit(bitset, f) && f / 64 < |bitset| && f < capacity
            && Partitioned(PutBit(bitset, f, true), freeList[..|freeList| - 1], capacity)
  {
    var n := |freeList| - 1;
    assert freeList[n] in freeList;
    forall i: nat
      ensures i in freeList[..n] <==> i in freeList && i != freeList[n]
    {
      assert freeList == freeList[..n] + [freeList[n]];
    }
  }

  lemma PushPartitioned(bitset: seq<Word>, freeList: seq<nat>, capacity: nat, f: nat)
    requires Partitioned(bitset, freeList, capacity) && StorageBit(bitset, f)
    ensures Partitioned(PutBit(bitset, f, false), freeList + [f], capacity)
  {
    assert f < capacity;
    assert f !in freeList;
  }

  /** `std::iota` from `first` to before `last`. */
  function Iota(first: nat, last: nat): (s: seq<nat>)
    requires first <= last
    ensures |s| == last - first && (forall i :: 0 <= i < |s| ==> s[i] == first + i)
  {
    seq(last - first, i requires 0 <= i => first + i)
  }

  lemma IotaMembers(first: nat, last: nat, x: nat)
    requires first <= last
    ensures x in Iota(first, last) <==> first <= x < last
  {
    if first <= x < last {
      assert Iota(first, last)[x - first] == x;
    }
  }

  lemma GrowPartitioned(bitset: seq<Word>, freeList: seq<nat>, capacity: nat, newCapacity: nat)
    requires Partitioned(bitset, freeList, capacity) && capacity <= newCapacity
    ensures |bitset| <= (newCapacity + 63) / 64
    ensures Partitioned(bitset + seq((newCapacity + 63) / 64 - |bitset|, _ => ZERO), freeList + Iota(capacity, newCapacity), newCapacity)
  {
    var bits := bitset + seq((newCapacity + 63) / 64 - |bitset|, _ => ZERO);
    forall i: nat
      ensures StorageBit(bits, i) == StorageBit(bitset, i)
    {
    }
    forall i: nat
      ensures i in Iota(capacity, newCapacity) <==> capacity <= i < newCapacity
    {
      IotaMembers(capacity, newCapacity, i);
    }
    var grown := freeList + Iota(capacity, newCapacity);
    forall i, j | 0 <= i < j < |grown|
      ensures grown[i] != grown[j]
    {
      assert i < |freeList| ==> freeList[i] in freeList;
      assert i >= |freeList| ==> grown[i] == capacity + (i - |freeList|);
      assert j >= |freeList| ==> grown[j] == capacity + (j - |freeList|);
    }
  }

  predicate AnySet(bits: seq<bool>) {
    exists i :: 0 <= i < |bits| && bits[i]
  }

  /** When the rest of a word is zero, no slot of that word from `bit` on is in use. */
  lemma RestClear(bitset: seq<Word>, w: nat, bit: nat)
    requires w < |bitset| && bit <= 64 && !AnySet(bitset[w][bit..])
    ensures forall i: nat :: 64 * w + bit <= i < 64 * w + 64 ==> !StorageBit(bitset, i)
  {
    var rest := bitset[w][bit..];
    forall i: nat | 64 * w + bit <= i < 64 * w + 64
      ensures !StorageBit(bitset, i)
    {
      assert i / 64 == w;
      assert !rest[i - 64 * w - bit];
    }
  }

  class SlotVector<T> {
    var values: array<Entry<T>>
    var valuesCapacity: nat
    var storedBitset: seq<Word>
    var freeList: seq<nat>

    ghost predicate Valid()
      reads this, values
    {
      LiveAreObjects() && Partitioned(storedBitset, freeList, valuesCapacity) && valuesCapacity <= INVALID_INDEX
    }

    ghost predicate LiveAreObjects()
      reads this, values
    {
      && values.Length == valuesCapacity
      && forall i :: 0 <= i < valuesCapacity && StorageBit(storedBitset, i) ==> values[i].Object?
    }

    /** The stored values by slot number. */
    ghost function Contents(): map<nat, T>
      requires Valid()
      reads this, values
    {
      Held()
    }

    ghost function Held(): map<nat, T>
      requires LiveAreObjects()
      reads this, values
    {
      map i | 0 <= i < valuesCapacity && StorageBit(storedBitset, i) :: values[i].value
    }

    constructor ()
      ensures Valid() && Contents() == map[] && fresh(values)
    {
      values := new Entry<T>[0];
      valuesCapacity := 0;
      storedBitset, freeList := [], [];
    }

    /** `operator[]`. */
    method Get(id: nat) returns (value: T)
      requires Valid() && id in Contents()
      ensures value == Contents()[id]
    {
      value := values[id].value;
    }

    /** A slot is free, or the numbers of a doubled storage still fit 32 bits, the invalid one excepted. */
    predicate CanTakeSlot()
      reads this
    {
      freeList != [] || 2 * valuesCapacity <= INVALID_INDEX
    }

    /** A new slot number, which is not one of the live ones; all of those keep their value. */
    method Insert(value: T) returns (id: nat)
      requires Valid() && CanTakeSlot()
      modifies this, values
      ensures Valid() && (values == old(values) || fresh(values))
      ensures id !in old(Contents()) && id != INVALID_INDEX
      ensures Contents() == old(Contents())[id := value]
      ensures valuesCapacity == if old(freeList) != [] then old(valuesCapacity) else if old(valuesCapacity) == 0 then 1 else 2 * old(valuesCapacity)
    {
      id := FreeValueIndex();
      Occupy(id, value);
    }

    /** Constructs the value and sets the bit of a slot that has been taken off the free list. */
    method Occupy(id: nat, value: T)
      requires LiveAreObjects() && id < valuesCapacity && id / 64 < |storedBitset| && !StorageBit(storedBitset, id)
      requires Partitioned(PutBit(storedBitset, id, true), freeList, valuesCapacity) && valuesCapacity <= INVALID_INDEX
      modifies this`storedBitset, values
      ensures Valid() && Contents() == old(Held())[id := value]
    {
      values[id] := Object(value);
      storedBitset := PutBit(storedBitset, id, true);
    }

    /** Pops the stack of free slots, doubling the storage first if it is empty. */
    method FreeValueIndex() returns (id: nat)
      requires Valid() && CanTakeSlot()
      modifies this
      ensures valuesCapacity <= INVALID_INDEX
      ensures (values == old(values) || fresh(values)) && values.Length == valuesCapacity
      ensures valuesCapacity == if old(freeList) != [] then old(valuesCapacity) else if old(valuesCapacity) == 0 then 1 else 2 * old(valuesCapacity)
      ensures id < valuesCapacity && id < INVALID_INDEX && id / 64 < |storedBitset| && !StorageBit(storedBitset, id)
      ensures forall i: nat :: StorageBit(storedBitset, i) == old(StorageBit(storedBitset, i))
      ensures forall i: nat :: StorageBit(storedBitset, i) ==> i < old(valuesCapacity) <= valuesCapacity && values[i] == old(values[i])
      ensures Partitioned(PutBit(storedBitset, id, true), freeList, valuesCapacity)
      ensures LiveAreObjects() && Held() == old(Contents())
    {
      if freeList == [] {
        Reserve(if valuesCapacity != 0 then 2 * valuesCapacity else 1);
      }
      PopPartitioned(storedBitset, freeList, valuesCapacity);
      id := freeList[|freeList| - 1];
      freeList := freeList[..|freeList| - 1];
    }

    method Erase(id: nat)
      requires Valid() && id in Contents()
      modifies this, values
      ensures Valid() && values == old(values) && valuesCapacity == old(valuesCapacity)
      ensures Contents() == old(Contents()) - {id}
    {
      PushPartitioned(storedBitset, freeList, valuesCapacity, id);
      values[id] := Dummy;
      freeList := freeList + [id];
      storedBitset := PutBit(storedBitset, id, false);
    }

    /** Moves the live values to larger storage; the new slots go on the stack in ascending order. */
    method Reserve(newCapacity: nat)
      requires Valid() && freeList == [] && valuesCapacity < newCapacity <= INVALID_INDEX
      modifies this
      ensures Valid() && fresh(values) && valuesCapacity == newCapacity
      ensures freeList == Iota(old(valuesCapacity), newCapacity)
      ensures forall i: nat :: StorageBit(storedBitset, i) == old(StorageBit(storedBitset, i))
      ensures forall i: nat :: StorageBit(storedBitset, i) ==> i < old(valuesCapacity) && values[i] == old(values[i])
    {
      var newValues := new Entry<T>[newCapacity](_ => Dummy);
      CopyLive(newValues);
      GrowPartitioned(storedBitset, freeList, valuesCapacity, newCapacity);
      storedBitset := storedBitset + seq((newCapacity + 63) / 64 - |storedBitset|, _ => ZERO);
      freeList := freeList + Iota(valuesCapacity, newCapacity);
      values := newValues;
      valuesCapacity := newCapacity;
    }

    /** The two nested loops of `Reserve`: words, and bits until the rest of the word is zero. */
    method CopyLive(newValues: array<Entry<T>>)
      requires Valid() && valuesCapacity <= newValues.Length && newValues != values
      modifies newValues
      ensures forall i: nat :: StorageBit(storedBitset, i) ==> i < valuesCapacity && newValues[i] == values[i]
    {
      var index := 0;
      var w := 0;
      while w < |storedBitset|
        invariant 0 <= w <= |storedBitset| && index == 64 * w
        invariant forall i: nat :: i < index && StorageBit(storedBitset, i) ==> i < valuesCapacity && newValues[i] == values[i]
      {
        var bits: seq<bool> := storedBitset[w];
        var bit := 0;
        while AnySet(bits)
          invariant 0 <= bit <= 64 && bits == storedBitset[w][bit..]
          invariant forall i: nat :: i < index + bit && StorageBit(storedBitset, i) ==> i < valuesCapacity && newValues[i] == values[i]
          decreases |bits|
        {
          if bits[0] {
            assert StorageBit(storedBitset, index + bit);
            newValues[index + bit] := values[index + bit];
          }
          bits := bits[1..];
          bit := bit + 1;
        }
        RestClear(storedBitset, w, bit);
        index := index + 64;
        w := w + 1;
      }
    }
  }
}
