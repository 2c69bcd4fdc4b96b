/** `KAllocation` and the growable array on top of it (src/kallocation.c,
    src/karray.c). The buffer is an array of pointer-sized slots. */
module Array {
  import opened References
  import opened Allocation

  const POINTER_SIZE: nat := 8

  class KAllocation {
    var size: nat
    var slots: array<Ref>

    ghost predicate Valid()
      reads this
    {
      slots.Length == size / POINTER_SIZE
    }

    constructor ()
      ensures Valid() && size == 0 && fresh(slots)
    {
      size := 0;
      slots := new Ref[0];
    }

    /** `realloc`: a new buffer takes over the common prefix, and the rest of it holds
        arbitrary values. A failure leaves everything as it was. */
    method Truncate(ledger: Ledger, newSize: nat) returns (ok: bool)
      requires Valid()
      modifies this, ledger`asked
      ensures Valid()
      ensures ok == ledger.grants(old(ledger.asked)) && ledger.asked == old(ledger.asked) + 1
      ensures !ok ==> size == old(size) && slots == old(slots)
      ensures ok ==> size == newSize && fresh(slots)
      ensures ok ==> forall i :: 0 <= i < old(slots.Length) && i < slots.Length ==> slots[i] == old(slots[i])
    {
      ok := ledger.Allocate();
      if ok {
        var buffer := new Ref[newSize / POINTER_SIZE];
        var kept := if slots.Length < buffer.Length then slots.Length else buffer.Length;
        var i := 0;
        while i < kept
          invariant 0 <= i <= kept
          invariant forall j :: 0 <= j < i ==> buffer[j] == slots[j]
          modifies buffer
        {
          buffer[i] := slots[i];
          i := i + 1;
        }
        slots, size := buffer, newSize;
      }
    }
  }

  lemma RemovedSlotIsOwned(items: seq<Ref>, index: nat, refs: multiset<Ref>)
    requires index < |items| && multiset(items) <= refs
    ensures items[index] in refs
    ensures multiset(items[..index] + items[index + 1..]) <= refs - multiset{items[index]}
  {
    assert items == items[..index] + [items[index]] + items[index + 1..];
    assert multiset(items) == multiset(items[..index] + items[index + 1..]) + multiset{items[index]};
  }

  lemma PrefixSlices(s: seq<Ref>, n: nat, i: nat)
    requires i < n <= |s|
    ensures s[..n][..i] == s[..i] && s[..n][i + 1..] == s[i + 1..n]
  {}

  /** The shifting loop of a removal. */
  method CloseGap(buffer: array<Ref>, index: nat, length: nat)
    requires index < length <= buffer.Length
    modifies buffer
    ensures buffer[..length - 1] == old(buffer[..index] + buffer[index + 1..length])
  {
    var i := index + 1;
    while i < length
      invariant index + 1 <= i <= length
      invariant buffer[..i - 1] == old(buffer[..index] + buffer[index + 1..i])
      invariant buffer[i..] == old(buffer[i..])
    {
      assert buffer[i] == buffer[i..][0] == old(buffer[i]);
      buffer[i - 1] := buffer[i];
      i := i + 1;
    }
  }

  /** The releasing loop of `KArrayRemoveAllObjects`. */
  method ReleaseAll(buffer: array<Ref>, length: nat, ledger: Ledger)
    requires length <= buffer.Length && multiset(buffer[..length]) <= ledger.refs
    modifies ledger`refs
    ensures ledger.refs == old(ledger.refs) - multiset(buffer[..length])
  {
    var i := 0;
    while i < length
      invariant 0 <= i <= length
      invariant ledger.refs == old(ledger.refs) - multiset(buffer[..length][..i])
    {
      ReleasedPrefix(buffer[..length], i, old(ledger.refs));
      ledger.Release(buffer[i]);
      i := i + 1;
    }
    assert buffer[..length][..i] == buffer[..length];
  }

  /** What becomes of an addition: `Overrun` when the buffer, although resized, does not
      reach to the slot that is written. */
  datatype Addition = Added | Refused | Overrun

  class KArray {
    var length: nat
    const items: KAllocation
    const ledger: Ledger

    ghost predicate Valid()
      reads this, items, items.slots, ledger
    {
      && items.Valid()
      && POINTER_SIZE * length <= items.size
      && multiset(Contents()) <= ledger.refs
    }

    ghost function Contents(): seq<Ref>
      requires items.Valid() && POINTER_SIZE * length <= items.size
      reads this, items, items.slots
    {
      items.slots[..length]
    }

    constructor (ledger: Ledger)
      ensures Valid() && Contents() == [] && this.ledger == ledger
      ensures fresh(items) && fresh(items.slots)
    {
      length := 0;
      items := new KAllocation();
      this.ledger := ledger;
    }

    /** The size bounds hold after every successful addition, whether the buffer grew, kept
        its size or, after removals, shrank. The slot lies within the resized buffer if and
        only if the elements fit in 2^31 bytes; nothing is promised after an overrun. */
    method AddObject(item: Option<Ref>) returns (outcome: Addition)
      requires Valid()
      modifies this, items, ledger
      ensures items.slots == old(items.slots) || fresh(items.slots)
      ensures outcome.Refused? <==> item.None? || !ledger.grants(old(ledger.asked))
      ensures !outcome.Refused? ==> (outcome.Added? <==> 8 * (old(length) + 1) <= 0x8000_0000)
      ensures outcome.Added? ==> Valid() && Contents() == old(Contents()) + [item.value]
      ensures outcome.Added? ==> ledger.refs == old(ledger.refs) + multiset{item.value}
      ensures outcome.Added? ==> 8 * length <= items.size < 16 * length
      ensures outcome.Refused? ==> Valid() && Contents() == old(Contents()) && items.size == old(items.size)
      ensures outcome.Refused? ==> ledger.refs == old(ledger.refs)
    {
      if item.None? {
        return Refused;
      }
      var bytes := (length + 1) * POINTER_SIZE;
      TruncatedSizeFits(bytes, bytes % WORD);
      var resized := items.Truncate(ledger, NextPowerOfTwoSize(bytes % WORD));
      if !resized {
        return Refused;
      }
      if length >= items.slots.Length {
        return Overrun;
      }
      Store(item.value, old(Contents()));
      return Added;
    }

    /** The object goes into the slot behind the last one, once the buffer reaches to it. */
    method Store(item: Ref, ghost before: seq<Ref>)
      requires items.Valid() && POINTER_SIZE * (length + 1) <= items.size
      requires Contents() == before && multiset(before) <= ledger.refs
      modifies this`length, items.slots, ledger`refs
      ensures Valid() && Contents() == before + [item] && length == old(length) + 1
      ensures ledger.refs == old(ledger.refs) + multiset{item}
    {
      RetainedToo(before, item, ledger.refs);
      ledger.Retain(item);
      items.slots[length] := item;
      length := length + 1;
    }

    method RemoveObjectAtIndex(index: nat) returns (ok: bool)
      requires Valid()
      modifies this, items.slots, ledger`refs
      ensures Valid() && items.size == old(items.size)
      ensures ok <==> index < old(length)
      ensures ok ==> Contents() == old(Contents()[..index] + Contents()[index + 1..])
      ensures ok ==> ledger.refs == old(ledger.refs) - multiset{old(Contents()[index])}
      ensures !ok ==> Contents() == old(Contents()) && ledger.refs == old(ledger.refs)
    {
      if index >= length {
        return false;
      }
      TakeOut(index);
      return true;
    }

    method TakeOut(index: nat)
      requires Valid() && index < length
      modifies this`length, items.slots, ledger`refs
      ensures Valid()
      ensures Contents() == old(Contents()[..index] + Contents()[index + 1..])
      ensures ledger.refs == old(ledger.refs) - multiset{old(Contents()[index])}
    {
      RemovedSlotIsOwned(Contents(), index, ledger.refs);
      ledger.Release(items.slots[index]);
      Shorten(index);
    }

    method Shorten(index: nat)
      requires items.Valid() && POINTER_SIZE * length <= items.size && index < length
      modifies this`length, items.slots
      ensures length == old(length) - 1
      ensures Contents() == old(Contents()[..index] + Contents()[index + 1..])
    {
      PrefixSlices(items.slots[..], length, index);
      CloseGap(items.slots, index, length);
      length := length - 1;
    }

    method GetObjectAtIndex(index: nat) returns (item: Option<Ref>)
      requires Valid()
      ensures item == if index < length then Some(Contents()[index]) else None
    {
      if index >= length {
        return None;
      }
      return Some(items.slots[index]);
    }

    method RemoveAllObjects() returns (removed: nat)
      requires Valid()
      modifies this, ledger`refs
      ensures Valid() && Contents() == [] && items.size == old(items.size)
      ensures removed == old(length)
      ensures ledger.refs == old(ledger.refs - multiset(Contents()))
    {
      ReleaseAll(items.slots, length, ledger);
      removed := length;
      length := 0;
    }
  }
}
