/** The doubly linked `KList` as nodes on the heap (src/klist.c). */
module LinkedList {
  import opened References

  class KListEntry {
    var prev: KListEntry?
    var next: KListEntry?
    const item: Ref

    constructor (item: Ref)
      ensures this.item == item && prev == null && next == null
    {
      this.item := item;
      prev, next := null, null;
    }
  }

  /** The node at index `i` of the chain, NULL at both ends. */
  ghost function At(chain: seq<KListEntry>, i: int): KListEntry? {
    if 0 <= i < |chain| then chain[i] else null
  }

  ghost predicate Distinct(chain: seq<KListEntry>) {
    forall i, j :: 0 <= i < j < |chain| ==> chain[i] != chain[j]
  }

  ghost predicate NextLinks(chain: seq<KListEntry>)
    reads chain
  {
    forall i :: 0 <= i < |chain| ==> chain[i].next == At(chain, i + 1)
  }

  ghost predicate PrevLinks(chain: seq<KListEntry>)
    reads chain
  {
    forall i :: 0 <= i < |chain| ==> chain[i].prev == At(chain, i - 1)
  }

  /** `prev` and `next` are inverse to each other along the chain, the chain ends in NULL
      on both sides and passes through no node twice. */
  ghost predicate Linked(chain: seq<KListEntry>)
    reads chain
  {
    Distinct(chain) && NextLinks(chain) && PrevLinks(chain)
  }

  /** The chain around an entry that was just unlinked. */
  ghost predicate Bridged(chain: seq<KListEntry>, i: nat)
    requires i < |chain|
    reads chain
  {
    && (forall j :: 0 <= j < |chain| && j != i && j != i - 1 ==> chain[j].next == At(chain, j + 1))
    && (forall j :: 0 <= j < |chain| && j != i && j != i + 1 ==> chain[j].prev == At(chain, j - 1))
    && (i > 0 ==> chain[i - 1].next == At(chain, i + 1))
    && (i + 1 < |chain| ==> chain[i + 1].prev == At(chain, i - 1))
  }

  lemma NextLinksWithout(chain: seq<KListEntry>, i: nat)
    requires i < |chain| && Bridged(chain, i)
    ensures NextLinks(chain[..i] + chain[i + 1..])
  {}

  lemma PrevLinksWithout(chain: seq<KListEntry>, i: nat)
    requires i < |chain| && Bridged(chain, i)
    ensures PrevLinks(chain[..i] + chain[i + 1..])
  {}

  lemma LinkedWithout(chain: seq<KListEntry>, i: nat)
    requires i < |chain| && Distinct(chain) && Bridged(chain, i)
    ensures Linked(chain[..i] + chain[i + 1..])
  {
    NextLinksWithout(chain, i);
    PrevLinksWithout(chain, i);
  }

  lemma LinkedWith(chain: seq<KListEntry>, last: KListEntry)
    requires Distinct(chain) && last !in chain
    requires forall j :: 0 <= j < |chain| - 1 ==> chain[j].next == chain[j + 1]
    requires chain != [] ==> chain[|chain| - 1].next == last
    requires PrevLinks(chain) && last.prev == At(chain, |chain| - 1) && last.next == null
    ensures Linked(chain + [last])
  {}

  ghost function Items(chain: seq<KListEntry>): (items: seq<Ref>)
    ensures |items| == |chain|
  {
    seq(|chain|, i requires 0 <= i < |chain| => chain[i].item)
  }

  lemma ItemsWithout(chain: seq<KListEntry>, i: nat, refs: multiset<Ref>)
    requires i < |chain|
    ensures Items(chain[..i] + chain[i + 1..]) == Items(chain)[..i] + Items(chain)[i + 1..]
    ensures multiset(Items(chain)) <= refs ==> multiset(Items(chain[..i] + chain[i + 1..])) <= refs
  {
    var items, rest := Items(chain), Items(chain[..i] + chain[i + 1..]);
    assert rest == items[..i] + items[i + 1..];
    assert items == items[..i] + [items[i]] + items[i + 1..];
    assert multiset(items) == multiset(rest) + multiset{items[i]};
  }

  lemma ItemsWith(chain: seq<KListEntry>, last: KListEntry)
    ensures Items(chain + [last]) == Items(chain) + [last.item]
  {}

  class KList {
    var root: KListEntry?
    var count: nat
    ghost var chain: seq<KListEntry>
    const ledger: Ledger

    ghost predicate Valid()
      reads this, chain, ledger
    {
      Shape() && multiset(Contents()) <= ledger.refs
    }

    ghost predicate Shape()
      reads this, chain
    {
      root == At(chain, 0) && count == |chain| && Linked(chain)
    }

    ghost function Contents(): seq<Ref>
      reads this
    {
      Items(chain)
    }

    constructor (ledger: Ledger)
      ensures Valid() && chain == [] && this.ledger == ledger
    {
      root, count, chain := null, 0, [];
      this.ledger := ledger;
    }

    /** Fails for a NULL object and when no node can be allocated; only then is nothing
        retained. */
    method AddObject(obj: Option<Ref>) returns (ok: bool)
      requires Valid()
      modifies this, chain, ledger
      ensures Valid()
      ensures ok <==> obj.Some? && ledger.grants(old(ledger.asked))
      ensures ok ==> Contents() == old(Contents()) + [obj.value]
      ensures ok ==> ledger.refs == old(ledger.refs) + multiset{obj.value}
      ensures ok ==> |chain| == old(|chain|) + 1 && chain[..|chain| - 1] == old(chain) && fresh(chain[|chain| - 1])
      ensures !ok ==> chain == old(chain) && ledger.refs == old(ledger.refs)
    {
      if obj.None? {
        return false;
      }
      var haveNode := ledger.Allocate();
      if !haveNode {
        return false;
      }
      var newEntry := new KListEntry(obj.value);
      RetainedToo(Contents(), obj.value, ledger.refs);
      ledger.Retain(obj.value);
      ghost var before := chain;
      Append(newEntry);
      ItemsWith(before, newEntry);
      return true;
    }

    /** The walk to the last node and the linking of a new one behind it. */
    method Append(newEntry: KListEntry)
      requires Shape() && newEntry !in chain && newEntry.prev == newEntry.next == null
      modifies this, chain, newEntry
      ensures Shape() && chain == old(chain) + [newEntry]
    {
      if root == null {
        root := newEntry;
      } else {
        var entry := root;
        ghost var i := 0;
        while entry.next != null
          invariant 0 <= i < |chain| && entry == chain[i]
          decreases |chain| - i
        {
          entry := entry.next;
          i := i + 1;
        }
        entry.next := newEntry;
        newEntry.prev := entry;
      }
      LinkedWith(chain, newEntry);
      chain := chain + [newEntry];
      count := count + 1;
    }

    /** The reference of the removed item passes to the caller: the ledger does not change. */
    method RemoveObjectAtIndex(index: nat) returns (item: Option<Ref>)
      requires Valid()
      modifies this, chain
      ensures Valid()
      ensures index < old(|chain|) ==>
                && item == Some(old(Contents()[index]))
                && chain == old(chain[..index] + chain[index + 1..])
                && Contents() == old(Contents()[..index] + Contents()[index + 1..])
      ensures index >= old(|chain|) ==> item == None && chain == old(chain)
    {
      var i := 0;
      var entry := root;
      while entry != null
        invariant 0 <= i <= |chain| && entry == At(chain, i)
        invariant i <= index
        decreases |chain| - i
      {
        if i == index {
          item := Some(entry.item);
          ItemsWithout(chain, i, ledger.refs);
          Unlink(entry, i);
          return;
        }
        i := i + 1;
        entry := entry.next;
      }
      item := None;
    }

    /** The pointer surgery of a removal, at the head, in the middle and at the tail. */
    method Unlink(entry: KListEntry, i: nat)
      requires Shape() && i < |chain| && entry == chain[i]
      modifies this, chain
      ensures Shape() && chain == old(chain[..i] + chain[i + 1..])
    {
      ghost var rest := chain[..i] + chain[i + 1..];
      assert At(rest, 0) == if i == 0 then entry.next else root;
      Bridge(entry, i);
      if i == 0 {
        root := entry.next;
      }
      count := count - 1;
      chain := rest;
    }

    /** The neighbours of an entry are linked to each other. */
    method Bridge(entry: KListEntry, i: nat)
      requires Shape() && i < |chain| && entry == chain[i]
      modifies chain
      ensures Linked(chain[..i] + chain[i + 1..]) && entry.next == old(entry.next)
    {
      var prev, next := entry.prev, entry.next;
      if prev != null {
        prev.next := next;
      }
      if next != null {
        next.prev := prev;
      }
      LinkedWithout(chain, i);
    }

    method GetObjectAtIndex(index: nat) returns (item: Option<Ref>)
      requires Valid()
      ensures item == if index < |chain| then Some(Contents()[index]) else None
    {
      var i := 0;
      var entry := root;
      while entry != null
        invariant 0 <= i <= |chain| && entry == At(chain, i)
        invariant i <= index
        decreases |chain| - i
      {
        if i == index {
          return Some(entry.item);
        }
        i := i + 1;
        entry := entry.next;
      }
      return None;
    }

    method ContainsObject(obj: Option<Ref>) returns (found: bool)
      requires Valid()
      ensures found <==> obj.Some? && obj.value in Contents()
    {
      if obj.None? {
        return false;
      }
      var entry := root;
      ghost var i := 0;
      while entry != null
        invariant 0 <= i <= |chain| && entry == At(chain, i)
        invariant obj.value !in Contents()[..i]
        decreases |chain| - i
      {
        if entry.item == obj.value {
          assert Contents()[i] == obj.value;
          return true;
        }
        entry := entry.next;
        i := i + 1;
      }
      assert Contents()[..i] == Contents();
      return false;
    }

    /** Every item is released once. The walk counts exactly `count` nodes, so neither
        assertion of the source (in the removal and in the list's own deinit) can fire. */
    method RemoveAllObjects() returns (removed: nat)
      requires Valid()
      modifies this, ledger`refs
      ensures Valid() && chain == []
      ensures removed == old(count) == old(|chain|)
      ensures ledger.refs == old(ledger.refs) - multiset(old(Contents()))
    {
      removed := ReleaseNodes();
      root := null;
      assert removed == count;
      count, chain := 0, [];
    }

    method ReleaseNodes() returns (removed: nat)
      requires Valid()
      modifies ledger`refs
      ensures removed == |chain|
      ensures ledger.refs == old(ledger.refs) - multiset(Contents())
    {
      removed := 0;
      var entry := root;
      while entry != null
        invariant 0 <= removed <= |chain| && entry == At(chain, removed)
        invariant ledger.refs == old(ledger.refs) - multiset(Contents()[..removed])
        decreases |chain| - removed
      {
        ReleasedPrefix(Contents(), removed, old(ledger.refs));
        var current := entry;
        entry := entry.next;
        ledger.Release(current.item);
        removed := removed + 1;
      }
      assert Contents()[..removed] == Contents();
    }
  }
}
