/** The chained hash map `KMap` (src/kmap.c). Its buckets hold the entries as values: an
    entry is owned by the one list node that points to it. */
module Map {
  import opened References
  import opened Words
  import opened MapModel

  const INITIAL_BUCKETS: nat := 16
  const GROWTH_FACTOR: nat := 2

  /** Book-keeping of a whole run: the bucket count at the start, how often it doubled, the
      entries copied by all rehashes, the largest count, the number of successful sets and
      whether any allocation has failed. */
  datatype Growth = Growth(initial: nat, doublings: nat, copied: nat, peak: nat, sets: nat, failed: bool)
  {
    predicate Explains(bucketCount: nat, objectCount: nat) {
      && bucketCount == Doubled(initial, doublings)
      && objectCount <= peak <= sets
      && (!failed ==> copied + initial == bucketCount && (doublings == 0 || bucketCount <= 2 * peak))
    }

    /** After one more successful set. */
    function Counted(objectCount: nat): Growth {
      this.(sets := sets + 1, peak := Max(peak, objectCount))
    }

    /** After a rehash of `objectCount` entries into a map with a history of its own. */
    function Rehashed(objectCount: nat, within: Growth): Growth {
      this.(
        doublings := doublings + 1 + within.doublings,
        copied := copied + objectCount + within.copied,
        failed := failed || within.failed)
    }

    /** A later state of the same map in which no set happened. */
    predicate Precedes(later: Growth) {
      && later.initial == initial && later.sets == sets && later.peak == peak
      && doublings <= later.doublings && (failed ==> later.failed)
    }
  }

  /** The book-keeping of a rehash adds up: a full map without failures copies its entries
      once, into a map that has no reason to rehash in turn. */
  lemma RehashExplained(g: Growth, n: nat, count: nat, within: Growth, newSize: nat, newCount: nat)
    requires g.Explains(n, count) && n <= count && (!g.failed ==> count <= n)
    requires within.initial == 2 * n && within.Explains(newSize, newCount) && newCount == count
    requires !within.failed ==> newCount < newSize
    requires count <= n ==> newSize == 2 * n && within.copied == within.doublings == 0
    ensures newSize == Doubled(n, within.doublings + 1)
    ensures var after := g.Rehashed(count, within);
            after.Explains(newSize, count) && (!after.failed ==> count < newSize)
  {
    assert Doubled(n, 1) == 2 * Doubled(n, 0) == 2 * n;
    DoubledTwice(n, 1, within.doublings);
    DoubledTwice(g.initial, g.doublings, within.doublings + 1);
  }

  // ----- references of entries

  /** The references of an entry whose value is replaced: the old value is released
      first. */
  method ExchangeValue(ledger: Ledger, ghost t: Table, ghost x: nat, entry: Entry, value: Ref)
    requires x < |t| && entry == t[x] && Covers(ledger.refs, t)
    modifies ledger`refs
    ensures Balanced(old(ledger.refs), t, ledger.refs, t[x := t[x].(value := value)])
    ensures Covers(ledger.refs, t[x := t[x].(value := value)])
  {
    ghost var after := t[x := t[x].(value := value)];
    HeldAfterUpdate(t, x, value, entry.value);
    ledger.Release(entry.value);
    ledger.Retain(value);
    forall r: Ref
      ensures ledger.refs[r] + Held(t, r) == old(ledger.refs)[r] + Held(after, r)
      ensures Held(after, r) <= ledger.refs[r]
    {
      HeldAfterUpdate(t, x, value, r);
      assert Held(t, r) <= old(ledger.refs)[r];
    }
  }

  /** A new entry and the list node for it. The entry retains its key and value; when no
      node can be had, it is released again and gives both back. */
  method LinkEntry(ledger: Ledger, ghost t: Table, entry: Entry) returns (ok: bool)
    requires Covers(ledger.refs, t)
    modifies ledger
    ensures ok <==> ledger.Granted(old(ledger.asked), old(ledger.asked) + 2)
    ensures ok <==> ledger.Granted(old(ledger.asked), ledger.asked)
    ensures old(ledger.asked) <= ledger.asked
    ensures ok ==> Balanced(old(ledger.refs), t, ledger.refs, t + [entry]) && Covers(ledger.refs, t + [entry])
    ensures !ok ==> ledger.refs == old(ledger.refs)
  {
    var haveEntry := ledger.Allocate();
    if !haveEntry {
      return false;
    }
    ok := LinkNode(ledger, t, entry);
  }

  method LinkNode(ledger: Ledger, ghost t: Table, entry: Entry) returns (ok: bool)
    requires Covers(ledger.refs, t)
    modifies ledger
    ensures ok == ledger.grants(old(ledger.asked)) && ledger.asked == old(ledger.asked) + 1
    ensures ok ==> Balanced(old(ledger.refs), t, ledger.refs, t + [entry]) && Covers(ledger.refs, t + [entry])
    ensures !ok ==> ledger.refs == old(ledger.refs)
  {
    ledger.Retain(entry.key);
    ledger.Retain(entry.value);
    ok := ledger.Allocate();
    if ok {
      Acquired(old(ledger.refs), t, entry);
    } else {
      GivenBack(old(ledger.refs), entry.key, entry.value);
      ledger.Release(entry.key);
      ledger.Release(entry.value);
    }
  }

  /** `KMapEntryDeInit` of an entry of `all`, when those of `t` were released before. */
  method ReleaseEntry(ledger: Ledger, e: Entry, ghost before: multiset<Ref>, ghost t: Table, ghost all: Table)
    requires t + [e] <= all && Covers(before, all) && Released(before, t, ledger.refs)
    modifies ledger`refs
    ensures Released(before, t + [e], ledger.refs)
  {
    forall r: Ref
      ensures HeldBy(e, r) <= ledger.refs[r] && ledger.refs[r] + Held(t, r) == before[r]
      ensures Held(t + [e], r) == Held(t, r) + HeldBy(e, r)
    {
      HeldAppend(t, e, r);
      HeldPrefix(t + [e], all, r);
      assert ledger.refs[r] + Held(t, r) == before[r] + Held([], r);
      assert Held(all, r) <= before[r];
    }
    ghost var now := ledger.refs;
    assert HeldBy(e, e.key) <= now[e.key] && HeldBy(e, e.value) <= now[e.value];
    ledger.Release(e.key);
    ledger.Release(e.value);
    forall r: Ref
      ensures ledger.refs[r] + Held(t + [e], r) == before[r] + Held([], r)
    {
      assert HeldBy(e, r) <= now[r];
    }
  }

  method ReleaseEntries(ledger: Ledger, bs: seq<Table>, i: nat, ghost before: multiset<Ref>)
    requires i < |bs| && Covers(before, Flat(bs))
    requires Released(before, Flat(bs[..i]), ledger.refs)
    modifies ledger`refs
    ensures Released(before, Flat(bs[..i]) + bs[i], ledger.refs)
  {
    var bucket := bs[i];
    ghost var done := Flat(bs[..i]);
    assert done + bucket[..0] == done;
    var j := 0;
    while j < |bucket|
      invariant 0 <= j <= |bucket|
      invariant Released(before, done + bucket[..j], ledger.refs)
    {
      FlatPrefix(bs, i, j);
      OneMore(done, bucket, j);
      ReleaseEntry(ledger, bucket[j], before, done + bucket[..j], Flat(bs));
      j := j + 1;
    }
    assert bucket[..j] == bucket;
  }

  /** The release cascade of a bucket array: every entry gives back its key and value. */
  method ReleaseBuckets(ledger: Ledger, bs: seq<Table>)
    requires Covers(ledger.refs, Flat(bs))
    modifies ledger`refs
    ensures Released(old(ledger.refs), Flat(bs), ledger.refs)
  {
    var i := 0;
    while i < |bs|
      invariant 0 <= i <= |bs|
      invariant Released(old(ledger.refs), Flat(bs[..i]), ledger.refs)
    {
      ReleaseEntries(ledger, bs, i, old(ledger.refs));
      assert bs[..i + 1][..i] == bs[..i];
      i := i + 1;
    }
    assert bs[..i] == bs;
  }

  class KMap {
    const keying: Keying
    const ledger: Ledger
    var buckets: seq<Table>
    var objectCount: nat
    ghost var table: Table
    ghost var history: seq<Event>
    ghost var growth: Growth

    /** The entries sit in their buckets in table order, and are counted. */
    ghost predicate Shape()
      reads this
    {
      && |buckets| > 0
      && buckets == Buckets(table, keying, |buckets|)
      && objectCount == |table|
    }

    ghost predicate Owned()
      reads this, ledger
    {
      Covers(ledger.refs, table)
    }

    /** The state between the update of the table and the rehash: the map may be full. */
    ghost predicate Loaded()
      reads this, ledger
    {
      && Shape() && Owned()
      && keying.Lawful() && NoEqualKeys(table, keying)
      && growth.Explains(|buckets|, objectCount)
      && (!growth.failed ==> objectCount <= |buckets|)
    }

    /** What every operation of the source keeps, including those that run on the new map
        within a rehash. */
    ghost predicate Core()
      reads this, ledger
    {
      Loaded() && (!growth.failed ==> objectCount < |buckets|)
    }

    /** In addition, the table and its book-keeping are what the successful operations so far
        amount to. */
    ghost predicate Valid()
      reads this, ledger
    {
      && Core() && table == Replay(history, keying)
      && growth.sets == Sets(history) && growth.peak == Peak(history, keying)
    }

    constructor Empty(keying: Keying, ledger: Ledger, bucketCount: nat)
      requires keying.Lawful() && bucketCount > 0
      ensures Valid() && history == [] && table == []
      ensures this.keying == keying && this.ledger == ledger && |buckets| == bucketCount
      ensures growth == Growth(bucketCount, 0, 0, 0, 0, false)
    {
      this.keying := keying;
      this.ledger := ledger;
      buckets := seq(bucketCount, i => []);
      objectCount, table, history := 0, [], [];
      growth := Growth(bucketCount, 0, 0, 0, 0, false);
    }

    /** `KMapAllocWithBucketCount`: the map, its array and every bucket are allocated. */
    static method AllocWithBucketCount(keying: Keying, ledger: Ledger, bucketCount: nat) returns (newMap: KMap?)
      requires keying.Lawful()
      modifies ledger`asked
      ensures newMap != null <==>
                bucketCount > 0 && ledger.Granted(old(ledger.asked), old(ledger.asked) + 2 + 2 * bucketCount)
      ensures bucketCount > 0 ==> (newMap != null <==> ledger.Granted(old(ledger.asked), ledger.asked))
      ensures old(ledger.asked) <= ledger.asked
      ensures newMap != null ==>
                && fresh(newMap) && newMap.Valid() && newMap.history == [] && newMap.table == []
                && newMap.keying == keying && newMap.ledger == ledger && |newMap.buckets| == bucketCount
                && newMap.growth == Growth(bucketCount, 0, 0, 0, 0, false)
    {
      if bucketCount == 0 {
        return null;
      }
      var haveMap := ledger.Allocate();
      if !haveMap {
        return null;
      }
      var haveArray := ledger.Allocate();
      if !haveArray {
        return null;
      }
      var i := 0;
      while i < bucketCount
        invariant 0 <= i <= bucketCount
        invariant ledger.asked == old(ledger.asked) + 2 + 2 * i
        invariant ledger.Granted(old(ledger.asked), ledger.asked)
      {
        var haveBucket := ledger.Allocate();
        if !haveBucket {
          return null;
        }
        var added := ledger.Allocate();
        if !added {
          return null;
        }
        i := i + 1;
      }
      newMap := new KMap.Empty(keying, ledger, bucketCount);
    }

    /** `KMapNew` */
    static method New(keying: Keying, ledger: Ledger) returns (newMap: KMap?)
      requires keying.Lawful()
      modifies ledger`asked
      ensures newMap != null <==> ledger.Granted(old(ledger.asked), old(ledger.asked) + 34)
      ensures newMap != null <==> ledger.Granted(old(ledger.asked), ledger.asked)
      ensures old(ledger.asked) <= ledger.asked
      ensures newMap != null ==>
                && fresh(newMap) && newMap.Valid() && newMap.history == []
                && newMap.keying == keying && newMap.ledger == ledger && |newMap.buckets| == 16
                && newMap.growth == Growth(16, 0, 0, 0, 0, false)
    {
      newMap := AllocWithBucketCount(keying, ledger, INITIAL_BUCKETS);
    }

    function BucketOf(key: Option<Ref>): (j: Option<nat>)
      reads this
      requires |buckets| > 0
    {
      if key.None? then None else Some(keying.hash(key.value) % |buckets|)
    }

    /** The scan of one bucket that set, get and remove begin with: the first entry with an
        equal key is the entry that the table has for the key. */
    method Scan(key: Ref, j: nat) returns (i: nat)
      requires Shape() && keying.Lawful() && j == keying.hash(key) % |buckets|
      ensures i <= |buckets[j]|
      ensures var x := IndexOf(table, keying, key);
              if x == |table| then i == |buckets[j]|
              else i < |buckets[j]| && i == |Bucket(table[..x], keying, |buckets|, j)| && buckets[j][i] == table[x]
    {
      FirstMatch(table, keying, |buckets|, key);
      var bucket := buckets[j];
      assert bucket == Bucket(table, keying, |buckets|, j);
      i := 0;
      var count := |bucket|;
      while i < count
        invariant 0 <= i <= count
        invariant forall q :: 0 <= q < i ==> !keying.equal(key, bucket[q].key)
      {
        if keying.equal(key, bucket[i].key) {
          return;
        }
        i := i + 1;
      }
    }

    // ----- setting a value

    /** A key that is bound can be set again; any other needs memory for an entry and for a
        node. */
    ghost predicate CanBind(key: Ref)
      reads this, ledger
    {
      Lookup(table, keying, key).Some? || ledger.Granted(ledger.asked, ledger.asked + 2)
    }

    /** `KMapSetValueNoRehash` */
    method SetValueNoRehash(key: Option<Ref>, value: Option<Ref>) returns (ok: bool)
      requires Shape() && Owned() && keying.Lawful()
      modifies this`buckets, this`objectCount, this`table, this`growth, ledger
      ensures Shape() && Owned() && |buckets| == old(|buckets|)
      ensures ok <==> key.Some? && value.Some? && old(CanBind(key.value))
      ensures ok || key.None? || value.None? <==> ledger.Granted(old(ledger.asked), ledger.asked)
      ensures old(ledger.asked) <= ledger.asked
      ensures ok ==> table == Put(old(table), keying, key.value, value.value) && growth == old(growth)
      ensures Balanced(old(ledger.refs), old(table), ledger.refs, table)
      ensures !ok ==> table == old(table) && buckets == old(buckets) && ledger.refs == old(ledger.refs)
      ensures !ok ==> growth == if key.Some? && value.Some? then old(growth).(failed := true) else old(growth)
    {
      if value.None? {
        return false;
      }
      var bucket := BucketOf(key);
      if bucket.None? {
        return false;
      }
      var j := bucket.value;
      var i := Scan(key.value, j);
      if i < |buckets[j]| {
        if value.value != buckets[j][i].value {
          ReplaceValue(j, i, value.value, IndexOf(table, keying, key.value));
        } else {
          assert Put(table, keying, key.value, value.value) == table;
        }
        return true;
      }
      ok := AddEntry(key.value, j, value.value);
    }

    /** The value of entry `x` of the table, slot `i` of bucket `j`, is replaced in place. */
    method ReplaceValue(j: nat, i: nat, value: Ref, ghost x: nat)
      requires Shape() && Owned() && x < |table| && j == keying.hash(table[x].key) % |buckets|
      requires i == |Bucket(table[..x], keying, |buckets|, j)|
      requires i < |buckets[j]| && buckets[j][i] == table[x]
      modifies this`buckets, this`table, ledger`refs
      ensures Shape() && Owned() && |buckets| == old(|buckets|)
      ensures table == old(table)[x := old(table)[x].(value := value)]
      ensures Balanced(old(ledger.refs), old(table), ledger.refs, table)
    {
      BucketUpdate(table, keying, |buckets|, x, value);
      var entry := buckets[j][i];
      ExchangeValue(ledger, table, x, entry, value);
      buckets := buckets[j := buckets[j][i := entry.(value := value)]];
      table := table[x := table[x].(value := value)];
    }

    method AddEntry(key: Ref, j: nat, value: Ref) returns (ok: bool)
      requires Shape() && Owned() && j == keying.hash(key) % |buckets|
      modifies this`buckets, this`objectCount, this`table, this`growth, ledger
      ensures Shape() && Owned() && |buckets| == old(|buckets|)
      ensures ok <==> ledger.Granted(old(ledger.asked), old(ledger.asked) + 2)
      ensures ok <==> ledger.Granted(old(ledger.asked), ledger.asked)
      ensures old(ledger.asked) <= ledger.asked
      ensures ok ==> table == old(table) + [Entry(key, value)] && growth == old(growth)
      ensures Balanced(old(ledger.refs), old(table), ledger.refs, table)
      ensures !ok ==> table == old(table) && buckets == old(buckets) && ledger.refs == old(ledger.refs)
      ensures !ok ==> growth == old(growth).(failed := true)
    {
      var entry := Entry(key, value);
      ok := LinkEntry(ledger, table, entry);
      if !ok {
        growth := growth.(failed := true);
        return;
      }
      BucketAppend(table, keying, |buckets|, entry);
      buckets := buckets[j := buckets[j] + [entry]];
      objectCount := objectCount + 1;
      table := table + [entry];
    }

    /** `KMapSetValue` but for the history. */
    method Insert(key: Option<Ref>, value: Option<Ref>) returns (ok: bool)
      requires Core()
      modifies this`buckets, this`objectCount, this`table, this`growth, ledger
      ensures Core()
      ensures ok <==> key.Some? && value.Some? && old(CanBind(key.value))
      ensures growth.failed <==> old(growth.failed) || !ledger.Granted(old(ledger.asked), ledger.asked)
      ensures old(ledger.asked) <= ledger.asked
      ensures key.Some? && value.Some? && ledger.Granted(old(ledger.asked), ledger.asked) ==>
                ok && objectCount < |buckets|
      ensures ok ==> table == Put(old(table), keying, key.value, value.value)
      ensures Balanced(old(ledger.refs), old(table), ledger.refs, table)
      ensures !ok ==> table == old(table) && buckets == old(buckets) && ledger.refs == old(ledger.refs)
      ensures !ok ==> growth == if key.Some? && value.Some? then old(growth).(failed := true) else old(growth)
      ensures ok ==> old(growth).Counted(objectCount).Precedes(growth)
      ensures ok && old(objectCount) + 1 < old(|buckets|) ==>
                |buckets| == old(|buckets|) && growth == old(growth).Counted(objectCount)
      decreases if objectCount + 1 >= |buckets| then objectCount + 2 - |buckets| else 0, 5
    {
      ok := SetValueNoRehash(key, value);
      if ok {
        PutKeeps(old(table), keying, key.value, value.value);
        growth := growth.Counted(objectCount);
        var rehashed := RehashIfNecessary();
      }
    }

    // ----- rehashing

    method DeInit()
      requires Covers(ledger.refs, Flat(buckets))
      modifies ledger`refs
      ensures Released(old(ledger.refs), Flat(buckets), ledger.refs)
    {
      ReleaseBuckets(ledger, buckets);
    }

    /** What holds while the entries are copied, `before` being the references held and
        `start` the requests made when the new map was still empty. As long as this map holds
        no more entries than buckets, the new one has no reason to rehash in turn. */
    ghost predicate Copying(newMap: KMap, before: multiset<Ref>, start: nat)
      reads this, newMap, newMap.ledger
    {
      && start <= newMap.ledger.asked
      && (newMap.growth.failed <==> !newMap.ledger.Granted(start, newMap.ledger.asked))
      && Shape() && NoEqualKeys(table, keying) && |buckets| <= objectCount
      && newMap != this && newMap.keying == keying && newMap.ledger == ledger && newMap.Core()
      && newMap.growth.initial == 2 * |buckets|
      && (objectCount <= |buckets| ==>
            |newMap.buckets| == 2 * |buckets| && newMap.growth.copied == newMap.growth.doublings == 0)
      && Balanced(before, [], newMap.ledger.refs, newMap.table)
    }

    method CopyEntry(newMap: KMap, i: nat, j: nat, ghost before: multiset<Ref>, ghost start: nat) returns (ok: bool)
      requires Copying(newMap, before, start) && i < |buckets| && j < |buckets[i]|
      requires newMap.table == Flat(buckets[..i]) + buckets[i][..j]
      modifies newMap, ledger
      ensures Copying(newMap, before, start)
      ensures ok ==> newMap.table == Flat(buckets[..i]) + buckets[i][..j + 1]
      ensures !ok ==> newMap.growth.failed
      ensures ok && objectCount <= |buckets| ==> newMap.growth.failed == old(newMap.growth.failed)
      decreases objectCount + 1 - |buckets|, 0
    {
      var entry := buckets[i][j];
      NextKeyIsNew(table, keying, |buckets|, i, j);
      DoubledIsProduct(newMap.growth.initial, newMap.growth.doublings);
      OneMore(Flat(buckets[..i]), buckets[i], j);
      ghost var held, t := ledger.refs, newMap.table;
      ok := newMap.Insert(Some(entry.key), Some(entry.value));
      BalancedChain(before, [], held, t, ledger.refs, newMap.table);
    }

    method CopyBucket(newMap: KMap, i: nat, ghost before: multiset<Ref>, ghost start: nat) returns (ok: bool)
      requires Copying(newMap, before, start) && i < |buckets| && newMap.table == Flat(buckets[..i])
      modifies newMap, ledger
      ensures Copying(newMap, before, start)
      ensures ok ==> newMap.table == Flat(buckets[..i]) + buckets[i]
      ensures !ok ==> newMap.growth.failed
      ensures ok && objectCount <= |buckets| ==> newMap.growth.failed == old(newMap.growth.failed)
      decreases objectCount + 1 - |buckets|, 1
    {
      assert newMap.table + buckets[i][..0] == newMap.table;
      var j, entryCount := 0, |buckets[i]|;
      while j < entryCount
        invariant 0 <= j <= entryCount
        invariant Copying(newMap, before, start)
        invariant newMap.table == Flat(buckets[..i]) + buckets[i][..j]
        invariant objectCount <= |buckets| ==> newMap.growth.failed == old(newMap.growth.failed)
        modifies newMap, ledger
      {
        ok := CopyEntry(newMap, i, j, before, start);
        if !ok {
          return;
        }
        j := j + 1;
      }
      assert buckets[i][..j] == buckets[i];
      ok := true;
    }

    method CopyEntries(newMap: KMap, ghost before: multiset<Ref>, ghost start: nat) returns (ok: bool)
      requires Copying(newMap, before, start) && newMap.table == []
      modifies newMap, ledger
      ensures Copying(newMap, before, start)
      ensures ok ==> newMap.table == Flat(buckets)
      ensures !ok ==> newMap.growth.failed
      ensures ok && objectCount <= |buckets| ==> newMap.growth.failed == old(newMap.growth.failed)
      decreases objectCount + 1 - |buckets|, 2
    {
      var i, bucketCount := 0, |buckets|;
      while i < bucketCount
        invariant 0 <= i <= bucketCount
        invariant Copying(newMap, before, start)
        invariant newMap.table == Flat(buckets[..i])
        invariant objectCount <= |buckets| ==> newMap.growth.failed == old(newMap.growth.failed)
        modifies newMap, ledger
      {
        ok := CopyBucket(newMap, i, before, start);
        if !ok {
          return;
        }
        assert buckets[..i + 1][..i] == buckets[..i];
        i := i + 1;
      }
      assert buckets[..i] == buckets;
      ok := true;
    }

    /** The new map is released with whatever it has taken over. */
    method GiveUp(newMap: KMap, ghost before: multiset<Ref>)
      requires newMap.Shape() && newMap.Owned() && newMap.ledger == ledger
      requires Balanced(before, [], ledger.refs, newMap.table)
      modifies ledger`refs
      ensures ledger.refs == before
    {
      ghost var held := ledger.refs;
      FlatConserves(newMap.table, newMap.keying, |newMap.buckets|);
      newMap.DeInit();
      ReleaseUndoes(before, held, newMap.table, newMap.keying, |newMap.buckets|, ledger.refs);
    }

    /** The filled buckets change places with the old ones, which the new map then releases.
        The count stays as it is. */
    method SwapBuckets(newMap: KMap, ghost before: multiset<Ref>, ghost doublings: nat)
      requires Shape() && newMap != this && newMap.keying == keying && newMap.ledger == ledger
      requires newMap.Shape() && newMap.Owned() && newMap.table == Flat(buckets)
      requires |newMap.buckets| == Doubled(|buckets|, doublings)
      requires Balanced(before, [], ledger.refs, newMap.table)
      modifies this`buckets, newMap, ledger`refs
      ensures Shape() && |buckets| == old(|newMap.buckets|)
      ensures ledger.refs == before
    {
      ghost var held, n := ledger.refs, |buckets|;
      FlatConserves(table, keying, n);
      DoubledIsProduct(n, doublings);
      RehashKeepsTable(table, keying, n, Pow2(doublings));
      newMap.buckets, buckets := buckets, newMap.buckets;
      newMap.DeInit();
      SameHeld(before, held, newMap.table, table);
      ReleaseUndoes(before, held, table, keying, n, ledger.refs);
    }

    /** The last part of a rehash. */
    method Adopt(newMap: KMap, ghost before: multiset<Ref>, ghost start: nat)
      requires Loaded() && Copying(newMap, before, start) && newMap.table == Flat(buckets) && Covers(before, table)
      modifies this`buckets, this`growth, newMap, ledger`refs
      ensures Core() && ledger.refs == before
      ensures growth == old(growth).Rehashed(objectCount, old(newMap.growth))
      ensures |buckets| == old(|newMap.buckets|)
      ensures !old(newMap.growth.failed) ==> objectCount < |buckets|
    {
      FlatConserves(table, keying, |buckets|);
      assert objectCount == newMap.objectCount;
      RehashExplained(growth, |buckets|, objectCount, newMap.growth, |newMap.buckets|, newMap.objectCount);
      growth := growth.Rehashed(objectCount, newMap.growth);
      SwapBuckets(newMap, before, newMap.growth.doublings + 1);
    }

    /** The rehash of a map whose load has reached the limit. */
    method Grow() returns (ok: bool)
      requires Loaded() && objectCount >= |buckets|
      modifies this`buckets, this`growth, ledger
      ensures Core() && ledger.refs == old(ledger.refs)
      ensures old(growth).Precedes(growth)
      ensures growth.failed <==> old(growth.failed) || !ledger.Granted(old(ledger.asked), ledger.asked)
      ensures old(ledger.asked) <= ledger.asked
      ensures ledger.Granted(old(ledger.asked), ledger.asked) ==> ok && objectCount < |buckets|
      ensures ok && objectCount == old(|buckets|) ==> ledger.Granted(old(ledger.asked), ledger.asked)
      ensures !ok ==> buckets == old(buckets)
      ensures ok ==> growth.doublings > old(growth.doublings)
      ensures ok && objectCount == old(|buckets|) ==> |buckets| == 2 * old(|buckets|)
      decreases objectCount + 1 - |buckets|, 3
    {
      var newMap := AllocWithBucketCount(keying, ledger, |buckets| * GROWTH_FACTOR);
      if newMap == null {
        growth := growth.(failed := true);
        return false;
      }
      ghost var start := ledger.asked;
      ok := CopyEntries(newMap, old(ledger.refs), start);
      if ok {
        Adopt(newMap, old(ledger.refs), start);
      } else {
        GiveUp(newMap, old(ledger.refs));
        growth := growth.(failed := true);
      }
    }

    /** `KMapRehashIfNecessary`. Whatever fails on the way, the table, the count and the
        references stay; a failed attempt leaves the buckets too, and a successful one splits
        every bucket in order, even when rehashes nest. */
    method RehashIfNecessary() returns (ok: bool)
      requires Loaded()
      modifies this`buckets, this`growth, ledger
      ensures Core() && ledger.refs == old(ledger.refs)
      ensures old(growth).Precedes(growth)
      ensures growth.failed <==> old(growth.failed) || !ledger.Granted(old(ledger.asked), ledger.asked)
      ensures old(ledger.asked) <= ledger.asked
      ensures ledger.Granted(old(ledger.asked), ledger.asked) ==> ok && objectCount < |buckets|
      ensures ok && objectCount == old(|buckets|) ==> ledger.Granted(old(ledger.asked), ledger.asked)
      ensures !ok ==> buckets == old(buckets)
      ensures objectCount < old(|buckets|) ==> ok && buckets == old(buckets) && growth == old(growth)
      ensures ok && objectCount >= old(|buckets|) ==> growth.doublings > old(growth.doublings)
      ensures ok && objectCount == old(|buckets|) ==> |buckets| == 2 * old(|buckets|)
      ensures SplitsInOrder(old(buckets), buckets, keying)
      decreases if objectCount >= |buckets| then objectCount + 1 - |buckets| else 0, 4
    {
      ghost var n, d := |buckets|, growth.doublings;
      if objectCount < |buckets| {
        ok := true;
      } else {
        ok := Grow();
      }
      GrownInOrder(n, d);
    }

    lemma GrownInOrder(n: nat, doublings: nat)
      requires Core() && doublings <= growth.doublings && n > 0 && n == Doubled(growth.initial, doublings)
      ensures SplitsInOrder(Buckets(table, keying, n), buckets, keying)
    {
      var more := growth.doublings - doublings;
      DoubledTwice(growth.initial, doublings, more);
      DoubledIsProduct(n, more);
      RehashSplitsInOrder(table, keying, n, Pow2(more));
    }

    // ----- the operations of a client

    /** All or nothing: a false result leaves the contents, the buckets and the references as
        they were, a true one means that the key is bound, whether or not the rehash
        succeeded. */
    method SetValue(key: Option<Ref>, value: Option<Ref>) returns (ok: bool)
      requires Valid()
      modifies this, ledger
      ensures Valid()
      ensures ok <==> key.Some? && value.Some?
                      && (LastBinding(old(history), keying, key.value).Some?
                          || ledger.Granted(old(ledger.asked), old(ledger.asked) + 2))
      ensures growth.failed <==> old(growth.failed) || !ledger.Granted(old(ledger.asked), ledger.asked)
      ensures old(ledger.asked) <= ledger.asked
      ensures key.Some? && value.Some? && ledger.Granted(old(ledger.asked), ledger.asked) ==>
                ok && objectCount < |buckets|
      ensures ok ==> history == old(history) + [Set(key.value, value.value)]
      ensures ok ==> IsSet(old(table), keying, key.value, value.value, table)
      ensures !ok ==> history == old(history) && table == old(table) && buckets == old(buckets)
      ensures !ok ==> ledger.refs == old(ledger.refs)
      ensures !ok ==> growth == if key.Some? && value.Some? then old(growth).(failed := true) else old(growth)
      ensures Balanced(old(ledger.refs), old(table), ledger.refs, table)
      ensures ok ==> old(growth).Counted(objectCount).Precedes(growth)
    {
      if key.Some? {
        ReplayMeansLastBinding(history, keying, key.value);
      }
      ok := Insert(key, value);
      if ok {
        PutIsSet(old(table), keying, key.value, value.value);
        ReplayMore(history, Set(key.value, value.value), keying);
        history := history + [Set(key.value, value.value)];
      }
    }

    method GetValue(key: Option<Ref>) returns (value: Option<Ref>)
      requires Valid()
      ensures value.Some? <==> key.Some? && LastBinding(history, keying, key.value).Some?
      ensures value.Some? ==> value.value == LastBinding(history, keying, key.value).value.value
      ensures key.Some? ==> IsFound(table, keying, key.value, value)
    {
      var bucket := BucketOf(key);
      if bucket.None? {
        return None;
      }
      ReplayMeansLastBinding(history, keying, key.value);
      LookupIsFound(table, keying, key.value);
      var i := Scan(key.value, bucket.value);
      if i < |buckets[bucket.value]| {
        return Some(buckets[bucket.value][i].value);
      }
      return None;
    }

    /** The entry leaves the map with the references it holds: the reference that the list
        hands over is not released. */
    method RemoveValue(key: Option<Ref>) returns (ok: bool)
      requires Valid()
      modifies this
      ensures Valid()
      ensures ok <==> key.Some? && LastBinding(old(history), keying, key.value).Some?
      ensures ok ==> history == old(history) + [Remove(key.value)]
      ensures ok ==> IsRemoved(old(table), keying, key.value, table)
      ensures ok ==> objectCount == old(objectCount) - 1
      ensures !ok ==> history == old(history) && table == old(table)
      ensures |buckets| == old(|buckets|) && growth == old(growth)
      ensures ok ==> Lookup(old(table), keying, key.value).Some?
                     && forall r: Ref ::
                          Held(old(table), r) == Held(table, r) + HeldBy(Lookup(old(table), keying, key.value).value, r)
    {
      if key.Some? {
        ReplayMeansLastBinding(history, keying, key.value);
      }
      ok := Delete(key);
      if ok {
        HeldAfterRemoval(old(table), keying, key.value);
        WithoutIsRemoved(old(table), keying, key.value);
        ReplayMore(history, Remove(key.value), keying);
        history := history + [Remove(key.value)];
      }
    }

    /** `KMapRemoveValue` but for the history. */
    method Delete(key: Option<Ref>) returns (ok: bool)
      requires Core()
      modifies this`buckets, this`objectCount, this`table
      ensures Core() && |buckets| == old(|buckets|)
      ensures ok <==> key.Some? && Lookup(old(table), keying, key.value).Some?
      ensures ok ==> table == Without(old(table), keying, key.value)
      ensures !ok ==> table == old(table) && buckets == old(buckets)
    {
      var bucket := BucketOf(key);
      if bucket.None? {
        return false;
      }
      var j := bucket.value;
      var i := Scan(key.value, j);
      if i == |buckets[j]| {
        return false;
      }
      WithoutKeeps(table, keying, key.value);
      UnlinkEntry(j, i, IndexOf(table, keying, key.value));
      return true;
    }

    /** Entry `x` of the table, slot `i` of bucket `j`, is taken out of its list. */
    method UnlinkEntry(j: nat, i: nat, ghost x: nat)
      requires Shape() && Owned() && x < |table| && j == keying.hash(table[x].key) % |buckets|
      requires i == |Bucket(table[..x], keying, |buckets|, j)| && i < |buckets[j]|
      modifies this`buckets, this`objectCount, this`table
      ensures Shape() && Owned() && |buckets| == old(|buckets|)
      ensures table == old(table[..x] + table[x + 1..])
    {
      BucketRemove(table, keying, |buckets|, x);
      forall r: Ref
        ensures Held(table[..x] + table[x + 1..], r) <= ledger.refs[r]
      {
        HeldAfterRemove(table, x, r);
        assert Held(table, r) <= ledger.refs[r];
      }
      buckets := buckets[j := buckets[j][..i] + buckets[j][i + 1..]];
      objectCount := objectCount - 1;
      table := table[..x] + table[x + 1..];
    }

    /** The count is the cardinality of the finite map and the sum of the bucket lengths. */
    method GetCount() returns (count: nat)
      requires Valid()
      ensures count == |AsMap(Replay(history, keying))| == |Flat(buckets)|
    {
      CardinalityIsLength(table, keying);
      FlatConserves(table, keying, |buckets|);
      count := objectCount;
    }

    method GetMaxBucketUtilization() returns (most: nat)
      requires |buckets| > 0
      ensures forall i :: 0 <= i < |buckets| ==> |buckets[i]| <= most
      ensures exists i :: 0 <= i < |buckets| && |buckets[i]| == most
    {
      most := 0;
      var i := 0;
      while i < |buckets|
        invariant 0 <= i <= |buckets|
        invariant forall j :: 0 <= j < i ==> |buckets[j]| <= most
        invariant most == 0 || exists j :: 0 <= j < i && |buckets[j]| == most
      {
        if |buckets[i]| > most {
          most := |buckets[i]|;
        }
        i := i + 1;
      }
      assert |buckets[0]| <= most;
    }
  }

  /** The whole life of a map in the hands of one client: `KMapNew`, any sets and removes, and
      the release of the map, under any failures of allocation. `done` are the events that
      succeeded: without failures, all sets and the removes of keys that were bound. What stays
      behind are the references of the entries that were removed, one on the key and one on
      the value of each, and no others. */
  method Life(keying: Keying, ledger: Ledger, script: seq<Event>) returns (done: seq<Event>)
    requires keying.Lawful()
    modifies ledger
    ensures Outstanding(old(ledger.refs), [], Removed(done, keying), ledger.refs)
    ensures ledger.Granted(old(ledger.asked), ledger.asked) ==> done == Performed(script, keying)
  {
    done := [];
    var m := KMap.New(keying, ledger);
    if m == null {
      return;
    }
    var i := 0;
    while i < |script|
      invariant 0 <= i <= |script|
      invariant fresh(m) && m.Valid() && m.keying == keying && m.ledger == ledger && m.history == done
      invariant Outstanding(old(ledger.refs), m.table, Removed(done, keying), ledger.refs)
      invariant old(ledger.asked) <= ledger.asked
      invariant ledger.Granted(old(ledger.asked), ledger.asked) ==> done == Performed(script[..i], keying)
      modifies m, ledger
    {
      PerformedMore(script, i, keying);
      var ok := Perform(m, script[i], old(ledger.refs));
      if ok {
        done := done + [script[i]];
      }
      i := i + 1;
    }
    assert script[..i] == script;
    EndOfLife(m, Removed(done, keying), old(ledger.refs));
  }

  method EndOfLife(m: KMap, ghost removed: Table, ghost before: multiset<Ref>)
    requires m.Valid() && Outstanding(before, m.table, removed, m.ledger.refs)
    modifies m.ledger`refs
    ensures Outstanding(before, [], removed, m.ledger.refs)
  {
    FlatConserves(m.table, m.keying, |m.buckets|);
    ghost var held := m.ledger.refs;
    m.DeInit();
    forall r: Ref
      ensures m.ledger.refs[r] == before[r] + Held([], r) + Held(removed, r)
    {
      assert Held(Flat(m.buckets), r) == Held(m.table, r);
      assert m.ledger.refs[r] + Held(Flat(m.buckets), r) == held[r] + Held([], r);
    }
  }

  method Perform(m: KMap, event: Event, ghost before: multiset<Ref>) returns (ok: bool)
    requires m.Valid() && Outstanding(before, m.table, Removed(m.history, m.keying), m.ledger.refs)
    modifies m, m.ledger
    ensures m.Valid() && Outstanding(before, m.table, Removed(m.history, m.keying), m.ledger.refs)
    ensures m.history == if ok then old(m.history) + [event] else old(m.history)
    ensures old(m.ledger.asked) <= m.ledger.asked
    ensures m.ledger.Granted(old(m.ledger.asked), m.ledger.asked) ==>
              (ok <==> Succeeds(old(m.history), m.keying, event))
  {
    match event
    case Set(key, value) => ok := PerformSet(m, key, value, before);
    case Remove(key) => ok := PerformRemove(m, key, before);
  }

  method PerformSet(m: KMap, key: Ref, value: Ref, ghost before: multiset<Ref>) returns (ok: bool)
    requires m.Valid() && Outstanding(before, m.table, Removed(m.history, m.keying), m.ledger.refs)
    modifies m, m.ledger
    ensures m.Valid() && Outstanding(before, m.table, Removed(m.history, m.keying), m.ledger.refs)
    ensures m.history == if ok then old(m.history) + [Set(key, value)] else old(m.history)
    ensures old(m.ledger.asked) <= m.ledger.asked
    ensures m.ledger.Granted(old(m.ledger.asked), m.ledger.asked) ==> ok
  {
    ghost var held, t, removed := m.ledger.refs, m.table, Removed(m.history, m.keying);
    RemovedMore(m.history, Set(key, value), m.keying);
    ok := m.SetValue(Some(key), Some(value));
    OutstandingSet(before, t, removed, held, m.table, m.ledger.refs);
  }

  method PerformRemove(m: KMap, key: Ref, ghost before: multiset<Ref>) returns (ok: bool)
    requires m.Valid() && Outstanding(before, m.table, Removed(m.history, m.keying), m.ledger.refs)
    modifies m
    ensures m.Valid() && Outstanding(before, m.table, Removed(m.history, m.keying), m.ledger.refs)
    ensures m.history == if ok then old(m.history) + [Remove(key)] else old(m.history)
    ensures ok <==> LastBinding(old(m.history), m.keying, key).Some?
  {
    ghost var t, removed := m.table, Removed(m.history, m.keying);
    RemovedMore(m.history, Remove(key), m.keying);
    ok := m.RemoveValue(Some(key));
    if ok {
      ghost var e := Lookup(t, m.keying, key).value;
      OutstandingRemove(before, t, removed, m.ledger.refs, m.table, e);
    }
  }

  /** Over any run from `KMapNew` in which no allocation failed, all rehashes together copy
      fewer than twice as many entries as the history has sets, and the bucket count is a
      power-of-two multiple of the first one, at most twice the largest count there ever was. */
  lemma LinearRehashCost(m: KMap)
    requires m.Valid() && m.growth.initial == 16 && !m.growth.failed
    ensures Sets(m.history) > 0 ==> m.growth.copied < 2 * Sets(m.history)
    ensures Sets(m.history) == 0 ==> m.growth.copied == 0
    ensures |m.buckets| == 16 * Pow2(m.growth.doublings)
    ensures |m.buckets| == 16 || |m.buckets| <= 2 * Peak(m.history, m.keying)
    ensures m.objectCount < |m.buckets|
  {
    DoubledIsProduct(16, m.growth.doublings);
    assert Pow2(0) == 1;
  }
}
