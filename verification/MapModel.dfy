/** What a `KMap` means: an ordered table of entries, one for each key up to equality, and
    the way hashing spreads that table over buckets (src/kmap.c). */
module MapModel {
  import opened References

  datatype Entry = Entry(key: Ref, value: Ref)

  /** The two callbacks of a map. */
  datatype Keying = Keying(hash: Ref -> nat, equal: (Ref, Ref) -> bool)
  {
    /** What the map demands of them: an equivalence that the hash respects. */
    ghost predicate Lawful() {
      && (forall a :: equal(a, a))
      && (forall a, b :: equal(a, b) ==> equal(b, a) && hash(a) == hash(b))
      && (forall a, b, c :: equal(a, b) && equal(b, c) ==> equal(a, c))
    }
  }

  type Table = seq<Entry>

  // ----- the abstract operations

  /** The index of the first entry whose key is equal to `key`, the length if there is none. */
  function IndexOf(t: Table, k: Keying, key: Ref): (i: nat)
    ensures i <= |t|
    ensures i < |t| ==> k.equal(key, t[i].key)
    ensures forall j :: 0 <= j < i ==> !k.equal(key, t[j].key)
  {
    if t == [] then 0
    else if k.equal(key, t[0].key) then 0
    else 1 + IndexOf(t[1..], k, key)
  }

  function Lookup(t: Table, k: Keying, key: Ref): Option<Entry> {
    var i := IndexOf(t, k, key);
    if i < |t| then Some(t[i]) else None
  }

  function Put(t: Table, k: Keying, key: Ref, value: Ref): Table {
    var i := IndexOf(t, k, key);
    if i < |t| then t[i := t[i].(value := value)] else t + [Entry(key, value)]
  }

  function Without(t: Table, k: Keying, key: Ref): Table {
    var i := IndexOf(t, k, key);
    if i < |t| then t[..i] + t[i + 1..] else t
  }

  ghost predicate NoEqualKeys(t: Table, k: Keying) {
    forall i, j :: 0 <= i < j < |t| ==> !k.equal(t[i].key, t[j].key)
  }

  // ----- what the operations are for, entry by entry

  /** The entry of an equal key has the new value, under the key it had; without such an entry
      there is a new one behind the others. */
  ghost predicate IsSet(before: Table, k: Keying, key: Ref, value: Ref, after: Table) {
    || (exists x :: 0 <= x < |before| && k.equal(key, before[x].key)
                    && after == before[x := Entry(before[x].key, value)])
    || ((forall x :: 0 <= x < |before| ==> !k.equal(key, before[x].key))
        && after == before + [Entry(key, value)])
  }

  ghost predicate IsRemoved(before: Table, k: Keying, key: Ref, after: Table) {
    exists x :: 0 <= x < |before| && k.equal(key, before[x].key) && after == before[..x] + before[x + 1..]
  }

  ghost predicate IsFound(t: Table, k: Keying, key: Ref, value: Option<Ref>) {
    match value
    case Some(v) => exists x :: 0 <= x < |t| && k.equal(key, t[x].key) && t[x].value == v
    case None => forall x :: 0 <= x < |t| ==> !k.equal(key, t[x].key)
  }

  lemma PutIsSet(t: Table, k: Keying, key: Ref, value: Ref)
    ensures IsSet(t, k, key, value, Put(t, k, key, value))
  {
    var x := IndexOf(t, k, key);
    assert x < |t| ==> Put(t, k, key, value) == t[x := Entry(t[x].key, value)];
  }

  lemma WithoutIsRemoved(t: Table, k: Keying, key: Ref)
    requires Lookup(t, k, key).Some?
    ensures IsRemoved(t, k, key, Without(t, k, key))
  {
    var x := IndexOf(t, k, key);
    assert k.equal(key, t[x].key);
  }

  lemma LookupIsFound(t: Table, k: Keying, key: Ref)
    ensures IsFound(t, k, key, if Lookup(t, k, key).Some? then Some(Lookup(t, k, key).value.value) else None)
  {}

  // ----- a whole run

  datatype Event = Set(key: Ref, value: Ref) | Remove(key: Ref)

  function Replay(history: seq<Event>, k: Keying): Table {
    if history == [] then []
    else
      var before := Replay(history[..|history| - 1], k);
      match history[|history| - 1]
      case Set(key, value) => Put(before, k, key, value)
      case Remove(key) => Without(before, k, key)
  }

  function Sets(history: seq<Event>): nat {
    if history == [] then 0
    else Sets(history[..|history| - 1]) + (if history[|history| - 1].Set? then 1 else 0)
  }

  /** The largest number of entries at any time of the history. */
  function Peak(history: seq<Event>, k: Keying): nat {
    if history == [] then 0
    else Max(Peak(history[..|history| - 1], k), |Replay(history, k)|)
  }

  function Max(a: nat, b: nat): nat {
    if a > b then a else b
  }

  /** The entries that removals have taken out of the table. */
  function Removed(history: seq<Event>, k: Keying): Table {
    if history == [] then []
    else
      var front := history[..|history| - 1];
      Removed(front, k) + TakenOut(Replay(front, k), k, history[|history| - 1])
  }

  function TakenOut(t: Table, k: Keying, event: Event): Table {
    if event.Remove? && Lookup(t, k, event.key).Some? then [Lookup(t, k, event.key).value] else []
  }

  /** Read off the history alone: the value set last for a key equal to `key` and not
      removed since, under the key object that was set first since it was last absent. */
  function LastBinding(history: seq<Event>, k: Keying, key: Ref): Option<Entry> {
    if history == [] then None
    else
      var before := LastBinding(history[..|history| - 1], k, key);
      match history[|history| - 1]
      case Set(other, value) =>
        if !k.equal(key, other) then before
        else if before.Some? then Some(before.value.(value := value))
        else Some(Entry(other, value))
      case Remove(other) =>
        if k.equal(key, other) then None else before
  }

  /** A set succeeds, memory permitting, and a removal if the key is bound. */
  predicate Succeeds(history: seq<Event>, k: Keying, event: Event) {
    event.Set? || LastBinding(history, k, event.key).Some?
  }

  /** The events of a script that succeed, if no memory is refused. */
  function Performed(script: seq<Event>, k: Keying): seq<Event> {
    if script == [] then []
    else
      var done, event := Performed(script[..|script| - 1], k), script[|script| - 1];
      if Succeeds(done, k, event) then done + [event] else done
  }

  lemma PerformedMore(script: seq<Event>, i: nat, k: Keying)
    requires i < |script|
    ensures Performed(script[..i + 1], k) ==
            Performed(script[..i], k) + (if Succeeds(Performed(script[..i], k), k, script[i]) then [script[i]] else [])
  {
    assert script[..i + 1][..i] == script[..i];
  }

  lemma ReplayMore(history: seq<Event>, event: Event, k: Keying)
    ensures Replay(history + [event], k) ==
            if event.Set? then Put(Replay(history, k), k, event.key, event.value)
            else Without(Replay(history, k), k, event.key)
    ensures Sets(history + [event]) == Sets(history) + (if event.Set? then 1 else 0)
    ensures Peak(history + [event], k) == Max(Peak(history, k), |Replay(history + [event], k)|)
    ensures event.Remove? ==> Peak(history + [event], k) == Peak(history, k)
  {
    assert (history + [event])[..|history|] == history;
  }

  lemma RemovedMore(history: seq<Event>, event: Event, k: Keying)
    ensures event.Set? ==> Removed(history + [event], k) == Removed(history, k)
    ensures event.Remove? && Lookup(Replay(history, k), k, event.key).Some? ==>
              Removed(history + [event], k) == Removed(history, k) + [Lookup(Replay(history, k), k, event.key).value]
  {
    assert (history + [event])[..|history|] == history;
  }

  lemma SameIndex(t: Table, k: Keying, a: Ref, b: Ref)
    requires k.Lawful() && k.equal(a, b)
    ensures IndexOf(t, k, a) == IndexOf(t, k, b)
  {}

  lemma IndexIs(t: Table, k: Keying, key: Ref, i: nat)
    requires i <= |t|
    requires forall j :: 0 <= j < i ==> !k.equal(key, t[j].key)
    requires i < |t| ==> k.equal(key, t[i].key)
    ensures IndexOf(t, k, key) == i
  {}

  lemma PutKeeps(t: Table, k: Keying, key: Ref, value: Ref)
    requires k.Lawful() && NoEqualKeys(t, k)
    ensures NoEqualKeys(Put(t, k, key, value), k)
  {}

  lemma WithoutKeeps(t: Table, k: Keying, key: Ref)
    requires NoEqualKeys(t, k)
    ensures NoEqualKeys(Without(t, k, key), k)
  {}

  lemma Apart(k: Keying, probe: Ref, key: Ref, other: Ref)
    requires k.Lawful() && !k.equal(probe, key) && k.equal(key, other)
    ensures !k.equal(probe, other)
  {}

  lemma LookupAfterPut(t: Table, k: Keying, key: Ref, value: Ref, probe: Ref)
    requires k.Lawful()
    ensures Lookup(Put(t, k, key, value), k, probe) ==
            if !k.equal(probe, key) then Lookup(t, k, probe)
            else if Lookup(t, k, probe).Some? then Some(Lookup(t, k, probe).value.(value := value))
            else Some(Entry(key, value))
  {
    var i, p, after := IndexOf(t, k, key), IndexOf(t, k, probe), Put(t, k, key, value);
    if k.equal(probe, key) {
      SameIndex(t, k, probe, key);
      IndexIs(after, k, probe, i);
    } else {
      if i < |t| {
        Apart(k, probe, key, t[i].key);
      }
      IndexIs(after, k, probe, if p < |t| then p else |after|);
    }
  }

  lemma LookupAfterWithout(t: Table, k: Keying, key: Ref, probe: Ref)
    requires k.Lawful() && NoEqualKeys(t, k)
    ensures Lookup(Without(t, k, key), k, probe) ==
            if k.equal(probe, key) then None else Lookup(t, k, probe)
  {
    var i, p, after := IndexOf(t, k, key), IndexOf(t, k, probe), Without(t, k, key);
    if k.equal(probe, key) {
      SameIndex(t, k, probe, key);
      forall j | 0 <= j < |after|
        ensures !k.equal(probe, after[j].key)
      {
        if i <= j {
          assert after[j] == t[j + 1] && !k.equal(t[i].key, t[j + 1].key);
          assert k.equal(t[i].key, probe);
        }
      }
      IndexIs(after, k, probe, |after|);
    } else {
      if i < |t| {
        Apart(k, probe, key, t[i].key);
      }
      IndexIs(after, k, probe, if p > i then p - 1 else p);
    }
  }

  /** Replaying a history and reading it backwards agree, for every run. */
  lemma {:induction false} ReplayMeansLastBinding(history: seq<Event>, k: Keying, key: Ref)
    requires k.Lawful()
    ensures NoEqualKeys(Replay(history, k), k)
    ensures Lookup(Replay(history, k), k, key) == LastBinding(history, k, key)
  {
    if history != [] {
      var front := history[..|history| - 1];
      ReplayMeansLastBinding(front, k, key);
      match history[|history| - 1]
      case Set(other, value) =>
        PutKeeps(Replay(front, k), k, other, value);
        LookupAfterPut(Replay(front, k), k, other, value, key);
      case Remove(other) =>
        WithoutKeeps(Replay(front, k), k, other);
        LookupAfterWithout(Replay(front, k), k, other, key);
    }
  }

  /** The table as a finite map from the key objects it keeps. */
  function AsMap(t: Table): map<Ref, Ref> {
    if t == [] then map[]
    else
      var last := t[|t| - 1];
      AsMap(t[..|t| - 1])[last.key := last.value]
  }

  lemma {:induction false} CardinalityIsLength(t: Table, k: Keying)
    requires k.Lawful() && NoEqualKeys(t, k)
    ensures |AsMap(t)| == |t|
    ensures forall key :: key in AsMap(t) <==> exists i :: 0 <= i < |t| && t[i].key == key
    ensures forall i :: 0 <= i < |t| ==> AsMap(t)[t[i].key] == t[i].value
  {
    if t != [] {
      var front, last := t[..|t| - 1], t[|t| - 1];
      CardinalityIsLength(front, k);
      forall i | 0 <= i < |front|
        ensures front[i].key != last.key
      {
        assert !k.equal(t[i].key, t[|t| - 1].key);
      }
      forall i | 0 <= i < |t|
        ensures t[i].key in AsMap(t) && AsMap(t)[t[i].key] == t[i].value
      {
        if i < |t| - 1 {
          assert front[i] == t[i] && t[i].key in AsMap(front);
        }
      }
      forall key | key in AsMap(t)
        ensures exists i :: 0 <= i < |t| && t[i].key == key
      {
        if key == last.key {
          assert t[|t| - 1].key == key;
        } else {
          var i :| 0 <= i < |front| && front[i].key == key;
          assert t[i].key == key;
        }
      }
    }
  }

  // ----- buckets

  /** The entries whose hash falls on `j` modulo `n`, in table order. */
  function Bucket(t: Table, k: Keying, n: nat, j: nat): Table
    requires n > 0
  {
    if t == [] then []
    else
      var last := t[|t| - 1];
      Bucket(t[..|t| - 1], k, n, j) + (if k.hash(last.key) % n == j then [last] else [])
  }

  function Buckets(t: Table, k: Keying, n: nat): (bs: seq<Table>)
    requires n > 0
    ensures |bs| == n
  {
    seq(n, j requires 0 <= j < n => Bucket(t, k, n, j))
  }

  lemma {:induction false} BucketConcat(a: Table, b: Table, k: Keying, n: nat, j: nat)
    requires n > 0
    ensures Bucket(a + b, k, n, j) == Bucket(a, k, n, j) + Bucket(b, k, n, j)
  {
    if b == [] {
      assert a + b == a;
    } else {
      assert (a + b)[..|a + b| - 1] == a + b[..|b| - 1];
      BucketConcat(a, b[..|b| - 1], k, n, j);
    }
  }

  lemma {:induction false} BucketMembers(t: Table, k: Keying, n: nat, j: nat)
    requires n > 0
    ensures forall e :: e in Bucket(t, k, n, j) ==> e in t && k.hash(e.key) % n == j
  {
    if t != [] {
      BucketMembers(t[..|t| - 1], k, n, j);
    }
  }

  /** Where entry `x` of the table sits in its bucket, and what surrounds it. */
  lemma BucketAround(t: Table, k: Keying, n: nat, j: nat, x: nat)
    requires n > 0 && x < |t|
    ensures Bucket(t, k, n, j) ==
            Bucket(t[..x], k, n, j) + (if k.hash(t[x].key) % n == j then [t[x]] else []) + Bucket(t[x + 1..], k, n, j)
  {
    Split(t, x);
    assert t[..x + 1][..x] == t[..x];
    BucketConcat(t[..x + 1], t[x + 1..], k, n, j);
  }

  /** The first match in the bucket of a key is the first match in the whole table. */
  lemma FirstMatch(t: Table, k: Keying, n: nat, key: Ref)
    requires n > 0 && k.Lawful()
    ensures var x, b := IndexOf(t, k, key), Bucket(t, k, n, k.hash(key) % n);
            if x == |t| then forall q :: 0 <= q < |b| ==> !k.equal(key, b[q].key)
            else var p := |Bucket(t[..x], k, n, k.hash(key) % n)|;
                 && p < |b| && b[p] == t[x]
                 && forall q :: 0 <= q < p ==> !k.equal(key, b[q].key)
  {
    var x, j := IndexOf(t, k, key), k.hash(key) % n;
    if x == |t| {
      BucketMembers(t, k, n, j);
    } else {
      BucketAround(t, k, n, j, x);
      BucketMembers(t[..x], k, n, j);
    }
  }

  lemma BucketAppend(t: Table, k: Keying, n: nat, e: Entry)
    requires n > 0
    ensures var j := k.hash(e.key) % n;
            Buckets(t + [e], k, n) == Buckets(t, k, n)[j := Bucket(t, k, n, j) + [e]]
  {
    var j := k.hash(e.key) % n;
    assert (t + [e])[..|t|] == t;
    forall i: nat | i < n
      ensures Bucket(t + [e], k, n, i) == if i == j then Bucket(t, k, n, i) + [e] else Bucket(t, k, n, i)
    {}
  }

  lemma Split<T>(s: seq<T>, x: nat)
    requires x < |s|
    ensures s[..x + 1] == s[..x] + [s[x]] && s == s[..x + 1] + s[x + 1..]
  {}

  lemma OneMore<T>(done: seq<T>, s: seq<T>, x: nat)
    requires x < |s|
    ensures done + s[..x] + [s[x]] == done + s[..x + 1]
  {}

  lemma Middle<T>(a: seq<T>, x: T, c: seq<T>, y: T)
    ensures (a + [x] + c)[|a| := y] == a + [y] + c
    ensures (a + [x] + c)[..|a|] + (a + [x] + c)[|a| + 1..] == a + c
  {}

  /** Replacing a value in place changes one slot of one bucket. */
  lemma BucketUpdate(t: Table, k: Keying, n: nat, x: nat, value: Ref)
    requires n > 0 && x < |t|
    ensures var j, e := k.hash(t[x].key) % n, t[x].(value := value);
            var b, p := Bucket(t, k, n, j), |Bucket(t[..x], k, n, j)|;
            p < |b| && Buckets(t[x := e], k, n) == Buckets(t, k, n)[j := b[p := e]]
  {
    var j, e := k.hash(t[x].key) % n, t[x].(value := value);
    var after := t[x := e];
    assert after[..x] == t[..x] && after[x + 1..] == t[x + 1..];
    BucketAround(t, k, n, j, x);
    Middle(Bucket(t[..x], k, n, j), t[x], Bucket(t[x + 1..], k, n, j), e);
    forall i: nat | i < n
      ensures i != j ==> Bucket(after, k, n, i) == Bucket(t, k, n, i)
      ensures i == j ==> Bucket(after, k, n, i) == Bucket(t, k, n, j)[|Bucket(t[..x], k, n, j)| := e]
    {
      BucketAround(t, k, n, i, x);
      BucketAround(after, k, n, i, x);
    }
  }

  /** Taking an entry out of the table takes one slot out of one bucket. */
  lemma BucketRemove(t: Table, k: Keying, n: nat, x: nat)
    requires n > 0 && x < |t|
    ensures var j := k.hash(t[x].key) % n;
            var b, p := Bucket(t, k, n, j), |Bucket(t[..x], k, n, j)|;
            p < |b| && Buckets(t[..x] + t[x + 1..], k, n) == Buckets(t, k, n)[j := b[..p] + b[p + 1..]]
  {
    var j := k.hash(t[x].key) % n;
    var after := t[..x] + t[x + 1..];
    var p := |Bucket(t[..x], k, n, j)|;
    BucketAround(t, k, n, j, x);
    Middle(Bucket(t[..x], k, n, j), t[x], Bucket(t[x + 1..], k, n, j), t[x]);
    forall i: nat | i < n
      ensures i != j ==> Bucket(after, k, n, i) == Bucket(t, k, n, i)
      ensures i == j ==> Bucket(after, k, n, i) == Bucket(t, k, n, j)[..p] + Bucket(t, k, n, j)[p + 1..]
    {
      BucketConcat(t[..x], t[x + 1..], k, n, i);
      BucketAround(t, k, n, i, x);
    }
  }

  // ----- rehashing

  /** All entries in the order in which the rehash loop visits them. */
  function Flat(bs: seq<Table>): Table {
    if bs == [] then [] else Flat(bs[..|bs| - 1]) + bs[|bs| - 1]
  }

  lemma RemainderOfRemainder(h: nat, n: nat, q: nat)
    requires n > 0 && q > 0
    ensures n * q > 0 && h % (n * q) % n == h % n
  {
    var m, d := n * q, h / (n * q);
    assert h == m * d + h % m;
    var r := h % m;
    assert r == n * (r / n) + r % n;
    calc {
      h;
      n * q * d + n * (r / n) + r % n;
      { assert n * q * d == n * (q * d); }
      n * (q * d) + n * (r / n) + r % n;
      { assert n * (q * d) + n * (r / n) == n * (q * d + r / n); }
      n * (q * d + r / n) + r % n;
    }
    RemainderIs(h, n, q * d + r / n, r % n);
  }

  lemma RemainderIs(h: nat, n: nat, d: int, r: nat)
    requires n > 0 && r < n && h == n * d + r
    ensures h % n == r
  {
    var e := h / n;
    assert h == n * e + h % n;
    assert n * (d - e) == h % n - r;
    if d > e {
      MulAtLeast(n, d - e);
      assert false;
    } else if d < e {
      MulAtLeast(n, e - d);
      assert false;
    }
  }

  lemma MulAtLeast(n: nat, d: int)
    requires d >= 1
    ensures n * d >= n
  {}

  /** A bucket of the larger table is the part of one old bucket that hashes there now, in
      the old order. */
  lemma {:induction false} BucketOfBucket(t: Table, k: Keying, n: nat, i: nat, q: nat, j: nat)
    requires n > 0 && q > 0 && n * q > 0 && i < n
    ensures Bucket(Bucket(t, k, n, i), k, n * q, j) == if j % n == i then Bucket(t, k, n * q, j) else []
  {
    if t != [] {
      var front, last := t[..|t| - 1], t[|t| - 1];
      BucketOfBucket(front, k, n, i, q, j);
      RemainderOfRemainder(k.hash(last.key), n, q);
      var tail := if k.hash(last.key) % n == i then [last] else [];
      BucketConcat(Bucket(front, k, n, i), tail, k, n * q, j);
      if tail != [] {
        assert tail[..|tail| - 1] == [];
      }
    }
  }

  /** Every bucket of `after` is the part of one bucket of `before` that hashes there now,
      in the old order, and the bucket count is a multiple of the old one. */
  ghost predicate SplitsInOrder(before: seq<Table>, after: seq<Table>, k: Keying) {
    && 0 < |before| <= |after| && |after| % |before| == 0
    && forall j :: 0 <= j < |after| ==> after[j] == Bucket(before[j % |before|], k, |after|, j)
  }

  lemma RehashSplitsInOrder(t: Table, k: Keying, n: nat, q: nat)
    requires n > 0 && q > 0 && n * q >= n
    ensures SplitsInOrder(Buckets(t, k, n), Buckets(t, k, n * q), k)
  {
    assert n * q % n == 0 by {
      RemainderIs(n * q, n, q, 0);
    }
    forall j: nat | j < n * q
      ensures Bucket(t, k, n * q, j) == Bucket(Bucket(t, k, n, j % n), k, n * q, j)
    {
      BucketOfBucket(t, k, n, j % n, q, j);
    }
  }

  lemma {:induction false} BucketOfFlat(t: Table, k: Keying, n: nat, i: nat, q: nat, j: nat)
    requires n > 0 && q > 0 && n * q > 0 && i <= n
    ensures Bucket(Flat(Buckets(t, k, n)[..i]), k, n * q, j) == if j % n < i then Bucket(t, k, n * q, j) else []
  {
    if i > 0 {
      var bs := Buckets(t, k, n);
      assert bs[..i][..i - 1] == bs[..i - 1];
      BucketOfFlat(t, k, n, i - 1, q, j);
      BucketConcat(Flat(bs[..i - 1]), bs[i - 1], k, n * q, j);
      BucketOfBucket(t, k, n, i - 1, q, j);
    }
  }

  /** Re-inserting the flattened buckets gives the buckets of the table itself. */
  lemma RehashKeepsTable(t: Table, k: Keying, n: nat, q: nat)
    requires n > 0 && q > 0 && n * q > 0
    ensures Buckets(Flat(Buckets(t, k, n)), k, n * q) == Buckets(t, k, n * q)
  {
    var bs := Buckets(t, k, n);
    assert bs[..n] == bs;
    forall j: nat | j < n * q
      ensures Bucket(Flat(bs), k, n * q, j) == Bucket(t, k, n * q, j)
    {
      BucketOfFlat(t, k, n, n, q, j);
    }
  }

  lemma {:induction false} BucketNoEqualKeys(t: Table, k: Keying, n: nat, j: nat)
    requires n > 0 && NoEqualKeys(t, k)
    ensures NoEqualKeys(Bucket(t, k, n, j), k)
  {
    if t != [] {
      var front, last := t[..|t| - 1], t[|t| - 1];
      BucketNoEqualKeys(front, k, n, j);
      BucketMembers(front, k, n, j);
      forall e | e in Bucket(front, k, n, j)
        ensures !k.equal(e.key, last.key)
      {
        var i :| 0 <= i < |front| && front[i] == e;
        assert !k.equal(t[i].key, t[|t| - 1].key);
      }
    }
  }

  lemma {:induction false} FlatNoEqualKeys(t: Table, k: Keying, n: nat, i: nat)
    requires n > 0 && i <= n && k.Lawful() && NoEqualKeys(t, k)
    ensures NoEqualKeys(Flat(Buckets(t, k, n)[..i]), k)
    ensures forall e :: e in Flat(Buckets(t, k, n)[..i]) ==> k.hash(e.key) % n < i
  {
    if i > 0 {
      var bs := Buckets(t, k, n);
      assert bs[..i][..i - 1] == bs[..i - 1];
      FlatNoEqualKeys(t, k, n, i - 1);
      BucketNoEqualKeys(t, k, n, i - 1);
      BucketMembers(t, k, n, i - 1);
      NoEqualKeysConcat(Flat(bs[..i - 1]), bs[i - 1], k);
    }
  }

  lemma NoEqualKeysConcat(a: Table, b: Table, k: Keying)
    requires NoEqualKeys(a, k) && NoEqualKeys(b, k)
    requires forall x, y :: x in a && y in b ==> !k.equal(x.key, y.key)
    ensures NoEqualKeys(a + b, k)
  {}

  lemma FlatPrefix(bs: seq<Table>, i: nat, j: nat)
    requires i < |bs| && j < |bs[i]|
    ensures Flat(bs[..i]) + bs[i][..j] + [bs[i][j]] <= Flat(bs)
  {
    Split(bs, i);
    assert bs[..i + 1][..i] == bs[..i];
    FlatConcat(bs[..i + 1], bs[i + 1..]);
    assert bs[i] == bs[i][..j] + [bs[i][j]] + bs[i][j + 1..];
  }

  /** The entry that the rehash loop visits next has a key equal to none it has copied. */
  lemma NextKeyIsNew(t: Table, k: Keying, n: nat, i: nat, j: nat)
    requires n > 0 && k.Lawful() && NoEqualKeys(t, k)
    requires i < n && j < |Buckets(t, k, n)[i]|
    ensures var bs := Buckets(t, k, n);
            var copied := Flat(bs[..i]) + bs[i][..j];
            IndexOf(copied, k, bs[i][j].key) == |copied| < |t|
  {
    var bs := Buckets(t, k, n);
    var copied, next := Flat(bs[..i]) + bs[i][..j], bs[i][j];
    FlatPrefix(bs, i, j);
    FlatConserves(t, k, n);
    assert bs[..n] == bs;
    FlatNoEqualKeys(t, k, n, n);
    forall q | 0 <= q < |copied|
      ensures !k.equal(next.key, copied[q].key)
    {
      assert Flat(bs)[q] == copied[q] && Flat(bs)[|copied|] == next;
    }
  }

  // ----- references and sizes

  /** How many references the entries hold on object `r`, as a key or as a value. */
  function Held(t: Table, r: Ref): nat {
    if t == [] then 0 else Held(t[..|t| - 1], r) + HeldBy(t[|t| - 1], r)
  }

  function HeldBy(e: Entry, r: Ref): nat {
    (if e.key == r then 1 else 0) + (if e.value == r then 1 else 0)
  }

  lemma HeldAppend(t: Table, e: Entry, r: Ref)
    ensures Held(t + [e], r) == Held(t, r) + HeldBy(e, r)
  {}

  lemma {:induction false} HeldConcat(a: Table, b: Table, r: Ref)
    ensures Held(a + b, r) == Held(a, r) + Held(b, r)
  {
    if b == [] {
      assert a + b == a;
    } else {
      assert (a + b)[..|a + b| - 1] == a + b[..|b| - 1];
      HeldConcat(a, b[..|b| - 1], r);
    }
  }

  lemma HeldAround(t: Table, x: nat, r: Ref)
    requires x < |t|
    ensures Held(t, r) == Held(t[..x], r) + HeldBy(t[x], r) + Held(t[x + 1..], r)
  {
    Split(t, x);
    HeldAppend(t[..x], t[x], r);
    HeldConcat(t[..x + 1], t[x + 1..], r);
  }

  lemma HeldAfterUpdate(t: Table, x: nat, value: Ref, r: Ref)
    requires x < |t|
    ensures HeldBy(t[x], r) <= Held(t, r)
    ensures Held(t[x := t[x].(value := value)], r) ==
            Held(t, r) - HeldBy(t[x], r) + HeldBy(t[x].(value := value), r)
  {
    var after := t[x := t[x].(value := value)];
    assert after[..x] == t[..x] && after[x + 1..] == t[x + 1..];
    HeldAround(t, x, r);
    HeldAround(after, x, r);
  }

  lemma HeldAfterRemove(t: Table, x: nat, r: Ref)
    requires x < |t|
    ensures Held(t, r) == Held(t[..x] + t[x + 1..], r) + HeldBy(t[x], r)
  {
    HeldAround(t, x, r);
    HeldConcat(t[..x], t[x + 1..], r);
  }

  lemma HeldAfterRemoval(t: Table, k: Keying, key: Ref)
    requires Lookup(t, k, key).Some?
    ensures forall r: Ref :: Held(t, r) == Held(Without(t, k, key), r) + HeldBy(Lookup(t, k, key).value, r)
  {
    forall r: Ref
      ensures Held(t, r) == Held(Without(t, k, key), r) + HeldBy(Lookup(t, k, key).value, r)
    {
      HeldAfterRemove(t, IndexOf(t, k, key), r);
    }
  }

  lemma HeldPrefix(t: Table, all: Table, r: Ref)
    requires t <= all
    ensures Held(t, r) <= Held(all, r)
  {}

  /** The ledger covers the references of the table. */
  ghost predicate Covers(refs: multiset<Ref>, t: Table) {
    forall r :: Held(t, r) <= refs[r]
  }

  /** The ledger moved from `before` to `now` by exactly the references by which table
      `after` differs from table `t`. */
  ghost predicate Balanced(before: multiset<Ref>, t: Table, now: multiset<Ref>, after: Table) {
    forall r :: now[r] + Held(t, r) == before[r] + Held(after, r)
  }

  /** The ledger holds, beyond `before`, the references of the table and those of the entries
      that removals have taken out of it. */
  ghost predicate Outstanding(before: multiset<Ref>, t: Table, removed: Table, now: multiset<Ref>) {
    forall r :: now[r] == before[r] + Held(t, r) + Held(removed, r)
  }

  lemma OutstandingSet(
    before: multiset<Ref>, t: Table, removed: Table, held: multiset<Ref>, after: Table, now: multiset<Ref>)
    requires Outstanding(before, t, removed, held) && Balanced(held, t, now, after)
    ensures Outstanding(before, after, removed, now)
  {
    forall r: Ref
      ensures now[r] == before[r] + Held(after, r) + Held(removed, r)
    {
      assert now[r] + Held(t, r) == held[r] + Held(after, r);
      assert held[r] == before[r] + Held(t, r) + Held(removed, r);
    }
  }

  lemma OutstandingRemove(
    before: multiset<Ref>, t: Table, removed: Table, held: multiset<Ref>, after: Table, e: Entry)
    requires Outstanding(before, t, removed, held)
    requires forall r: Ref :: Held(t, r) == Held(after, r) + HeldBy(e, r)
    ensures Outstanding(before, after, removed + [e], held)
  {
    forall r: Ref
      ensures held[r] == before[r] + Held(after, r) + Held(removed + [e], r)
    {
      HeldAppend(removed, e, r);
      assert held[r] == before[r] + Held(t, r) + Held(removed, r);
    }
  }

  /** The ledger gave up exactly the references of the table. */
  ghost predicate Released(before: multiset<Ref>, t: Table, now: multiset<Ref>) {
    Balanced(before, t, now, [])
  }

  /** Two references more, for an entry more. */
  lemma Acquired(before: multiset<Ref>, t: Table, e: Entry)
    requires Covers(before, t)
    ensures var now := before + multiset{e.key} + multiset{e.value};
            Balanced(before, t, now, t + [e]) && Covers(now, t + [e])
  {
    var now := before + multiset{e.key} + multiset{e.value};
    forall r: Ref
      ensures now[r] + Held(t, r) == before[r] + Held(t + [e], r)
      ensures Held(t + [e], r) <= now[r]
    {
      HeldAppend(t, e, r);
      assert Held(t, r) <= before[r];
    }
  }

  lemma GivenBack(before: multiset<Ref>, a: Ref, b: Ref)
    ensures a in before + multiset{a} + multiset{b}
    ensures b in before + multiset{a} + multiset{b} - multiset{a}
    ensures before + multiset{a} + multiset{b} - multiset{a} - multiset{b} == before
  {}

  lemma BalancedChain(a: multiset<Ref>, t: Table, b: multiset<Ref>, u: Table, c: multiset<Ref>, v: Table)
    requires Balanced(a, t, b, u) && Balanced(b, u, c, v)
    ensures Balanced(a, t, c, v)
  {}

  lemma SameHeld(a: multiset<Ref>, b: multiset<Ref>, t: Table, u: Table)
    requires Balanced(a, [], b, t) && forall r :: Held(t, r) == Held(u, r)
    ensures Balanced(a, [], b, u)
  {}

  /** Acquiring the references of a table and releasing the same entries, in whatever order
      they lie in the buckets, leaves the ledger as it was. */
  lemma ReleaseUndoes(a: multiset<Ref>, b: multiset<Ref>, t: Table, k: Keying, n: nat, c: multiset<Ref>)
    requires n > 0 && Balanced(a, [], b, t) && Released(b, Flat(Buckets(t, k, n)), c)
    ensures c == a
  {
    forall r: Ref
      ensures c[r] == a[r]
    {
      FlatConservesRefs(t, k, n, r);
      assert b[r] + Held([], r) == a[r] + Held(t, r);
    }
  }

  // ----- flattening loses nothing

  lemma {:induction false} FlatConcat(a: seq<Table>, b: seq<Table>)
    ensures Flat(a + b) == Flat(a) + Flat(b)
  {
    if b == [] {
      assert a + b == a;
    } else {
      assert (a + b)[..|a + b| - 1] == a + b[..|b| - 1];
      FlatConcat(a, b[..|b| - 1]);
    }
  }

  lemma FlatAround(a: seq<Table>, b: Table, c: seq<Table>, r: Ref)
    ensures |Flat(a + [b] + c)| == |Flat(a)| + |b| + |Flat(c)|
    ensures Held(Flat(a + [b] + c), r) == Held(Flat(a), r) + Held(b, r) + Held(Flat(c), r)
  {
    assert [b][..0] == [];
    FlatConcat(a, [b]);
    FlatConcat(a + [b], c);
    HeldConcat(Flat(a), b, r);
    HeldConcat(Flat(a) + b, Flat(c), r);
  }

  lemma FlatInsert(bs: seq<Table>, j: nat, e: Entry, r: Ref)
    requires j < |bs|
    ensures |Flat(bs[j := bs[j] + [e]])| == |Flat(bs)| + 1
    ensures Held(Flat(bs[j := bs[j] + [e]]), r) == Held(Flat(bs), r) + HeldBy(e, r)
  {
    assert bs == bs[..j] + [bs[j]] + bs[j + 1..];
    assert bs[j := bs[j] + [e]] == bs[..j] + [bs[j] + [e]] + bs[j + 1..];
    FlatAround(bs[..j], bs[j], bs[j + 1..], r);
    FlatAround(bs[..j], bs[j] + [e], bs[j + 1..], r);
    HeldAppend(bs[j], e, r);
  }

  lemma {:induction false} FlatOfEmpties(bs: seq<Table>)
    requires forall i :: 0 <= i < |bs| ==> bs[i] == []
    ensures Flat(bs) == []
  {
    if bs != [] {
      FlatOfEmpties(bs[..|bs| - 1]);
    }
  }

  /** Spreading over buckets loses no entry and no reference. */
  lemma {:induction false} FlatConservesRefs(t: Table, k: Keying, n: nat, r: Ref)
    requires n > 0
    ensures |Flat(Buckets(t, k, n))| == |t|
    ensures Held(Flat(Buckets(t, k, n)), r) == Held(t, r)
  {
    if t == [] {
      FlatOfEmpties(Buckets(t, k, n));
    } else {
      var front, last := t[..|t| - 1], t[|t| - 1];
      FlatConservesRefs(front, k, n, r);
      assert front + [last] == t;
      BucketAppend(front, k, n, last);
      FlatInsert(Buckets(front, k, n), k.hash(last.key) % n, last, r);
    }
  }

  lemma FlatConserves(t: Table, k: Keying, n: nat)
    requires n > 0
    ensures |Flat(Buckets(t, k, n))| == |t|
    ensures forall r :: Held(Flat(Buckets(t, k, n)), r) == Held(t, r)
  {
    FlatConservesRefs(t, k, n, 0);
    forall r: Ref
      ensures Held(Flat(Buckets(t, k, n)), r) == Held(t, r)
    {
      FlatConservesRefs(t, k, n, r);
    }
  }
}
