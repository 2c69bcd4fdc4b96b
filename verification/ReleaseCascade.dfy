/** Reference counting over a heap of objects that own each other (src/kobject.c). A slot
    is a reference that an object's deinit routine releases: the buckets of a map, the
    items of an array or list, the key and value of a map entry. */
module ReleaseCascade {
  import opened References

  /** Memory at one address. A dying object has count zero and is inside its deinit. */
  datatype Cell =
    | Live(count: nat, slots: seq<Ref>)
    | Dying
    | Freed

  type Cells = seq<Cell>

  predicate IsLive(cells: Cells, r: Ref) {
    r < |cells| && cells[r].Live?
  }

  function CountOf(cells: Cells, r: Ref): nat {
    if IsLive(cells, r) then cells[r].count else 0
  }

  /** How many slots of `cell` hold `r`. */
  function Out(cell: Cell, r: Ref): nat {
    if cell.Live? then multiset(cell.slots)[r] else 0
  }

  /** How many slots of the first `n` objects hold `r`. */
  function Incoming(cells: Cells, n: nat, r: Ref): nat
    requires n <= |cells|
  {
    if n == 0 then 0 else Incoming(cells, n - 1, r) + Out(cells[n - 1], r)
  }

  /** Every count is the number of external owners plus the number of slots: no object that
      is dying or freed has either. */
  ghost predicate Accounted(cells: Cells, owners: multiset<Ref>) {
    forall r: Ref :: CountOf(cells, r) == owners[r] + Incoming(cells, |cells|, r)
  }

  /** An object whose count is zero does not stay alive. */
  predicate Settled(cells: Cells) {
    forall r :: 0 <= r < |cells| && cells[r].Live? ==> cells[r].count > 0
  }

  function LiveCount(cells: Cells, n: nat): nat
    requires n <= |cells|
  {
    if n == 0 then 0 else LiveCount(cells, n - 1) + (if cells[n - 1].Live? then 1 else 0)
  }

  /** What a release may do to the heap: objects die but never come back, survivors keep
      their slots and do not gain references, and deinits in progress are left alone. */
  ghost predicate Evolves(before: Cells, after: Cells) {
    && |before| == |after|
    && forall r :: 0 <= r < |after| ==>
         && (after[r].Live? ==>
               before[r].Live? && after[r].slots == before[r].slots && after[r].count <= before[r].count)
         && (before[r].Dying? <==> after[r].Dying?)
         && (before[r].Freed? ==> after[r].Freed?)
  }

  lemma {:induction false} IncomingUpdate(cells: Cells, i: nat, cell: Cell, n: nat, r: Ref)
    requires i < |cells| && n <= |cells|
    ensures Incoming(cells[i := cell], n, r) ==
            Incoming(cells, n, r) + (if i < n then Out(cell, r) - Out(cells[i], r) else 0)
  {
    if n > 0 {
      IncomingUpdate(cells, i, cell, n - 1, r);
    }
  }

  lemma {:induction false} LiveCountEvolves(before: Cells, after: Cells, n: nat)
    requires Evolves(before, after) && n <= |before|
    ensures LiveCount(after, n) <= LiveCount(before, n)
  {
    if n > 0 {
      LiveCountEvolves(before, after, n - 1);
    }
  }

  lemma {:induction false} LiveCountDies(cells: Cells, i: nat, n: nat)
    requires i < |cells| && cells[i].Live? && n <= |cells|
    ensures LiveCount(cells[i := Dying], n) == LiveCount(cells, n) - (if i < n then 1 else 0)
  {
    if n > 0 {
      LiveCountDies(cells, i, n - 1);
    }
  }

  /** Changing one object and its external owners so that the balance of every object is
      kept keeps the ledger. */
  lemma AccountUpdate(cells: Cells, owners: multiset<Ref>, i: Ref, cell: Cell, owners': multiset<Ref>)
    requires Accounted(cells, owners) && i < |cells|
    requires forall r: Ref ::
               CountOf(cells[i := cell], r) + owners[r] + Out(cells[i], r) ==
               CountOf(cells, r) + owners'[r] + Out(cell, r)
    ensures Accounted(cells[i := cell], owners')
  {
    forall r: Ref
      ensures CountOf(cells[i := cell], r) == owners'[r] + Incoming(cells[i := cell], |cells|, r)
    {
      IncomingUpdate(cells, i, cell, |cells|, r);
      assert CountOf(cells, r) == owners[r] + Incoming(cells, |cells|, r);
      assert CountOf(cells[i := cell], r) + owners[r] + Out(cells[i], r) ==
             CountOf(cells, r) + owners'[r] + Out(cell, r);
    }
  }

  /** A reference moves from an external owner into a slot. */
  lemma SlotAdded(cells: Cells, owners: multiset<Ref>, container: Ref, i: nat, item: Ref)
    requires Accounted(cells, owners) && IsLive(cells, container) && item in owners
    requires i <= |cells[container].slots|
    ensures var slots := cells[container].slots;
            var cell := Live(cells[container].count, slots[..i] + [item] + slots[i..]);
            Accounted(cells[container := cell], owners - multiset{item})
  {
    var slots := cells[container].slots;
    var cell := Live(cells[container].count, slots[..i] + [item] + slots[i..]);
    assert slots == slots[..i] + slots[i..];
    AccountUpdate(cells, owners, container, cell, owners - multiset{item});
  }

  lemma OwnedIsLive(cells: Cells, owners: multiset<Ref>, r: Ref)
    requires Accounted(cells, owners) && owners[r] > 0
    ensures IsLive(cells, r)
  {}

  /** A reference goes that is not the last one. */
  lemma OneOfMany(cells: Cells, owners: multiset<Ref>, r: Ref)
    requires Accounted(cells, owners) && r in owners && IsLive(cells, r) && cells[r].count > 1
    ensures Accounted(cells[r := Live(cells[r].count - 1, cells[r].slots)], owners - multiset{r})
  {
    AccountUpdate(cells, owners, r, Live(cells[r].count - 1, cells[r].slots), owners - multiset{r});
  }

  /** The last reference goes: the slots of the object pass to its deinit. */
  lemma LastReference(cells: Cells, owners: multiset<Ref>, r: Ref)
    requires Accounted(cells, owners) && owners[r] > 0 && IsLive(cells, r) && cells[r].count == 1
    ensures Accounted(cells[r := Dying], owners - multiset{r} + multiset(cells[r].slots))
  {
    assert CountOf(cells, r) == owners[r] + Incoming(cells, |cells|, r);
    AccountUpdate(cells, owners, r, Dying, owners - multiset{r} + multiset(cells[r].slots));
  }

  ghost predicate HeldWithin(cells: Cells, k: set<Ref>, r: Ref) {
    exists o :: o in k && IsLive(cells, o) && r in cells[o].slots
  }

  /** Live objects of which each is held by a slot of another one of them, or by one of its
      own. */
  ghost predicate SelfHeld(cells: Cells, k: set<Ref>) {
    && (forall r :: r in k ==> IsLive(cells, r))
    && (forall r {:trigger HeldWithin(cells, k, r)} :: r in k ==> HeldWithin(cells, k, r))
  }

  /** The last reference to an object is not held by a slot. */
  lemma LastIsNotHeld(cells: Cells, owners: multiset<Ref>, r: Ref, k: set<Ref>)
    requires Accounted(cells, owners) && owners[r] > 0 && IsLive(cells, r) && cells[r].count == 1
    requires SelfHeld(cells, k)
    ensures r !in k
  {
    assert CountOf(cells, r) == owners[r] + Incoming(cells, |cells|, r);
    if r in k {
      assert HeldWithin(cells, k, r);
      var o :| o in k && IsLive(cells, o) && r in cells[o].slots;
      SlotCounts(cells, |cells|, o, r);
    }
  }

  lemma StaysSelfHeld(cells: Cells, after: Cells, k: set<Ref>)
    requires SelfHeld(cells, k)
    requires forall r :: r in k && IsLive(cells, r) ==> IsLive(after, r) && after[r].slots == cells[r].slots
    ensures SelfHeld(after, k)
  {
    forall r | r in k
      ensures HeldWithin(after, k, r)
    {
      assert HeldWithin(cells, k, r);
    }
  }

  lemma HandedOver(base: multiset<Ref>, slots: seq<Ref>, i: nat)
    requires i < |slots|
    ensures slots[i] in base + multiset(slots[i..])
    ensures base + multiset(slots[i..]) - multiset{slots[i]} == base + multiset(slots[i + 1..])
  {
    assert slots[i..] == [slots[i]] + slots[i + 1..];
  }

  /** The heap after slot `i` of `container` has been emptied. */
  function SlotTaken(cells: Cells, container: Ref, i: nat): Cells
    requires IsLive(cells, container) && i < |cells[container].slots|
  {
    var slots := cells[container].slots;
    cells[container := Live(cells[container].count, slots[..i] + slots[i + 1..])]
  }

  lemma PutBack(slots: seq<Ref>, i: nat, value: Ref)
    requires i < |slots|
    ensures var rest := slots[..i] + slots[i + 1..];
            rest[..i] + [value] + rest[i..] == slots[i := value]
  {}

  class ObjectHeap {
    var cells: Cells
    ghost var owners: multiset<Ref>

    /** Between the operations of a program, no deinit is in progress. */
    ghost predicate Valid()
      reads this
    {
      && Accounted(cells, owners) && Settled(cells)
      && forall r :: 0 <= r < |cells| ==> !cells[r].Dying?
    }

    constructor ()
      ensures Valid() && cells == [] && owners == multiset{}
    {
      cells, owners := [], multiset{};
    }

    /** `KObjectNew` */
    method New() returns (r: Ref)
      requires Valid()
      modifies this
      ensures Valid() && r == old(|cells|) && cells == old(cells) + [Live(1, [])]
      ensures owners == old(owners) + multiset{r}
    {
      r := |cells|;
      assert CountOf(cells, r) == owners[r] + Incoming(cells, |cells|, r);
      forall q: Ref
        ensures CountOf(cells + [Live(1, [])], q) ==
                (owners + multiset{r})[q] + Incoming(cells + [Live(1, [])], |cells| + 1, q)
      {
        IncomingPrefix(cells, Live(1, []), |cells|, q);
        assert CountOf(cells, q) == owners[q] + Incoming(cells, |cells|, q);
      }
      cells := cells + [Live(1, [])];
      owners := owners + multiset{r};
    }

    /** `KObjectRetain` */
    method Retain(object_: Option<Ref>)
      requires Valid() && (object_.Some? ==> IsLive(cells, object_.value))
      modifies this
      ensures Valid() && owners == if object_.Some? then old(owners) + multiset{object_.value} else old(owners)
      ensures object_.Some? ==>
                cells == old(cells)[object_.value :=
                  Live(old(cells[object_.value].count) + 1, old(cells[object_.value].slots))]
      ensures object_.None? ==> cells == old(cells)
    {
      if object_.None? {
        return;
      }
      var r := object_.value;
      AccountUpdate(cells, owners, r, Live(cells[r].count + 1, cells[r].slots), owners + multiset{r});
      cells := cells[r := Live(cells[r].count + 1, cells[r].slots)];
      owners := owners + multiset{r};
    }

    /** A container takes up an object: it retains it and keeps the reference in a slot. */
    method AddSlot(container: Ref, item: Ref)
      requires Valid() && IsLive(cells, container) && IsLive(cells, item)
      modifies this
      ensures Valid() && owners == old(owners) && |cells| == old(|cells|)
      ensures forall r: Ref :: r < |cells| ==> (cells[r].Live? <==> old(cells)[r].Live?)
      ensures forall r: Ref :: r < |cells| && cells[r].Live? ==>
                cells[r].slots == old(cells)[r].slots + (if r == container then [item] else [])
    {
      Retain(Some(item));
      StoreReference(container, |cells[container].slots|, item);
    }

    /** A reference passes from an external owner into a new slot, at position `i`. */
    method StoreReference(container: Ref, i: nat, item: Ref)
      requires Valid() && IsLive(cells, container) && item in owners && i <= |cells[container].slots|
      modifies this
      ensures Valid() && owners == old(owners) - multiset{item}
      ensures cells == old(cells)[container :=
                Live(old(cells[container].count),
                     old(cells[container].slots[..i]) + [item] + old(cells[container].slots[i..]))]
    {
      var slots := cells[container].slots;
      SlotAdded(cells, owners, container, i, item);
      cells := cells[container := Live(cells[container].count, slots[..i] + [item] + slots[i..])];
      owners := owners - multiset{item};
    }

    /** A container hands the reference in one of its slots to the caller. */
    method TakeSlot(container: Ref, i: nat) returns (item: Ref)
      requires Valid() && IsLive(cells, container) && i < |cells[container].slots|
      modifies this
      ensures Valid() && item == old(cells[container].slots[i])
      ensures owners == old(owners) + multiset{item}
      ensures cells == SlotTaken(old(cells), container, i)
    {
      var slots := cells[container].slots;
      item := slots[i];
      assert slots == slots[..i] + [item] + slots[i + 1..];
      var cell := Live(cells[container].count, slots[..i] + slots[i + 1..]);
      assert multiset(slots) == multiset(cell.slots) + multiset{item};
      AccountUpdate(cells, owners, container, cell, owners + multiset{item});
      cells := cells[container := cell];
      owners := owners + multiset{item};
    }

    /** `KObjectRelease` of a reference that a program owns. In any heap, those objects stay
        alive that the remaining owners could reach before, or that hang on a cycle: the
        cycles are what a release cannot reclaim. So exactly the reachable objects stay alive
        if and only if every cycle is reachable. */
    method Release(object_: Option<Ref>)
      requires Valid() && (object_.Some? ==> object_.value in owners)
      modifies this
      ensures Valid() && Evolves(old(cells), cells)
      ensures owners == if object_.Some? then old(owners) - multiset{object_.value} else old(owners)
      ensures forall r: Ref ::
                IsLive(cells, r) <==> Reachable(old(cells), owners, r) || HangsOnCycle(old(cells), r)
      ensures (forall r: Ref :: IsLive(cells, r) <==> Reachable(old(cells), owners, r)) <==>
              (forall c: Ref :: OnCycle(old(cells), c) ==> Reachable(old(cells), owners, c))
    {
      ghost var k := Hanging(cells);
      HangingIsSelfHeld(cells);
      if object_.Some? {
        ReleaseReference(object_.value, k);
      }
      SurvivorsAre(old(cells), cells, owners);
      ExactReclamation(old(cells), cells, owners);
    }

    /** The exchange of the reference in slot `i` in the order of `KMapSetValueNoRehash`: the
        old object is released before the new one is retained. The new one is still alive then
        if and only if, without the slot, an owner reaches it or it hangs on a cycle; in
        particular if it has an owner. Nothing is promised when it is not. */
    method ExchangeSlot(container: Ref, i: nat, value: Ref) returns (alive: bool)
      requires Valid() && container in owners && IsLive(cells, container) && i < |cells[container].slots|
      modifies this
      ensures var gap := SlotTaken(old(cells), container, i);
              alive <==> Reachable(gap, owners, value) || HangsOnCycle(gap, value)
      ensures old(IsLive(cells, value)) && value in old(owners) ==> alive
      ensures owners == old(owners) && Valid()
      ensures alive <==> IsLive(cells, value)
      ensures alive ==> IsLive(cells, container) && cells[container].slots == old(cells[container].slots)[i := value]
    {
      ghost var before := cells[container].slots;
      EmptySlot(container, i);
      alive := IsLive(cells, value);
      if value in owners {
        OwnedIsLive(cells, owners, value);
      }
      if alive {
        FillSlot(container, i, value);
        PutBack(before, i, value);
      }
    }

    /** The reference in a slot is released. */
    method EmptySlot(container: Ref, i: nat)
      requires Valid() && container in owners && IsLive(cells, container) && i < |cells[container].slots|
      modifies this
      ensures Valid() && owners == old(owners)
      ensures var gap := SlotTaken(old(cells), container, i);
              && (forall r: Ref :: IsLive(cells, r) <==> Reachable(gap, owners, r) || HangsOnCycle(gap, r))
              && IsLive(cells, container) && cells[container].slots == gap[container].slots
    {
      var item := TakeSlot(container, i);
      Release(Some(item));
      OwnedIsLive(cells, owners, container);
    }

    /** A live object is retained and put into a new slot at position `i`. */
    method FillSlot(container: Ref, i: nat, value: Ref)
      requires Valid() && IsLive(cells, container) && IsLive(cells, value) && i <= |cells[container].slots|
      modifies this
      ensures Valid() && owners == old(owners) && IsLive(cells, container) && IsLive(cells, value)
      ensures cells[container].slots ==
              old(cells[container].slots)[..i] + [value] + old(cells[container].slots)[i..]
    {
      Retain(Some(value));
      StoreReference(container, i, value);
    }

    /** The cascade. While an object is dying, its deinit counts as the external owner of the
        slots it has yet to release. Nothing here asks the ownership to be acyclic; whatever
        set `k` of objects is held by its own slots stays alive. */
    method ReleaseReference(r: Ref, ghost k: set<Ref>)
      requires Accounted(cells, owners) && Settled(cells) && r in owners && SelfHeld(cells, k)
      modifies this
      ensures Accounted(cells, owners) && Settled(cells) && SelfHeld(cells, k)
      ensures owners == old(owners) - multiset{r}
      ensures Evolves(old(cells), cells)
      decreases LiveCount(cells, |cells|), 1
    {
      OwnedIsLive(cells, owners, r);
      var cell := cells[r];
      if cell.count > 1 {
        OneOfMany(cells, owners, r);
        StaysSelfHeld(cells, cells[r := Live(cell.count - 1, cell.slots)], k);
        cells := cells[r := Live(cell.count - 1, cell.slots)];
        owners := owners - multiset{r};
      } else {
        LastIsNotHeld(cells, owners, r, k);
        Die(r, k);
      }
    }

    /** The last reference to an object goes: its deinit, and then its memory. */
    method Die(r: Ref, ghost k: set<Ref>)
      requires Accounted(cells, owners) && Settled(cells) && r in owners && SelfHeld(cells, k) && r !in k
      requires IsLive(cells, r) && cells[r].count == 1
      modifies this
      ensures Accounted(cells, owners) && Settled(cells) && SelfHeld(cells, k)
      ensures owners == old(owners) - multiset{r}
      ensures Evolves(old(cells), cells) && cells[r].Freed?
      decreases LiveCount(cells, |cells|), 0
    {
      var cell := cells[r];
      LastReference(cells, owners, r);
      LiveCountDies(cells, r, |cells|);
      StaysSelfHeld(cells, cells[r := Dying], k);
      ghost var base := owners - multiset{r};
      cells := cells[r := Dying];
      owners := base + multiset(cell.slots);
      ReleaseSlots(cell.slots, base, k);
      AccountUpdate(cells, owners, r, Freed, owners);
      StaysSelfHeld(cells, cells[r := Freed], k);
      cells := cells[r := Freed];
    }

    /** The loop of a deinit routine. */
    method ReleaseSlots(slots: seq<Ref>, ghost base: multiset<Ref>, ghost k: set<Ref>)
      requires Accounted(cells, owners) && Settled(cells) && owners == base + multiset(slots) && SelfHeld(cells, k)
      modifies this
      ensures Accounted(cells, owners) && Settled(cells) && owners == base && SelfHeld(cells, k)
      ensures Evolves(old(cells), cells)
      decreases LiveCount(cells, |cells|), 2
    {
      assert slots[0..] == slots;
      var i := 0;
      while i < |slots|
        invariant 0 <= i <= |slots|
        invariant Accounted(cells, owners) && Settled(cells) && SelfHeld(cells, k)
        invariant owners == base + multiset(slots[i..])
        invariant Evolves(old(cells), cells)
      {
        HandedOver(base, slots, i);
        LiveCountEvolves(old(cells), cells, |cells|);
        ReleaseReference(slots[i], k);
        i := i + 1;
      }
    }
  }

  lemma {:induction false} IncomingPrefix(cells: Cells, cell: Cell, n: nat, r: Ref)
    requires n <= |cells|
    ensures Incoming(cells + [cell], n, r) == Incoming(cells, n, r)
  {
    if n > 0 {
      IncomingPrefix(cells, cell, n - 1, r);
    }
  }

  // ----- what is reclaimed

  /** A walk from object to object along slots. */
  ghost predicate Chain(cells: Cells, p: seq<Ref>) {
    && p != []
    && (forall i :: 0 <= i < |p| ==> IsLive(cells, p[i]))
    && (forall i :: 0 < i < |p| ==> p[i] in cells[p[i - 1]].slots)
  }

  ghost predicate Reaches(cells: Cells, a: Ref, b: Ref) {
    exists p :: Chain(cells, p) && p[0] == a && p[|p| - 1] == b
  }

  ghost predicate OnCycle(cells: Cells, a: Ref) {
    exists p :: Chain(cells, p) && |p| > 1 && p[0] == a && p[|p| - 1] == a
  }

  /** Some cycle, through however many others, holds the object. */
  ghost predicate HangsOnCycle(cells: Cells, r: Ref) {
    exists c :: OnCycle(cells, c) && Reaches(cells, c, r)
  }

  ghost predicate Reachable(cells: Cells, owners: multiset<Ref>, r: Ref) {
    exists a :: a in owners && Reaches(cells, a, r)
  }

  ghost predicate Distinct(p: seq<Ref>) {
    forall i, j :: 0 <= i < j < |p| ==> p[i] != p[j]
  }

  lemma {:induction false} Pigeonhole(p: seq<Ref>, n: nat)
    requires Distinct(p) && forall i :: 0 <= i < |p| ==> p[i] < n
    ensures |p| <= n
  {
    if p != [] {
      assert p[0] < n;
      if n - 1 in p {
        var i :| 0 <= i < |p| && p[i] == n - 1;
        Pigeonhole(p[..i] + p[i + 1..], n - 1);
      } else {
        Pigeonhole(p, n - 1);
      }
    }
  }

  lemma {:induction false} SlotOwner(cells: Cells, n: nat, r: Ref) returns (o: Ref)
    requires n <= |cells| && Incoming(cells, n, r) > 0
    ensures IsLive(cells, o) && r in cells[o].slots
  {
    if Out(cells[n - 1], r) > 0 {
      o := n - 1;
    } else {
      o := SlotOwner(cells, n - 1, r);
    }
  }

  lemma {:induction false} SlotCounts(cells: Cells, n: nat, o: Ref, r: Ref)
    requires o < n <= |cells| && cells[o].Live? && r in cells[o].slots
    ensures Incoming(cells, n, r) > 0
  {
    if o < n - 1 {
      SlotCounts(cells, n - 1, o, r);
    }
  }

  /** Walking backwards from the head of `p` ends at an external owner or in a cycle. */
  lemma {:induction false} WalkBack(cells: Cells, owners: multiset<Ref>, p: seq<Ref>)
    requires Accounted(cells, owners) && Settled(cells) && Chain(cells, p) && Distinct(p)
    ensures Reachable(cells, owners, p[|p| - 1]) || HangsOnCycle(cells, p[|p| - 1])
    decreases |cells| - |p|
  {
    var x := p[0];
    assert CountOf(cells, x) == owners[x] + Incoming(cells, |cells|, x);
    if x in owners {
      assert Reaches(cells, x, p[|p| - 1]);
    } else {
      var o := SlotOwner(cells, |cells|, x);
      var q := [o] + p;
      assert Chain(cells, q);
      if o in p {
        var i :| 0 <= i < |p| && p[i] == o;
        assert Chain(cells, q[..i + 2]);
        assert OnCycle(cells, o);
        assert Reaches(cells, o, p[|p| - 1]);
      } else {
        Pigeonhole(q, |cells|);
        WalkBack(cells, owners, q);
      }
    }
  }

  lemma {:induction false} ChainFromOwnerIsLive(cells: Cells, owners: multiset<Ref>, old_: Cells, p: seq<Ref>)
    requires Accounted(cells, owners) && p != [] && p[0] in owners && Chain(old_, p)
    requires |cells| == |old_|
    requires forall r: Ref :: IsLive(cells, r) && IsLive(old_, r) ==> cells[r].slots == old_[r].slots
    ensures Chain(cells, p)
  {
    if |p| == 1 {
      OwnedIsLive(cells, owners, p[0]);
    } else {
      var front, last := p[..|p| - 1], p[|p| - 1];
      ChainFromOwnerIsLive(cells, owners, old_, front);
      var o := front[|front| - 1];
      assert IsLive(cells, o) && last in old_[o].slots;
      SlotCounts(cells, |cells|, o, last);
      assert CountOf(cells, last) == owners[last] + Incoming(cells, |cells|, last);
    }
  }

  /** Every object alive is kept so by an external owner or by a cycle. */
  lemma LiveIsReachableOrCyclic(cells: Cells, owners: multiset<Ref>, r: Ref)
    requires Accounted(cells, owners) && Settled(cells) && IsLive(cells, r)
    ensures Reachable(cells, owners, r) || HangsOnCycle(cells, r)
  {
    assert Chain(cells, [r]);
    WalkBack(cells, owners, [r]);
  }

  lemma ReachableGoesOn(cells: Cells, owners: multiset<Ref>, c: Ref, r: Ref)
    requires Reachable(cells, owners, c) && Reaches(cells, c, r)
    ensures Reachable(cells, owners, r)
  {
    var a :| a in owners && Reaches(cells, a, c);
    var p :| Chain(cells, p) && p[0] == a && p[|p| - 1] == c;
    var q :| Chain(cells, q) && q[0] == c && q[|q| - 1] == r;
    var joined := p + q[1..];
    forall i | 0 < i < |joined|
      ensures joined[i] in cells[joined[i - 1]].slots
    {
      if i >= |p| {
        assert joined[i] == q[i - |p| + 1] && joined[i - 1] == q[i - |p|];
      }
    }
    assert Chain(cells, joined) && joined[0] == a && joined[|joined| - 1] == r;
    assert Reaches(cells, a, r);
  }

  // ----- what survives a release

  ghost function Hanging(cells: Cells): set<Ref> {
    set r: Ref | r < |cells| && HangsOnCycle(cells, r)
  }

  /** One more slot leads from an object that hangs on a cycle to another. */
  lemma HangingHolder(cells: Cells, c: Ref, p: seq<Ref>)
    requires OnCycle(cells, c) && Chain(cells, p) && p[0] == c && |p| > 1
    ensures p[|p| - 2] in Hanging(cells) && p[|p| - 1] in cells[p[|p| - 2]].slots
  {
    var front := p[..|p| - 1];
    assert Chain(cells, front) && front[|front| - 1] == p[|p| - 2];
    assert Reaches(cells, c, p[|p| - 2]);
  }

  lemma HangingIsSelfHeld(cells: Cells)
    ensures SelfHeld(cells, Hanging(cells))
  {
    forall r | r in Hanging(cells)
      ensures IsLive(cells, r) && HeldWithin(cells, Hanging(cells), r)
    {
      var c :| OnCycle(cells, c) && Reaches(cells, c, r);
      var p :| Chain(cells, p) && p[0] == c && p[|p| - 1] == r;
      if |p| > 1 {
        HangingHolder(cells, c, p);
      } else {
        var q :| Chain(cells, q) && |q| > 1 && q[0] == c && q[|q| - 1] == c;
        HangingHolder(cells, c, q);
      }
    }
  }

  lemma ChainWasThere(before: Cells, after: Cells, p: seq<Ref>)
    requires Evolves(before, after) && Chain(after, p)
    ensures Chain(before, p)
  {}

  /** After releases in any heap, the objects alive are those that the remaining external
      owners could reach before them and those that hung on a cycle. */
  lemma SurvivorsAre(before: Cells, after: Cells, owners: multiset<Ref>)
    requires Accounted(after, owners) && Settled(after) && Evolves(before, after)
    requires SelfHeld(after, Hanging(before))
    ensures forall r: Ref :: IsLive(after, r) <==> Reachable(before, owners, r) || HangsOnCycle(before, r)
  {
    forall r: Ref
      ensures IsLive(after, r) <==> Reachable(before, owners, r) || HangsOnCycle(before, r)
    {
      if IsLive(after, r) {
        LiveIsReachableOrCyclic(after, owners, r);
        ReasonWasThere(before, after, owners, r);
      }
      if Reachable(before, owners, r) {
        var a :| a in owners && Reaches(before, a, r);
        var p :| Chain(before, p) && p[0] == a && p[|p| - 1] == r;
        ChainFromOwnerIsLive(after, owners, before, p);
      }
    }
  }

  lemma ReasonWasThere(before: Cells, after: Cells, owners: multiset<Ref>, r: Ref)
    requires Evolves(before, after) && (Reachable(after, owners, r) || HangsOnCycle(after, r))
    ensures Reachable(before, owners, r) || HangsOnCycle(before, r)
  {
    if Reachable(after, owners, r) {
      var a :| a in owners && Reaches(after, a, r);
      var p :| Chain(after, p) && p[0] == a && p[|p| - 1] == r;
      ChainWasThere(before, after, p);
      assert Reaches(before, a, r);
    } else {
      var c :| OnCycle(after, c) && Reaches(after, c, r);
      var q :| Chain(after, q) && |q| > 1 && q[0] == c && q[|q| - 1] == c;
      var p :| Chain(after, p) && p[0] == c && p[|p| - 1] == r;
      ChainWasThere(before, after, q);
      ChainWasThere(before, after, p);
      assert OnCycle(before, c) && Reaches(before, c, r);
    }
  }

  /** Exactly the reachable objects survive if and only if every cycle there was is
      reachable from the remaining owners. */
  lemma ExactReclamation(before: Cells, after: Cells, owners: multiset<Ref>)
    requires forall r: Ref :: IsLive(after, r) <==> Reachable(before, owners, r) || HangsOnCycle(before, r)
    ensures (forall r: Ref :: IsLive(after, r) <==> Reachable(before, owners, r)) <==>
            (forall c: Ref :: OnCycle(before, c) ==> Reachable(before, owners, c))
  {
    if forall r: Ref :: IsLive(after, r) <==> Reachable(before, owners, r) {
      forall c: Ref | OnCycle(before, c)
        ensures Reachable(before, owners, c)
      {
        assert Chain(before, [c]);
        assert Reaches(before, c, c);
      }
    }
    if forall c: Ref :: OnCycle(before, c) ==> Reachable(before, owners, c) {
      forall r: Ref | HangsOnCycle(before, r)
        ensures Reachable(before, owners, r)
      {
        var c :| OnCycle(before, c) && Reaches(before, c, r);
        ReachableGoesOn(before, owners, c, r);
      }
    }
  }

  /** The same of a heap at rest: exactly the reachable objects are alive if and only if
      every cycle is reachable. */
  lemma ExactAtRest(cells: Cells, owners: multiset<Ref>)
    requires Accounted(cells, owners) && Settled(cells)
    ensures (forall r: Ref :: IsLive(cells, r) <==> Reachable(cells, owners, r)) <==>
            (forall c: Ref :: OnCycle(cells, c) ==> Reachable(cells, owners, c))
  {
    HangingIsSelfHeld(cells);
    SurvivorsAre(cells, cells, owners);
    ExactReclamation(cells, cells, owners);
  }

  ghost predicate OwnEachOther(cells: Cells, a: Ref, b: Ref) {
    IsLive(cells, a) && IsLive(cells, b) && b in cells[a].slots && a in cells[b].slots
  }

  lemma TwoCycle(cells: Cells, a: Ref, b: Ref)
    requires OwnEachOther(cells, a, b)
    ensures HangsOnCycle(cells, a) && HangsOnCycle(cells, b)
  {
    assert Chain(cells, [a, b, a]) && Chain(cells, [a]) && Chain(cells, [a, b]);
    assert OnCycle(cells, a) && Reaches(cells, a, a) && Reaches(cells, a, b);
  }

  lemma ChainStops(cells: Cells, p: seq<Ref>, i: nat)
    requires Chain(cells, p) && i < |p| && cells[p[i]].slots == []
    ensures i == |p| - 1
  {
    if i + 1 < |p| {
      ChainLink(cells, p, i + 1);
      assert false;
    }
  }

  lemma ChainLink(cells: Cells, p: seq<Ref>, i: nat)
    requires Chain(cells, p) && 0 < i < |p|
    ensures p[i] in cells[p[i - 1]].slots
  {}

  lemma NestedIsLost(cells: Cells, a: Ref, b: Ref, c: Ref)
    requires |cells| == 3 && a != b && b != c && a != c
    requires IsLive(cells, a) && IsLive(cells, b) && IsLive(cells, c)
    requires cells[a].slots == [] && cells[b].slots == [c] && cells[c].slots == []
    ensures !Reachable(cells, multiset{a}, c) && !HangsOnCycle(cells, c)
  {
    forall p | Chain(cells, p)
      ensures |p| == 1 || (|p| == 2 && p[0] == b && p[1] == c)
    {
      if |p| > 1 {
        assert p[1] in cells[p[0]].slots;
        ChainStops(cells, p, 1);
      }
    }
  }

  /** The input on which the exchange fails: an entry is the only owner of its value, and
      that one the only owner of the value it is to be replaced by. */
  method ExchangeOfNested() returns (heap: ObjectHeap, entry: Ref, value: Ref, alive: bool)
    ensures fresh(heap) && !alive && !IsLive(heap.cells, value)
  {
    heap := new ObjectHeap();
    entry := heap.New();
    var oldValue := heap.New();
    value := heap.New();
    heap.StoreReference(oldValue, 0, value);
    heap.StoreReference(entry, 0, oldValue);
    NestedIsLost(SlotTaken(heap.cells, entry, 0), entry, oldValue, value);
    alive := heap.ExchangeSlot(entry, 0, value);
  }

  method MakeCycle() returns (heap: ObjectHeap, a: Ref, b: Ref)
    ensures fresh(heap) && heap.Valid() && heap.owners == multiset{a, b}
    ensures OwnEachOther(heap.cells, a, b)
  {
    heap := new ObjectHeap();
    a := heap.New();
    b := heap.New();
    heap.AddSlot(a, b);
    heap.AddSlot(b, a);
  }

  /** Two objects that own each other outlive their last owner: the input on which exact
      reclamation fails. */
  method CycleLeaks() returns (heap: ObjectHeap, a: Ref, b: Ref)
    ensures fresh(heap) && heap.Valid() && heap.owners == multiset{}
    ensures IsLive(heap.cells, a) && IsLive(heap.cells, b)
    ensures !Reachable(heap.cells, heap.owners, a) && !Reachable(heap.cells, heap.owners, b)
  {
    heap, a, b := MakeCycle();
    TwoCycle(heap.cells, a, b);
    heap.Release(Some(a));
    TwoCycle(heap.cells, a, b);
    heap.Release(Some(b));
  }
}
