/** Object references and the ledger of references that the containers hold.
    The count of one object in the ledger is what its `ref_count` field would
    contribute for those containers; ReleaseCascade.dfy models what happens when a
    count reaches zero. The ledger also decides about requests for memory. */
module References {

  /** A non-NULL `KObjectRef`: object identity is all that the containers look at. */
  type Ref = nat

  datatype Option<+T> = None | Some(value: T)

  /** Besides the references, a ledger decides about requests for memory: `grants` says of
      each request that will ever be made whether it is granted, and `asked` how many have been
      made. Nothing is known of `grants`, so every pattern of failures is covered. */
  class Ledger {
    var refs: multiset<Ref>
    const grants: nat -> bool
    var asked: nat

    constructor (grants: nat -> bool)
      ensures refs == multiset{} && asked == 0 && this.grants == grants
    {
      refs, asked := multiset{}, 0;
      this.grants := grants;
    }

    /** All requests from number `first` up to but not including number `last` are granted. */
    ghost predicate Granted(first: nat, last: nat) {
      forall n :: first <= n < last ==> grants(n)
    }

    method Allocate() returns (ok: bool)
      modifies this`asked
      ensures ok == grants(old(asked)) && asked == old(asked) + 1
    {
      ok := grants(asked);
      asked := asked + 1;
    }

    method Retain(r: Ref)
      modifies this`refs
      ensures refs == old(refs) + multiset{r}
    {
      refs := refs + multiset{r};
    }

    method Release(r: Ref)
      requires r in refs
      modifies this`refs
      ensures refs == old(refs) - multiset{r}
    {
      refs := refs - multiset{r};
    }
  }

  lemma RetainedToo(items: seq<Ref>, item: Ref, refs: multiset<Ref>)
    requires multiset(items) <= refs
    ensures multiset(items + [item]) <= refs + multiset{item}
  {}

  /** One step of a loop that releases a sequence of held references in order. */
  lemma ReleasedPrefix(items: seq<Ref>, i: nat, refs: multiset<Ref>)
    requires i < |items| && multiset(items) <= refs
    ensures items[i] in refs - multiset(items[..i])
    ensures refs - multiset(items[..i]) - multiset{items[i]} == refs - multiset(items[..i + 1])
  {
    assert items[..i + 1] == items[..i] + [items[i]];
    assert items == items[..i + 1] + items[i + 1..];
    assert multiset(items) == multiset(items[..i]) + multiset{items[i]} + multiset(items[i + 1..]);
  }
}
