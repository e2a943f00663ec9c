/** What `_initPropertyChain` achieves. The owners' values end up delegating
    to one another in ancestor order. Over fresh values, a second run changes
    nothing. Keys of every value in the chain are visible from the most
    derived one. The walk does not depend on non-owners and does not look
    past the sentinel. */
module ChainProperties {
  import opened Wrappers
  import opened JsObjects
  import opened Ancestry
  import opened Linker

  /** The objects `vs` as values. */
  function Refs(vs: seq<ObjId>): (r: seq<Val>)
    ensures |r| == |vs|
    ensures forall i :: 0 <= i < |vs| ==> r[i] == Ref(vs[i])
  {
    seq(|vs|, i requires 0 <= i < |vs| => Ref(vs[i]))
  }

  /** Objects that linking in this order can chain together: all exist,
      every one but the last is extensible and not yet linked to the next,
      and no object's existing prototype chain already reaches a more
      derived one (so no link would close a cycle). */
  predicate Fresh(h: Heap, vs: seq<ObjId>) {
    && (forall i :: 0 <= i < |vs| ==> vs[i] in h)
    && (forall i :: 0 <= i < |vs| - 1 ==> h[vs[i]].extensible && h[vs[i]].proto != Some(vs[i + 1]))
    && (forall i, j :: 0 <= i < j < |vs| ==> vs[i] !in Walk(h, Some(vs[j]), {}))
  }

  /** Each object's prototype is the next object of `vs`. */
  predicate Chained(h: Heap, vs: seq<ObjId>) {
    forall i :: 0 <= i < |vs| - 1 ==> vs[i] in h && h[vs[i]].proto == Some(vs[i + 1])
  }

  /** The objects of `vs` whose prototype linking sets. */
  function Linked(vs: seq<ObjId>): set<ObjId> {
    set i | 0 <= i < |vs| - 1 :: vs[i]
  }

  lemma RefsAllIn(h: Heap, vs: seq<ObjId>)
    requires forall i :: 0 <= i < |vs| ==> vs[i] in h
    ensures AllIn(h, Refs(vs))
  {
  }

  lemma RefsTail(vs: seq<ObjId>)
    requires |vs| > 0
    ensures Refs(vs)[1..] == Refs(vs[1..])
    ensures Refs(vs)[0] == Ref(vs[0])
  {
  }

  lemma FreshDistinct(h: Heap, vs: seq<ObjId>, i: int, j: int)
    requires Fresh(h, vs) && 0 <= i < j < |vs|
    ensures vs[i] != vs[j]
  {
    WalkStartsAt(h, vs[j], {});
  }

  /** The first link of a fresh sequence is made, and what is left of the
      sequence is still fresh. */
  lemma FreshStep(h: Heap, vs: seq<ObjId>) returns (h1: Heap)
    requires |vs| > 1 && Fresh(h, vs)
    ensures LinkStep(h, Ref(vs[0]), Ref(vs[1])) == Next(h1)
    ensures h1[vs[0]].proto == Some(vs[1])
    ensures OnlyProtosOf(h, h1, {vs[0]})
    ensures Fresh(h1, vs[1..])
  {
    var v0, v1 := vs[0], vs[1];
    FreshDistinct(h, vs, 0, 1);
    var step := LinkStep(h, Ref(v0), Ref(v1));
    assert step.Next?;
    h1 := step.heap;
    assert [Ref(v0)][0] == Ref(v0);
    assert RefIds([Ref(v0)]) == {v0};
    var rest := vs[1..];
    forall j | 0 <= j < |rest|
      ensures Walk(h1, Some(rest[j]), {}) == Walk(h, Some(rest[j]), {})
    {
      assert rest[j] == vs[j + 1];
      WalkFrame(h, h1, Some(rest[j]), {}, {v0});
    }
    forall i | 0 <= i < |rest| - 1
      ensures h1[rest[i]].extensible && h1[rest[i]].proto != Some(rest[i + 1])
    {
      FreshDistinct(h, vs, 0, i + 1);
    }
  }

  lemma LinkedCons(vs: seq<ObjId>)
    requires |vs| > 1
    ensures Linked(vs) == {vs[0]} + Linked(vs[1..])
  {
    var rest := vs[1..];
    forall o | o in Linked(rest) ensures o in Linked(vs) {
      var i :| 0 <= i < |rest| - 1 && rest[i] == o;
      assert vs[i + 1] == o;
    }
    forall o | o in Linked(vs) ensures o in {vs[0]} + Linked(rest) {
      var i :| 0 <= i < |vs| - 1 && vs[i] == o;
      if i > 0 { assert rest[i - 1] == o; }
    }
  }

  /** Linking a fresh sequence whose first object is already the previous
      value: every link is made, and only the objects but the last change. */
  lemma {:induction false} LinkFreshFrom(h: Heap, vs: seq<ObjId>)
    requires |vs| > 0 && Fresh(h, vs)
    ensures AllIn(h, Refs(vs[1..]))
    ensures var r := LinkValues(h, Refs(vs[1..]), Ref(vs[0]));
      && r.outcome == Success(())
      && Chained(r.heap, vs)
      && OnlyProtosOf(h, r.heap, Linked(vs))
    decreases |vs|
  {
    RefsAllIn(h, vs[1..]);
    if |vs| == 1 {
      assert Refs(vs[1..]) == [];
    } else {
      var v0, v1 := vs[0], vs[1];
      var rest := vs[1..];
      RefsTail(rest);
      var h1 := FreshStep(h, vs);
      LinkFreshFrom(h1, rest);
      var r := LinkValues(h1, Refs(rest[1..]), Ref(rest[0]));
      assert LinkValues(h, Refs(rest), Ref(v0)) == r;
      assert v0 !in Linked(rest) by {
        forall i | 0 <= i < |rest| - 1 ensures rest[i] != v0 {
          FreshDistinct(h, vs, 0, i + 1);
        }
      }
      assert r.heap[v0].proto == Some(v1);
      assert Chained(r.heap, vs) by {
        forall i | 0 <= i < |vs| - 1 ensures vs[i] in r.heap && r.heap[vs[i]].proto == Some(vs[i + 1]) {
          if i > 0 {
            assert vs[i] == rest[i - 1] && vs[i + 1] == rest[i];
          }
        }
      }
      LinkedCons(vs);
      OnlyProtosOfTrans(h, h1, r.heap, {v0}, Linked(rest), Linked(vs));
    }
  }

  /** Linking the values of fresh objects, starting as the loop starts with no
      previous value, makes every link and touches nothing else. */
  lemma LinkFresh(h: Heap, vs: seq<ObjId>)
    requires Fresh(h, vs)
    ensures AllIn(h, Refs(vs))
    ensures var r := LinkValues(h, Refs(vs), Undefined);
      r.outcome == Success(()) && Chained(r.heap, vs) && OnlyProtosOf(h, r.heap, Linked(vs))
  {
    RefsAllIn(h, vs);
    if |vs| > 0 {
      RefsTail(vs);
      LinkFreshFrom(h, vs);
    }
  }

  /** Linking values that already delegate in order stops at the first
      existing link, so the heap is left exactly as it was. */
  lemma ChainedIsStable(h: Heap, vs: seq<ObjId>)
    requires (forall i :: 0 <= i < |vs| ==> vs[i] in h) && Chained(h, vs)
    ensures AllIn(h, Refs(vs))
    ensures LinkValues(h, Refs(vs), Undefined) == Completion(h, Success(()))
  {
    RefsAllIn(h, vs);
    if |vs| == 1 {
      assert Refs(vs)[1..] == [];
    } else if |vs| > 1 {
      RefsTail(vs);
      RefsTail(vs[1..]);
      assert LinkStep(h, Ref(vs[0]), Ref(vs[1])) == Stop;
    }
  }

  /** The loop trusts the first link it finds in place: when the most derived
      value already delegates to the next one, linking stops there and leaves
      the heap as it was, whether or not the values further up are linked. */
  lemma EarlyStopAtExistingLink(h: Heap, vs: seq<ObjId>)
    requires |vs| >= 2 && (forall i :: 0 <= i < |vs| ==> vs[i] in h)
    requires h[vs[0]].proto == Some(vs[1])
    ensures AllIn(h, Refs(vs))
    ensures LinkValues(h, Refs(vs), Undefined) == Completion(h, Success(()))
  {
    RefsAllIn(h, vs);
    RefsTail(vs);
    RefsTail(vs[1..]);
    assert LinkStep(h, Ref(vs[0]), Ref(vs[1])) == Stop;
  }

  /** Following the links from the first of chained objects reaches them all, in order. */
  lemma {:induction false} ChainedFollow(h: Heap, vs: seq<ObjId>, i: nat)
    requires Chained(h, vs) && i < |vs|
    ensures Follow(h, vs[0], i) == Some(vs[i])
    decreases i
  {
    if i > 0 {
      ChainedFollow(h, vs[1..], i - 1);
    }
  }

  /** Along chained objects, a key resolves to the value of the first object
      that owns it, within as many steps as there are objects. */
  lemma {:induction false} ChainedLookup(h: Heap, vs: seq<ObjId>, k: string, j: nat)
    requires Chained(h, vs) && (forall i :: 0 <= i < |vs| ==> vs[i] in h)
    requires j < |vs| && k in h[vs[j]].props
    requires forall i :: 0 <= i < j ==> k !in h[vs[i]].props
    ensures Lookup(h, vs[0], k, |vs|) == Some(h[vs[j]].props[k])
    decreases j
  {
    if j > 0 {
      ChainedLookup(h, vs[1..], k, j - 1);
    }
  }

  /** Along chained objects, a key none of them owns is not found within
      as many steps as there are objects. */
  lemma {:induction false} ChainedLookupMiss(h: Heap, vs: seq<ObjId>, k: string)
    requires |vs| > 0 && Chained(h, vs) && (forall i :: 0 <= i < |vs| ==> vs[i] in h)
    requires forall i :: 0 <= i < |vs| ==> k !in h[vs[i]].props
    ensures Lookup(h, vs[0], k, |vs|) == None
    decreases |vs|
  {
    if |vs| > 1 {
      ChainedLookupMiss(h, vs[1..], k);
    }
  }

  /** The heap after setting the prototype of `o` to `p`. */
  function WithProto(h: Heap, o: ObjId, p: ObjId): Heap
    requires o in h
  {
    h[o := h[o].(proto := Some(p))]
  }

  /** One link made on an object that may take it. */
  lemma LinkStepSets(h: Heap, v0: ObjId, v1: ObjId)
    requires v0 in h && v1 in h && h[v0].extensible && h[v0].proto != Some(v1)
    requires v0 !in Walk(h, Some(v1), {})
    ensures LinkStep(h, Ref(v0), Ref(v1)) == Next(WithProto(h, v0, v1))
  {
    var h1 := WithProto(h, v0, v1);
    var h' := SetPrototypeOf(h, Ref(v0), Ref(v1)).value.0;
    assert h'.Keys == h1.Keys;
    forall o | o in h' ensures h'[o] == h1[o] {
      if o == v0 {
        assert h'[o].proto == Some(v1);
      }
    }
  }

  /** Linking values whose tail already delegates in order, with a new most
      derived value in front: the one missing link is made and the loop stops
      at the next, existing, link. This is what creating a subclass of an
      already initialised class does to each chain. */
  lemma LinkExtendsChain(h: Heap, vs: seq<ObjId>)
    requires |vs| >= 2 && (forall i :: 0 <= i < |vs| ==> vs[i] in h) && Chained(h, vs[1..])
    requires forall i :: 1 <= i < |vs| ==> vs[i] != vs[0]
    requires h[vs[0]].extensible && h[vs[0]].proto != Some(vs[1])
    requires vs[0] !in Walk(h, Some(vs[1]), {})
    ensures AllIn(h, Refs(vs))
    ensures LinkValues(h, Refs(vs), Undefined) == Completion(WithProto(h, vs[0], vs[1]), Success(()))
    ensures Chained(WithProto(h, vs[0], vs[1]), vs)
  {
    RefsAllIn(h, vs);
    RefsTail(vs);
    RefsTail(vs[1..]);
    var v0, v1 := vs[0], vs[1];
    var h1 := WithProto(h, v0, v1);
    LinkStepSets(h, v0, v1);
    assert LinkValues(h, Refs(vs), Undefined) == LinkValues(h1, Refs(vs[1..])[1..], Ref(v1));
    if |vs| > 2 {
      RefsTail(vs[2..]);
      assert vs[1..][0] == v1 && vs[1..][1] == vs[2];
      assert LinkStep(h1, Ref(v1), Ref(vs[2])) == Stop;
    } else {
      assert Refs(vs[1..])[1..] == [];
    }
    forall i | 0 <= i < |vs| - 1 ensures vs[i] in h1 && h1[vs[i]].proto == Some(vs[i + 1]) {
      if i > 0 {
        assert vs[1..][i - 1] == vs[i];
      }
    }
  }

  /** `_initPropertyChain(name)` over owners whose values are fresh objects
      returns `this` and leaves each owner's value delegating to the next
      owner's value. */
  lemma InitPropertyChainLinks(h: Heap, chain: seq<Provider>, sentinel: ProviderId, name: string, vs: seq<ObjId>)
    requires |chain| > 0 && RefsIn(h, chain)
    requires Owners(chain, sentinel, name) == Refs(vs) && Fresh(h, vs)
    ensures var r := InitPropertyChain(h, chain, sentinel, name);
      r.outcome == Success(chain[0].id) && Chained(r.heap, vs) && OnlyProtosOf(h, r.heap, Linked(vs))
  {
    LinkWalkLinksOwners(h, chain, sentinel, name, Undefined);
    LinkFresh(h, vs);
  }

  /** After such a run, the property read on the most derived owner's value
      sees every key of every owner's value, the more derived owner winning. */
  lemma InitPropertyChainDelegates(h: Heap, chain: seq<Provider>, sentinel: ProviderId, name: string,
                                   vs: seq<ObjId>, k: string, j: nat)
    requires |chain| > 0 && RefsIn(h, chain)
    requires Owners(chain, sentinel, name) == Refs(vs) && Fresh(h, vs)
    requires j < |vs| && k in h[vs[j]].props
    requires forall i :: 0 <= i < j ==> k !in h[vs[i]].props
    ensures Lookup(InitPropertyChain(h, chain, sentinel, name).heap, vs[0], k, |vs|) == Some(h[vs[j]].props[k])
  {
    InitPropertyChainLinks(h, chain, sentinel, name, vs);
    var h' := InitPropertyChain(h, chain, sentinel, name).heap;
    ChainedLookup(h', vs, k, j);
  }

  /** Running `_initPropertyChain(name)` where the owners' values already
      delegate in order (a second instance of the same class, say) returns
      `this` and changes nothing. */
  lemma InitPropertyChainStable(h: Heap, chain: seq<Provider>, sentinel: ProviderId, name: string, vs: seq<ObjId>)
    requires |chain| > 0 && RefsIn(h, chain)
    requires Owners(chain, sentinel, name) == Refs(vs)
    requires (forall i :: 0 <= i < |vs| ==> vs[i] in h) && Chained(h, vs)
    ensures InitPropertyChain(h, chain, sentinel, name) == Completion(h, Success(chain[0].id))
  {
    LinkWalkLinksOwners(h, chain, sentinel, name, Undefined);
    ChainedIsStable(h, vs);
  }

  /** Over fresh owners' values, running `_initPropertyChain(name)` twice is
      the same as running it once. Without freshness it need not be: see
      `RefusedLinkMadeLater`. */
  lemma InitPropertyChainIdempotent(h: Heap, chain: seq<Provider>, sentinel: ProviderId, name: string, vs: seq<ObjId>)
    requires |chain| > 0 && RefsIn(h, chain)
    requires Owners(chain, sentinel, name) == Refs(vs) && Fresh(h, vs)
    ensures var r := InitPropertyChain(h, chain, sentinel, name);
      RefsIn(r.heap, chain) && InitPropertyChain(r.heap, chain, sentinel, name) == Completion(r.heap, Success(chain[0].id))
  {
    InitPropertyChainLinks(h, chain, sentinel, name, vs);
    var r := InitPropertyChain(h, chain, sentinel, name);
    RefsInFrame(h, r.heap, chain, Linked(vs));
    InitPropertyChainStable(r.heap, chain, sentinel, name, vs);
  }

  /** Three extensible objects where 2 already delegates to 1: the heap of
      the example below. */
  function RetryHeap(): Heap {
    map[1 := Obj(None, true, map[], None),
        2 := Obj(Some(1), true, map[], None),
        3 := Obj(None, true, map[], None)]
  }

  /** Linking is not idempotent in general. Over the values 1, 2, 3 of
      `RetryHeap`, the first run finds that 1 -> 2 would close a cycle,
      ignores the refusal and links 2 -> 3; the second run then finds the
      cycle gone and links 1 -> 2. */
  lemma RefusedLinkMadeLater()
    ensures AllIn(RetryHeap(), Refs([1, 2, 3]))
    ensures var r1 := LinkValues(RetryHeap(), Refs([1, 2, 3]), Undefined);
      && r1.outcome.Success? && r1.heap[1].proto.None? && r1.heap[2].proto == Some(3)
      && AllIn(r1.heap, Refs([1, 2, 3]))
      && var r2 := LinkValues(r1.heap, Refs([1, 2, 3]), Undefined);
         r2.outcome.Success? && r2.heap[1].proto == Some(2)
  {
    var h := RetryHeap();
    var vs: seq<ObjId> := [1, 2, 3];
    RefsAllIn(h, vs);
    RefsTail(vs);
    RefsTail(vs[1..]);
    RefsTail(vs[2..]);
    assert Walk(h, Some(2), {}) == [2, 1];
    var h1 := WithProto(h, 2, 3);
    assert Walk(h, Some(3), {}) == [3];
    assert LinkStep(h, Ref(1), Ref(2)) == Next(h);
    assert LinkStep(h, Ref(2), Ref(3)) == Next(h1);
    assert vs[1..][1..] == vs[2..] && vs[2..][1..] == vs[3..] && |Refs(vs[3..])| == 0;
    assert LinkValues(h, Refs(vs[2..]), Ref(2)) == Completion(h1, Success(()));
    assert LinkValues(h, Refs(vs[1..]), Ref(1)) == Completion(h1, Success(()));
    assert LinkStep(h, Undefined, Ref(1)) == Next(h);
    assert LinkValues(h, Refs(vs), Undefined) == Completion(h1, Success(()));
    RefsAllIn(h1, vs);
    assert Walk(h1, Some(2), {}) == [2, 3];
    var h2 := WithProto(h1, 1, 2);
    assert LinkStep(h1, Ref(1), Ref(2)) == Next(h2);
    assert LinkStep(h2, Ref(2), Ref(3)) == Stop;
    assert LinkValues(h2, Refs(vs[2..]), Ref(2)) == Completion(h2, Success(()));
    assert LinkValues(h1, Refs(vs[1..]), Ref(1)) == Completion(h2, Success(()));
    assert LinkStep(h1, Undefined, Ref(1)) == Next(h1);
  }

  /** Taking out an ancestor that is not the sentinel and does not own the
      property leaves the owners, in order, as they were. */
  lemma {:induction false} OwnersSkipNonOwner(chain: seq<Provider>, sentinel: ProviderId, name: string, i: nat)
    requires i < |chain| && name !in chain[i].own && chain[i].id != sentinel
    ensures Owners(chain[..i] + chain[i + 1..], sentinel, name) == Owners(chain, sentinel, name)
    decreases i
  {
    var chain' := chain[..i] + chain[i + 1..];
    if i == 0 {
      assert chain' == chain[1..];
      assert UpToSentinel(chain, sentinel) == [chain[0]] + UpToSentinel(chain[1..], sentinel);
      assert ([chain[0]] + UpToSentinel(chain[1..], sentinel))[1..] == UpToSentinel(chain[1..], sentinel);
    } else if chain[0].id == sentinel {
      assert chain'[0] == chain[0];
    } else {
      OwnersSkipNonOwner(chain[1..], sentinel, name, i - 1);
      assert chain'[0] == chain[0];
      assert chain'[1..] == chain[1..][..i - 1] + chain[1..][i..];
      assert UpToSentinel(chain, sentinel) == [chain[0]] + UpToSentinel(chain[1..], sentinel);
      assert ([chain[0]] + UpToSentinel(chain[1..], sentinel))[1..] == UpToSentinel(chain[1..], sentinel);
      assert UpToSentinel(chain', sentinel) == [chain[0]] + UpToSentinel(chain'[1..], sentinel);
      assert ([chain[0]] + UpToSentinel(chain'[1..], sentinel))[1..] == UpToSentinel(chain'[1..], sentinel);
    }
  }

  lemma RefsInRemove(h: Heap, chain: seq<Provider>, i: nat)
    requires RefsIn(h, chain) && i < |chain|
    ensures RefsIn(h, chain[..i] + chain[i + 1..])
  {
    var chain' := chain[..i] + chain[i + 1..];
    forall j, k | 0 <= j < |chain'| && k in chain'[j].own ensures ValIn(h, chain'[j].own[k]) {
      if j < i { assert chain'[j] == chain[j]; } else { assert chain'[j] == chain[j + 1]; }
    }
  }

  /** An ancestor that does not own the property (the instance itself,
      usually) changes nothing about the links made around it. */
  lemma LinkWalkSkipsNonOwner(h: Heap, chain: seq<Provider>, sentinel: ProviderId, name: string, i: nat, previous: Val)
    requires RefsIn(h, chain) && ValIn(h, previous)
    requires i < |chain| && name !in chain[i].own && chain[i].id != sentinel
    ensures RefsIn(h, chain[..i] + chain[i + 1..])
    ensures LinkWalk(h, chain[..i] + chain[i + 1..], sentinel, name, previous) == LinkWalk(h, chain, sentinel, name, previous)
  {
    RefsInRemove(h, chain, i);
    OwnersSkipNonOwner(chain, sentinel, name, i);
    LinkWalkLinksOwners(h, chain, sentinel, name, previous);
    LinkWalkLinksOwners(h, chain[..i] + chain[i + 1..], sentinel, name, previous);
  }

  /** Two ancestor chains for the same `this` that agree up to their
      sentinels are linked alike: neither a sentinel nor anything past it is
      ever looked at. */
  lemma InitPropertyChainStopsAtSentinel(h: Heap, chain1: seq<Provider>, sentinel1: ProviderId, chain2: seq<Provider>, sentinel2: ProviderId, name: string)
    requires |chain1| > 0 && |chain2| > 0 && chain1[0].id == chain2[0].id
    requires RefsIn(h, chain1) && RefsIn(h, chain2)
    requires UpToSentinel(chain1, sentinel1) == UpToSentinel(chain2, sentinel2)
    ensures InitPropertyChain(h, chain1, sentinel1, name) == InitPropertyChain(h, chain2, sentinel2, name)
  {
    LinkWalkLinksOwners(h, chain1, sentinel1, name, Undefined);
    LinkWalkLinksOwners(h, chain2, sentinel2, name, Undefined);
  }

  /** `_initPropertyChain(name)` for a new subclass of a class whose chain
      for `name` is already built: one link is made, from the new owner's
      value to the next owner's, and nothing else changes. */
  lemma InitPropertyChainExtends(h: Heap, chain: seq<Provider>, sentinel: ProviderId, name: string, vs: seq<ObjId>)
    requires |chain| > 0 && RefsIn(h, chain) && Owners(chain, sentinel, name) == Refs(vs)
    requires |vs| >= 2 && (forall i :: 0 <= i < |vs| ==> vs[i] in h) && Chained(h, vs[1..])
    requires forall i :: 1 <= i < |vs| ==> vs[i] != vs[0]
    requires h[vs[0]].extensible && h[vs[0]].proto != Some(vs[1])
    requires vs[0] !in Walk(h, Some(vs[1]), {})
    ensures InitPropertyChain(h, chain, sentinel, name) == Completion(WithProto(h, vs[0], vs[1]), Success(chain[0].id))
    ensures Chained(WithProto(h, vs[0], vs[1]), vs)
  {
    LinkWalkLinksOwners(h, chain, sentinel, name, Undefined);
    LinkExtendsChain(h, vs);
  }
}
