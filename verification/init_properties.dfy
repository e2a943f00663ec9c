/** What `_init` achieves over a whole hierarchy: it never looks at the
    sentinel or past it, reads only owned declaration lists, chains every
    collected name when the chained values are independent objects, and a
    second run over an already chained hierarchy changes nothing. */
module InitProperties {
  import opened Wrappers
  import opened JsObjects
  import opened Ancestry
  import opened Linker
  import opened ChainProperties
  import opened Collector

  /** Linking names over two chains that agree up to their sentinels. */
  lemma {:induction false} LinkAllStopsAtSentinel(h: Heap, chain1: seq<Provider>, sentinel1: ProviderId, chain2: seq<Provider>, sentinel2: ProviderId, names: seq<string>)
    requires |chain1| > 0 && |chain2| > 0 && chain1[0].id == chain2[0].id
    requires RefsIn(h, chain1) && RefsIn(h, chain2)
    requires UpToSentinel(chain1, sentinel1) == UpToSentinel(chain2, sentinel2)
    ensures LinkAll(h, chain1, sentinel1, names) == LinkAll(h, chain2, sentinel2, names)
    decreases |names|
  {
    if |names| > 0 {
      InitPropertyChainStopsAtSentinel(h, chain1, sentinel1, chain2, sentinel2, names[0]);
      var c := InitPropertyChain(h, chain1, sentinel1, names[0]);
      if c.outcome.Success? {
        var linked := RefIds(AllButLast(Owners(chain1, sentinel1, names[0])));
        assert Owners(chain1, sentinel1, names[0]) == Owners(chain2, sentinel2, names[0]);
        RefsInFrame(h, c.heap, chain1, linked);
        RefsInFrame(h, c.heap, chain2, linked);
        LinkAllStopsAtSentinel(c.heap, chain1, sentinel1, chain2, sentinel2, names[1..]);
      }
    }
  }

  /** Two ancestor chains for the same `this` that agree up to their
      sentinels are initialised alike: `_init` never inspects a sentinel or
      anything beyond it, and which sentinel it was built with matters only
      through where the walk stops. */
  lemma InitStopsAtSentinel(h: Heap, chain1: seq<Provider>, sentinel1: ProviderId, chain2: seq<Provider>, sentinel2: ProviderId, option: Option<string>)
    requires |chain1| > 0 && |chain2| > 0 && chain1[0].id == chain2[0].id
    requires RefsIn(h, chain1) && RefsIn(h, chain2)
    requires UpToSentinel(chain1, sentinel1) == UpToSentinel(chain2, sentinel2)
    ensures Init(h, chain1, sentinel1, option) == Init(h, chain2, sentinel2, option)
  {
    InitLinksEachNameOnce(h, chain1, sentinel1, option);
    InitLinksEachNameOnce(h, chain2, sentinel2, option);
    var names := CollectedNames(h, chain1, sentinel1, ChainsKey(option));
    LinkAllStopsAtSentinel(h, chain1, sentinel1, chain2, sentinel2, names);
  }

  /** An ancestor that does not own the declaration list declares nothing:
      taking it out leaves the declarations as they were. */
  lemma {:induction false} DeclarationsSkipNonOwner(h: Heap, ps: seq<Provider>, key: string, i: nat)
    requires RefsIn(h, ps) && i < |ps| && key !in ps[i].own
    ensures RefsIn(h, ps[..i] + ps[i + 1..])
    ensures Declarations(h, ps[..i] + ps[i + 1..], key) == Declarations(h, ps, key)
    decreases i
  {
    RefsInRemove(h, ps, i);
    var ps' := ps[..i] + ps[i + 1..];
    if i == 0 {
      assert ps' == ps[1..];
    } else {
      DeclarationsSkipNonOwner(h, ps[1..], key, i - 1);
      assert ps'[0] == ps[0];
      assert ps'[1..] == ps[1..][..i - 1] + ps[1..][i..];
    }
  }

  /** The object ids among `vals`, in order. */
  function ObjectIds(vals: seq<Val>): (r: seq<ObjId>)
    ensures (forall i :: 0 <= i < |vals| ==> vals[i].Ref?) ==> Refs(r) == vals
    decreases |vals|
  {
    if |vals| == 0 then []
    else if vals[0].Ref? then [vals[0].id] + ObjectIds(vals[1..])
    else ObjectIds(vals[1..])
  }

  predicate AllObjects(vals: seq<Val>) {
    forall i :: 0 <= i < |vals| ==> vals[i].Ref?
  }

  /** The objects chained for `name`. */
  function OwnerIds(chain: seq<Provider>, sentinel: ProviderId, name: string): seq<ObjId> {
    ObjectIds(Owners(chain, sentinel, name))
  }

  /** Linking `name` over a hierarchy whose owners' values already delegate
      in order changes nothing. */
  lemma {:induction false} LinkAllStable(h: Heap, chain: seq<Provider>, sentinel: ProviderId, names: seq<string>)
    requires |chain| > 0 && RefsIn(h, chain)
    requires forall n :: n in names ==>
      AllObjects(Owners(chain, sentinel, n)) && Chained(h, OwnerIds(chain, sentinel, n))
    ensures LinkAll(h, chain, sentinel, names) == Completion(h, Success(()))
    decreases |names|
  {
    if |names| > 0 {
      var n := names[0];
      assert n in names;
      var vs := OwnerIds(chain, sentinel, n);
      OwnersIn(h, chain, sentinel, n);
      assert forall i :: 0 <= i < |vs| ==> vs[i] in h by {
        forall i | 0 <= i < |vs| ensures vs[i] in h {
          assert Refs(vs)[i] == Ref(vs[i]);
        }
      }
      InitPropertyChainStable(h, chain, sentinel, n, vs);
      assert forall m :: m in names[1..] ==> m in names;
      LinkAllStable(h, chain, sentinel, names[1..]);
    }
  }

  /** `_init` over a hierarchy where every collected name is already chained
      (a second instance of a class, say) returns `this` and changes
      nothing. */
  lemma InitStable(h: Heap, chain: seq<Provider>, sentinel: ProviderId, option: Option<string>)
    requires |chain| > 0 && RefsIn(h, chain)
    requires DeclaredBefore(h, chain, sentinel, ChainsKey(option)).error.None?
    requires forall n :: n in DeclaredBefore(h, chain, sentinel, ChainsKey(option)).names ==>
      AllObjects(Owners(chain, sentinel, n)) && Chained(h, OwnerIds(chain, sentinel, n))
    ensures Init(h, chain, sentinel, option) == Completion(h, Success(chain[0].id))
  {
    InitLinksEachNameOnce(h, chain, sentinel, option);
    var names := DeclaredBefore(h, chain, sentinel, ChainsKey(option)).names;
    DedupFromKeepsFirstOccurrences(names, []);
    LinkAllStable(h, chain, sentinel, Dedup(names));
  }

  /** The objects linking `names` may set the prototype of. */
  function LinkedOf(chain: seq<Provider>, sentinel: ProviderId, names: seq<string>): set<ObjId> {
    set n, o | n in names && o in Linked(OwnerIds(chain, sentinel, n)) :: o
  }

  /** When every owner's value is an object, the objects linking may set are
      the owners' objects other than the last. */
  lemma LinkedObjectIds(vals: seq<Val>)
    requires AllObjects(vals)
    ensures Linked(ObjectIds(vals)) == RefIds(AllButLast(vals))
  {
    var ids := ObjectIds(vals);
    assert Refs(ids) == vals;
    assert |ids| == |vals|;
    forall o | o in Linked(ids) ensures o in RefIds(AllButLast(vals)) {
      var i :| 0 <= i < |ids| - 1 && ids[i] == o;
      assert AllButLast(vals)[i] == vals[i] == Ref(ids[i]);
    }
    forall o | o in RefIds(AllButLast(vals)) ensures o in Linked(ids) {
      var i :| 0 <= i < |AllButLast(vals)| && AllButLast(vals)[i].Ref? && AllButLast(vals)[i].id == o;
      assert AllButLast(vals)[i] == vals[i] == Ref(ids[i]);
    }
  }

  /** The two accounts of what linking may touch agree when every owner's
      value is an object: `LinkedOf`, in terms of the owners' objects, is the
      `LinkedIds` that `_init`'s own contract is stated in. */
  lemma LinkedOfIsLinkedIds(chain: seq<Provider>, sentinel: ProviderId, names: seq<string>)
    requires forall n :: n in names ==> AllObjects(Owners(chain, sentinel, n))
    ensures LinkedOf(chain, sentinel, names) == LinkedIds(chain, sentinel, names)
  {
    forall n | n in names
      ensures Linked(OwnerIds(chain, sentinel, n)) == RefIds(AllButLast(Owners(chain, sentinel, n)))
    {
      LinkedObjectIds(Owners(chain, sentinel, n));
    }
  }

  /** Chaining `vs` cannot disturb `ws`: the objects linking `vs` touches
      are not linked in `ws` and lie on no existing prototype chain of an
      object of `ws`. */
  predicate Apart(h: Heap, vs: seq<ObjId>, ws: seq<ObjId>) {
    && Linked(vs) !! Linked(ws)
    && forall j, o :: 0 <= j < |ws| && o in Linked(vs) ==> o !in Walk(h, Some(ws[j]), {})
  }

  /** Every collected name's owners hold fresh objects, and the chains of
      different names are apart. */
  predicate Independent(h: Heap, chain: seq<Provider>, sentinel: ProviderId, names: seq<string>) {
    && (forall n :: n in names ==>
          AllObjects(Owners(chain, sentinel, n)) && Fresh(h, OwnerIds(chain, sentinel, n)))
    && (forall n, m :: n in names && m in names && n != m ==>
          Apart(h, OwnerIds(chain, sentinel, n), OwnerIds(chain, sentinel, m)))
  }

  /** Freshness survives changes to prototypes that are neither linked in
      `vs` nor on the existing chains of its objects. */
  lemma FreshFrame(h: Heap, h': Heap, vs: seq<ObjId>, changed: set<ObjId>)
    requires Fresh(h, vs) && OnlyProtosOf(h, h', changed) && Linked(vs) !! changed
    requires forall j, o :: 0 <= j < |vs| && o in changed ==> o !in Walk(h, Some(vs[j]), {})
    ensures Fresh(h', vs)
  {
    forall j | 0 <= j < |vs| ensures Walk(h', Some(vs[j]), {}) == Walk(h, Some(vs[j]), {}) {
      WalkFrame(h, h', Some(vs[j]), {}, changed);
    }
    forall i | 0 <= i < |vs| - 1 ensures h'[vs[i]].proto == h[vs[i]].proto {
      assert vs[i] in Linked(vs);
    }
  }

  /** Chained objects stay chained when only other prototypes change. */
  lemma ChainedFrame(h: Heap, h': Heap, ws: seq<ObjId>, changed: set<ObjId>)
    requires Chained(h, ws) && OnlyProtosOf(h, h', changed) && Linked(ws) !! changed
    ensures Chained(h', ws)
  {
    forall i | 0 <= i < |ws| - 1 ensures ws[i] in h' && h'[ws[i]].proto == Some(ws[i + 1]) {
      assert ws[i] in Linked(ws);
    }
  }

  lemma LinkedOfAppend(chain: seq<Provider>, sentinel: ProviderId, done: seq<string>, n: string)
    ensures LinkedOf(chain, sentinel, done + [n]) == LinkedOf(chain, sentinel, done) + Linked(OwnerIds(chain, sentinel, n))
  {
    var vs := OwnerIds(chain, sentinel, n);
    forall o | o in Linked(vs) ensures o in LinkedOf(chain, sentinel, done + [n]) {
      assert n in done + [n];
    }
    forall o | o in LinkedOf(chain, sentinel, done) ensures o in LinkedOf(chain, sentinel, done + [n]) {
      var m :| m in done && o in Linked(OwnerIds(chain, sentinel, m));
      assert m in done + [n];
    }
  }

  /** One step of linking independent names: the next name is still fresh
      after the names before it were linked. */
  lemma FreshAfterDone(h0: Heap, h: Heap, chain: seq<Provider>, sentinel: ProviderId, done: seq<string>, n: string, all: seq<string>)
    requires Independent(h0, chain, sentinel, all) && n in all && n !in done
    requires forall m :: m in done ==> m in all
    requires OnlyProtosOf(h0, h, LinkedOf(chain, sentinel, done))
    ensures Fresh(h, OwnerIds(chain, sentinel, n))
  {
    var vs := OwnerIds(chain, sentinel, n);
    var changed := LinkedOf(chain, sentinel, done);
    forall o | o in changed
      ensures o !in Linked(vs) && forall j :: 0 <= j < |vs| ==> o !in Walk(h0, Some(vs[j]), {})
    {
      var m :| m in done && o in Linked(OwnerIds(chain, sentinel, m));
      assert Apart(h0, OwnerIds(chain, sentinel, m), vs);
    }
    FreshFrame(h0, h, vs, changed);
  }

  lemma NoDupSplit(done: seq<string>, names: seq<string>)
    requires NoDup(done + names) && |names| > 0
    ensures names[0] in done + names && names[0] !in done
  {
    var all := done + names;
    assert all[|done|] == names[0];
    assert forall i :: 0 <= i < |done| ==> done[i] == all[i];
  }

  /** Linking one more independent name keeps the names linked before it
      chained and chains the new one. */
  lemma LinkIndependentStep(h0: Heap, h: Heap, chain: seq<Provider>, sentinel: ProviderId, done: seq<string>, n: string, all: seq<string>)
    requires |chain| > 0 && RefsIn(h, chain)
    requires Independent(h0, chain, sentinel, all) && n in all && n !in done
    requires forall m :: m in done ==> m in all
    requires OnlyProtosOf(h0, h, LinkedOf(chain, sentinel, done))
    requires forall m :: m in done ==> Chained(h, OwnerIds(chain, sentinel, m))
    ensures var c := InitPropertyChain(h, chain, sentinel, n);
      && c.outcome.Success?
      && RefsIn(c.heap, chain)
      && OnlyProtosOf(h0, c.heap, LinkedOf(chain, sentinel, done + [n]))
      && forall m :: m in done + [n] ==> Chained(c.heap, OwnerIds(chain, sentinel, m))
  {
    var vs := OwnerIds(chain, sentinel, n);
    FreshAfterDone(h0, h, chain, sentinel, done, n, all);
    InitPropertyChainLinks(h, chain, sentinel, n, vs);
    var c := InitPropertyChain(h, chain, sentinel, n);
    forall m | m in done ensures Chained(c.heap, OwnerIds(chain, sentinel, m)) {
      assert Apart(h0, vs, OwnerIds(chain, sentinel, m));
      ChainedFrame(h, c.heap, OwnerIds(chain, sentinel, m), Linked(vs));
    }
    LinkedOfAppend(chain, sentinel, done, n);
    OnlyProtosOfTrans(h0, h, c.heap, LinkedOf(chain, sentinel, done), Linked(vs), LinkedOf(chain, sentinel, done + [n]));
    RefsInFrame(h, c.heap, chain, Linked(vs));
  }

  /** Linking independent names, `done` already linked: every link is made. */
  lemma {:induction false} LinkAllIndependent(h0: Heap, h: Heap, chain: seq<Provider>, sentinel: ProviderId, done: seq<string>, names: seq<string>)
    requires |chain| > 0 && RefsIn(h, chain)
    requires NoDup(done + names) && Independent(h0, chain, sentinel, done + names)
    requires OnlyProtosOf(h0, h, LinkedOf(chain, sentinel, done))
    requires forall m :: m in done ==> Chained(h, OwnerIds(chain, sentinel, m))
    ensures var r := LinkAll(h, chain, sentinel, names);
      r.outcome.Success? && forall m :: m in done + names ==> Chained(r.heap, OwnerIds(chain, sentinel, m))
    decreases |names|
  {
    var all := done + names;
    if |names| == 0 {
      assert all == done;
    } else {
      var n := names[0];
      NoDupSplit(done, names);
      LinkIndependentStep(h0, h, chain, sentinel, done, n, all);
      var c := InitPropertyChain(h, chain, sentinel, n);
      assert done + [n] + names[1..] == all;
      LinkAllIndependent(h0, c.heap, chain, sentinel, done + [n], names[1..]);
      assert LinkAll(h, chain, sentinel, names) == LinkAll(c.heap, chain, sentinel, names[1..]);
    }
  }

  /** `_init` over a hierarchy whose chained values are independent fresh
      objects returns `this`, and afterwards every collected name's owners'
      values delegate in ancestor order. */
  lemma InitChainsIndependentNames(h: Heap, chain: seq<Provider>, sentinel: ProviderId, option: Option<string>)
    requires |chain| > 0 && RefsIn(h, chain)
    requires DeclaredBefore(h, chain, sentinel, ChainsKey(option)).error.None?
    requires Independent(h, chain, sentinel, CollectedNames(h, chain, sentinel, ChainsKey(option)))
    ensures var r := Init(h, chain, sentinel, option);
      && r.outcome == Success(chain[0].id)
      && forall n :: n in DeclaredBefore(h, chain, sentinel, ChainsKey(option)).names ==>
           Chained(r.heap, OwnerIds(chain, sentinel, n))
  {
    var names := DeclaredBefore(h, chain, sentinel, ChainsKey(option)).names;
    InitLinksEachNameOnce(h, chain, sentinel, option);
    DedupFromKeepsFirstOccurrences(names, []);
    assert [] + Dedup(names) == Dedup(names);
    LinkAllIndependent(h, h, chain, sentinel, [], Dedup(names));
  }

  /** Running `_init` a second time over such a hierarchy, from the same
      object or from another that owns no property at all (a second, fresh
      instance of the class), changes nothing. */
  lemma InitTwiceChangesNothing(h: Heap, chain: seq<Provider>, other: Provider, sentinel: ProviderId, option: Option<string>)
    requires |chain| > 0 && RefsIn(h, chain)
    requires DeclaredBefore(h, chain, sentinel, ChainsKey(option)).error.None?
    requires Independent(h, chain, sentinel, CollectedNames(h, chain, sentinel, ChainsKey(option)))
    requires chain[0].id != sentinel && other.id != sentinel
    requires chain[0].own.Keys == {} && other.own.Keys == {}
    ensures var h1 := Init(h, chain, sentinel, option).heap;
      var chain2 := [other] + chain[1..];
      RefsIn(h1, chain2) && Init(h1, chain2, sentinel, option) == Completion(h1, Success(other.id))
  {
    var key := ChainsKey(option);
    var h1 := Init(h, chain, sentinel, option).heap;
    var chain2 := [other] + chain[1..];
    InitChainsIndependentNames(h, chain, sentinel, option);
    RefsInFrame(h, h1, chain, h.Keys);
    assert RefsIn(h1, chain2) by {
      forall i, k | 0 <= i < |chain2| && k in chain2[i].own ensures ValIn(h1, chain2[i].own[k]) {
        assert i > 0 && chain2[i] == chain[i];
      }
    }
    // The two chains differ only in their first entry, which owns nothing.
    OwnersSkipNonOwner(chain, sentinel, key, 0);
    assert UpToSentinel(chain, sentinel) == [chain[0]] + UpToSentinel(chain[1..], sentinel);
    assert UpToSentinel(chain2, sentinel) == [other] + UpToSentinel(chain[1..], sentinel) by {
      assert chain2[1..] == chain[1..];
    }
    RefsInPrefix(h, chain, UpToSentinel(chain, sentinel));
    RefsInPrefix(h1, chain2, UpToSentinel(chain2, sentinel));
    DeclarationsSkipNonOwner(h, UpToSentinel(chain, sentinel), key, 0);
    DeclarationsSkipNonOwner(h1, UpToSentinel(chain2, sentinel), key, 0);
    RefsInPrefix(h, chain[1..], UpToSentinel(chain[1..], sentinel));
    DeclarationsFrame(h, h1, UpToSentinel(chain[1..], sentinel), key, h.Keys);
    assert DeclaredBefore(h1, chain2, sentinel, key) == DeclaredBefore(h, chain, sentinel, key);
    forall n | n in DeclaredBefore(h1, chain2, sentinel, key).names
      ensures AllObjects(Owners(chain2, sentinel, n)) && Chained(h1, OwnerIds(chain2, sentinel, n))
    {
      OwnersSkipNonOwner(chain, sentinel, n, 0);
      OwnersSkipNonOwner(chain2, sentinel, n, 0);
      assert chain2[..0] + chain2[1..] == chain[..0] + chain[1..];
      DedupFromKeepsFirstOccurrences(DeclaredBefore(h, chain, sentinel, key).names, []);
    }
    InitStable(h1, chain2, sentinel, option);
  }
}
