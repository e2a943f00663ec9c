/** `_init(options)`: walk the ancestor chain up to the sentinel, read the
    declaration list each ancestor owns, and run `_initPropertyChain` once for
    every name not seen before. */
module Collector {
  import opened Wrappers
  import opened JsObjects
  import opened Ancestry
  import opened Linker

  /** The key of the declaration list when the options do not name one. */
  const DefaultChainsKey: string := "_propertyChains"

  /** The `propertyChainsPropertyName` option; `None` is an absent option
      (undefined), which takes the default. */
  function ChainsKey(option: Option<string>): (r: string)
    ensures option.None? ==> r == "_propertyChains"
    ensures option.Some? ==> r == option.value
  {
    if option.Some? then option.value else DefaultChainsKey
  }

  /** What `for (const propertyName of value)` iterates over: the elements of
      an array, or the code points of a string; any other value throws. */
  function ListedNames(h: Heap, v: Val): (r: Result<seq<string>, TypeError>)
    requires ValIn(h, v)
    ensures r.Failure? <==> !(v.Str? || (v.Ref? && h[v.id].elems.Some?))
    ensures r.Failure? ==> r.error == NotIterable
    ensures r.Success? && v.Str? ==>
      |r.value| == |v.s| && forall i :: 0 <= i < |v.s| ==> r.value[i] == [v.s[i]]
    ensures r.Success? && v.Ref? ==> r.value == h[v.id].elems.value
  {
    match v
    case Ref(a) => if h[a].elems.Some? then Success(h[a].elems.value) else Failure(NotIterable)
    case Str(s) => Success(seq(|s|, i requires 0 <= i < |s| => [s[i]]))
    case _ => Failure(NotIterable)
  }

  /** The names some ancestors declare, in order, and the TypeError that cut
      the reading short, if any. */
  datatype Declared = Declared(names: seq<string>, error: Option<TypeError>)

  /** The declaration lists owned by the providers of `ps`, concatenated in
      order, up to the first one that is not iterable. Lists a provider
      only inherits are not read. */
  function Declarations(h: Heap, ps: seq<Provider>, key: string): (r: Declared)
    requires RefsIn(h, ps)
    ensures r.error.Some? ==> r.error.value == NotIterable
    decreases |ps|
  {
    if |ps| == 0 then Declared([], None)
    else if key !in ps[0].own then Declarations(h, ps[1..], key)
    else match ListedNames(h, ps[0].own[key])
      case Failure(e) => Declared([], Some(e))
      case Success(ns) =>
        var d := Declarations(h, ps[1..], key);
        Declared(ns + d.names, d.error)
  }

  lemma RefsInSplit(h: Heap, a: seq<Provider>, b: seq<Provider>)
    requires RefsIn(h, a + b)
    ensures RefsIn(h, a) && RefsIn(h, b)
    ensures |a| > 0 ==> (a + b)[1..] == a[1..] + b && RefsIn(h, a[1..] + b)
  {
    RefsInPrefix(h, a + b, a);
    forall i, k | 0 <= i < |b| && k in b[i].own ensures ValIn(h, b[i].own[k]) {
      assert b[i] == (a + b)[|a| + i];
    }
    if |a| > 0 {
      assert (a + b)[1..] == a[1..] + b;
      forall i, k | 0 <= i < |a[1..] + b| && k in (a[1..] + b)[i].own ensures ValIn(h, (a[1..] + b)[i].own[k]) {
        assert (a[1..] + b)[i] == (a + b)[i + 1];
      }
    }
  }

  /** The reading is cut short exactly when some ancestor owns a list that
      is not iterable, and ancestors that own no list declare nothing. */
  lemma {:induction false} DeclarationsFail(h: Heap, ps: seq<Provider>, key: string)
    requires RefsIn(h, ps)
    ensures Declarations(h, ps, key).error.None? <==>
      forall i :: 0 <= i < |ps| && key in ps[i].own ==> ListedNames(h, ps[i].own[key]).Success?
    ensures (forall i :: 0 <= i < |ps| ==> key !in ps[i].own) ==> Declarations(h, ps, key) == Declared([], None)
    decreases |ps|
  {
    if |ps| > 0 {
      DeclarationsHead(h, ps, key);
      DeclarationsFail(h, ps[1..], key);
      assert forall i :: 0 <= i < |ps[1..]| ==> ps[1..][i] == ps[i + 1];
    }
  }

  /** One step of reading: the first ancestor's own list, if any, then the rest. */
  lemma DeclarationsHead(h: Heap, ps: seq<Provider>, key: string)
    requires RefsIn(h, ps) && |ps| > 0
    ensures RefsIn(h, ps[1..]) && (key in ps[0].own ==> ValIn(h, ps[0].own[key]))
    ensures var d := Declarations(h, ps[1..], key);
      Declarations(h, ps, key)
        == if key !in ps[0].own then d
           else if ListedNames(h, ps[0].own[key]).Failure? then Declared([], Some(NotIterable))
           else Declared(ListedNames(h, ps[0].own[key]).value + d.names, d.error)
  {
    RefsInPrefix(h, ps, ps[..1]);
    assert forall i :: 0 <= i < |ps[1..]| ==> ps[1..][i] == ps[i + 1];
  }

  /** Reading one stretch of ancestors and then another: the second is read
      only when the first was not cut short. */
  function Then(da: Declared, db: Declared): Declared {
    if da.error.Some? then da else Declared(da.names + db.names, db.error)
  }

  /** One step of `DeclarationsAppend`: when it holds for `a[1..]`, it holds for `a`. */
  lemma DeclarationsAppendStep(h: Heap, a: seq<Provider>, b: seq<Provider>, key: string)
    requires |a| > 0 && RefsIn(h, a) && RefsIn(h, b) && RefsIn(h, a + b)
    requires RefsIn(h, a[1..]) && RefsIn(h, a[1..] + b) && (a + b)[1..] == a[1..] + b
    requires Declarations(h, a[1..] + b, key) == Then(Declarations(h, a[1..], key), Declarations(h, b, key))
    ensures Declarations(h, a + b, key) == Then(Declarations(h, a, key), Declarations(h, b, key))
  {
    DeclarationsHead(h, a + b, key);
    DeclarationsHead(h, a, key);
    assert (a + b)[0] == a[0];
    if key in a[0].own && ListedNames(h, a[0].own[key]).Success? {
      var ns := ListedNames(h, a[0].own[key]).value;
      var d1, db := Declarations(h, a[1..], key), Declarations(h, b, key);
      if d1.error.None? {
        assert ns + (d1.names + db.names) == (ns + d1.names) + db.names;
      }
    }
  }

  /** Reading the lists of two stretches of ancestors in turn: the second
      stretch is read only when every list of the first was iterable, and
      its names follow the first stretch's names. */
  lemma {:induction false} DeclarationsAppend(h: Heap, a: seq<Provider>, b: seq<Provider>, key: string)
    requires RefsIn(h, a + b)
    ensures RefsIn(h, a) && RefsIn(h, b)
    ensures Declarations(h, a + b, key) == Then(Declarations(h, a, key), Declarations(h, b, key))
    decreases |a|
  {
    RefsInSplit(h, a, b);
    if |a| == 0 {
      assert a + b == b;
    } else {
      DeclarationsAppend(h, a[1..], b, key);
      RefsInPrefix(h, a, a[..1]);
      assert forall i :: 0 <= i < |a[1..]| ==> a[1..][i] == a[i + 1];
      DeclarationsAppendStep(h, a, b, key);
    }
  }

  /** No element occurs twice. */
  predicate NoDup<T(==)>(s: seq<T>) {
    forall i, j :: 0 <= i < j < |s| ==> s[i] != s[j]
  }

  /** Position of the first occurrence of `x` in `xs`. */
  function FirstIndex(xs: seq<string>, x: string): (i: nat)
    requires x in xs
    ensures i < |xs| && xs[i] == x && x !in xs[..i]
  {
    if xs[0] == x then 0 else 1 + FirstIndex(xs[1..], x)
  }

  /** The names of `xs` not in `seen`, each once, in order of first
      occurrence: what the `completedPropertyChains` set lets through. */
  function DedupFrom(xs: seq<string>, seen: seq<string>): seq<string>
    decreases |xs|
  {
    if |xs| == 0 then []
    else if xs[0] in seen then DedupFrom(xs[1..], seen)
    else [xs[0]] + DedupFrom(xs[1..], seen + [xs[0]])
  }

  /** Deduplication keeps every name not already seen, once, in the order of
      its first occurrence. */
  lemma {:induction false} DedupFromKeepsFirstOccurrences(xs: seq<string>, seen: seq<string>)
    ensures forall x :: x in DedupFrom(xs, seen) <==> x in xs && x !in seen
    ensures NoDup(DedupFrom(xs, seen))
    ensures forall i, j :: 0 <= i < j < |DedupFrom(xs, seen)| ==>
      FirstIndex(xs, DedupFrom(xs, seen)[i]) < FirstIndex(xs, DedupFrom(xs, seen)[j])
    decreases |xs|
  {
    if |xs| == 0 {
    } else if xs[0] in seen {
      var rest := DedupFrom(xs[1..], seen);
      DedupFromKeepsFirstOccurrences(xs[1..], seen);
      assert forall x :: x in rest ==> x in xs[1..] && x != xs[0];
      DedupConsTail(xs, rest);
    } else {
      DedupFromKeepsFirstOccurrences(xs[1..], seen + [xs[0]]);
      DedupCons(xs, seen, DedupFrom(xs[1..], seen + [xs[0]]));
    }
  }

  lemma FirstIndexTail(xs: seq<string>, x: string)
    requires |xs| > 0 && x in xs[1..] && x != xs[0]
    ensures x in xs && FirstIndex(xs, x) == 1 + FirstIndex(xs[1..], x)
  {
    assert xs == [xs[0]] + xs[1..];
  }

  /** Every name after the head of the deduplicated list sits further on in `xs`. */
  lemma DedupConsTail(xs: seq<string>, rest: seq<string>)
    requires |xs| > 0
    requires forall x :: x in rest ==> x in xs[1..] && x != xs[0]
    ensures forall i :: 0 <= i < |rest| ==>
      rest[i] in xs && FirstIndex(xs, rest[i]) == 1 + FirstIndex(xs[1..], rest[i])
  {
    forall i | 0 <= i < |rest|
      ensures rest[i] in xs && FirstIndex(xs, rest[i]) == 1 + FirstIndex(xs[1..], rest[i])
    {
      assert rest[i] in rest;
      FirstIndexTail(xs, rest[i]);
    }
  }

  lemma DedupConsNoDup(xs: seq<string>, seen: seq<string>, rest: seq<string>)
    requires |xs| > 0 && xs[0] !in seen
    requires forall x :: x in rest <==> x in xs[1..] && x !in seen + [xs[0]]
    requires NoDup(rest)
    ensures NoDup([xs[0]] + rest)
  {
    var r := [xs[0]] + rest;
    forall i, j | 0 <= i < j < |r| ensures r[i] != r[j] {
      assert r[j] == rest[j - 1] && r[j] in rest;
      if i > 0 {
        assert r[i] == rest[i - 1];
      }
    }
  }

  lemma DedupConsMembers(xs: seq<string>, seen: seq<string>, rest: seq<string>)
    requires |xs| > 0
    requires forall x :: x in rest <==> x in xs[1..] && x !in seen + [xs[0]]
    ensures forall x :: x in [xs[0]] + rest ==> x in xs
  {
    assert forall x :: x in [xs[0]] + rest ==> x == xs[0] || x in rest;
  }

  lemma DedupConsOrdered(xs: seq<string>, seen: seq<string>, rest: seq<string>)
    requires |xs| > 0 && xs[0] !in seen
    requires forall x :: x in rest <==> x in xs[1..] && x !in seen + [xs[0]]
    requires forall i, j :: 0 <= i < j < |rest| ==> FirstIndex(xs[1..], rest[i]) < FirstIndex(xs[1..], rest[j])
    ensures forall x :: x in [xs[0]] + rest ==> x in xs
    ensures forall i, j :: 0 <= i < j < |[xs[0]] + rest| ==>
      FirstIndex(xs, ([xs[0]] + rest)[i]) < FirstIndex(xs, ([xs[0]] + rest)[j])
  {
    var r := [xs[0]] + rest;
    DedupConsMembers(xs, seen, rest);
    DedupConsTail(xs, rest);
    assert FirstIndex(xs, xs[0]) == 0;
    forall i, j | 0 <= i < j < |r| ensures FirstIndex(xs, r[i]) < FirstIndex(xs, r[j]) {
      assert r[j] == rest[j - 1];
      if i > 0 {
        assert r[i] == rest[i - 1];
      }
    }
  }

  lemma DedupCons(xs: seq<string>, seen: seq<string>, rest: seq<string>)
    requires |xs| > 0 && xs[0] !in seen
    requires forall x :: x in rest <==> x in xs[1..] && x !in seen + [xs[0]]
    requires NoDup(rest)
    requires forall i, j :: 0 <= i < j < |rest| ==> FirstIndex(xs[1..], rest[i]) < FirstIndex(xs[1..], rest[j])
    ensures forall x :: x in [xs[0]] + rest ==> x in xs
    ensures NoDup([xs[0]] + rest)
    ensures forall i, j :: 0 <= i < j < |[xs[0]] + rest| ==>
      FirstIndex(xs, ([xs[0]] + rest)[i]) < FirstIndex(xs, ([xs[0]] + rest)[j])
  {
    DedupConsNoDup(xs, seen, rest);
    DedupConsOrdered(xs, seen, rest);
  }

  function Dedup(xs: seq<string>): seq<string> {
    DedupFrom(xs, [])
  }

  /** The objects whose prototype linking `names` may set. */
  function LinkedIds(chain: seq<Provider>, sentinel: ProviderId, names: seq<string>): set<ObjId> {
    set n, o | n in names && o in RefIds(AllButLast(Owners(chain, sentinel, n))) :: o
  }

  lemma OnlyProtosOfWithin(h: Heap, h': Heap, a: set<ObjId>, b: set<ObjId>)
    requires OnlyProtosOf(h, h', a) && a * h.Keys <= b
    ensures OnlyProtosOf(h, h', b)
  {
  }

  lemma LinkedIdsCons(chain: seq<Provider>, sentinel: ProviderId, names: seq<string>)
    requires |names| > 0
    ensures LinkedIds(chain, sentinel, names)
         == RefIds(AllButLast(Owners(chain, sentinel, names[0]))) + LinkedIds(chain, sentinel, names[1..])
  {
    forall o | o in LinkedIds(chain, sentinel, names)
      ensures o in RefIds(AllButLast(Owners(chain, sentinel, names[0]))) + LinkedIds(chain, sentinel, names[1..])
    {
      var n :| n in names && o in RefIds(AllButLast(Owners(chain, sentinel, n)));
      if n != names[0] {
        assert n in names[1..];
      }
    }
  }

  /** `_initPropertyChain` for each of `names` in turn, stopping at the first
      that throws. */
  function LinkAll(h: Heap, chain: seq<Provider>, sentinel: ProviderId, names: seq<string>): (r: Completion<()>)
    requires |chain| > 0 && RefsIn(h, chain)
    ensures OnlyProtosOf(h, r.heap, LinkedIds(chain, sentinel, names))
    decreases |names|
  {
    if |names| == 0 then Completion(h, Success(()))
    else
      var c := InitPropertyChain(h, chain, sentinel, names[0]);
      LinkedIdsCons(chain, sentinel, names);
      if c.outcome.Failure? then Completion(c.heap, Failure(c.outcome.error))
      else
        RefsInFrame(h, c.heap, chain, RefIds(AllButLast(Owners(chain, sentinel, names[0]))));
        var r := LinkAll(c.heap, chain, sentinel, names[1..]);
        OnlyProtosOfTrans(h, c.heap, r.heap, RefIds(AllButLast(Owners(chain, sentinel, names[0]))),
                          LinkedIds(chain, sentinel, names[1..]), LinkedIds(chain, sentinel, names));
        r
  }

  /** The inner loop of `_init` over one declaration list, with
      `completed` the names already chained, in the order they were added. */
  function DeclareEach(h: Heap, chain: seq<Provider>, sentinel: ProviderId, names: seq<string>, completed: seq<string>)
    : (r: Completion<seq<string>>)
    requires |chain| > 0 && RefsIn(h, chain)
    ensures OnlyProtosOf(h, r.heap, LinkedIds(chain, sentinel, names))
    decreases |names|
  {
    if |names| == 0 then Completion(h, Success(completed))
    else if names[0] in completed then
      LinkedIdsCons(chain, sentinel, names);
      var r := DeclareEach(h, chain, sentinel, names[1..], completed);
      OnlyProtosOfWithin(h, r.heap, LinkedIds(chain, sentinel, names[1..]), LinkedIds(chain, sentinel, names));
      r
    else
      var c := InitPropertyChain(h, chain, sentinel, names[0]);
      LinkedIdsCons(chain, sentinel, names);
      if c.outcome.Failure? then Completion(c.heap, Failure(c.outcome.error))
      else
        RefsInFrame(h, c.heap, chain, RefIds(AllButLast(Owners(chain, sentinel, names[0]))));
        var r := DeclareEach(c.heap, chain, sentinel, names[1..], completed + [names[0]]);
        OnlyProtosOfTrans(h, c.heap, r.heap, RefIds(AllButLast(Owners(chain, sentinel, names[0]))),
                          LinkedIds(chain, sentinel, names[1..]), LinkedIds(chain, sentinel, names));
        r
  }

  /** The outer loop of `_init` from the ancestor `chain[k]` on. */
  function CollectFrom(h: Heap, chain: seq<Provider>, sentinel: ProviderId, key: string, k: nat, completed: seq<string>)
    : (r: Completion<seq<string>>)
    requires |chain| > 0 && k <= |chain| && RefsIn(h, chain)
    ensures OnlyProtosOf(h, r.heap, h.Keys)
    decreases |chain| - k
  {
    if k == |chain| || chain[k].id == sentinel then Completion(h, Success(completed))
    else if key !in chain[k].own then CollectFrom(h, chain, sentinel, key, k + 1, completed)
    else
      assert ValIn(h, chain[k].own[key]);
      match ListedNames(h, chain[k].own[key])
      case Failure(e) => Completion(h, Failure(e))
      case Success(names) =>
        var c := DeclareEach(h, chain, sentinel, names, completed);
        OnlyProtosOfWithin(h, c.heap, LinkedIds(chain, sentinel, names), h.Keys);
        if c.outcome.Failure? then c
        else
          RefsInFrame(h, c.heap, chain, h.Keys);
          var r := CollectFrom(c.heap, chain, sentinel, key, k + 1, c.outcome.value);
          OnlyProtosOfTrans(h, c.heap, r.heap, h.Keys, c.heap.Keys, h.Keys);
          r
  }

  /** What `_init` amounts to, stated without its loops: the names it meets
      that are not in `completed`, each linked once in order of first
      declaration, and then the TypeError that cut the reading short, if any. */
  function CollectThenLink(h: Heap, chain: seq<Provider>, sentinel: ProviderId, d: Declared, completed: seq<string>)
    : Completion<seq<string>>
    requires |chain| > 0 && RefsIn(h, chain)
  {
    var newNames := DedupFrom(d.names, completed);
    var c := LinkAll(h, chain, sentinel, newNames);
    if c.outcome.Failure? then Completion(c.heap, Failure(c.outcome.error))
    else if d.error.Some? then Completion(c.heap, Failure(d.error.value))
    else Completion(c.heap, Success(completed + newNames))
  }

  /** Deduplicating a concatenation: the second part is deduplicated against
      everything the first part let through. */
  lemma {:induction false} DedupAppend(a: seq<string>, b: seq<string>, seen: seq<string>)
    ensures DedupFrom(a + b, seen) == DedupFrom(a, seen) + DedupFrom(b, seen + DedupFrom(a, seen))
    decreases |a|
  {
    if |a| == 0 {
      assert a + b == b;
      assert seen + [] == seen;
    } else {
      assert (a + b)[0] == a[0];
      assert (a + b)[1..] == a[1..] + b;
      if a[0] in seen {
        DedupAppend(a[1..], b, seen);
      } else {
        DedupAppend(a[1..], b, seen + [a[0]]);
        assert seen + [a[0]] + DedupFrom(a[1..], seen + [a[0]]) == seen + ([a[0]] + DedupFrom(a[1..], seen + [a[0]]));
      }
    }
  }

  /** Linking the names of a concatenation: the first part, then, unless it
      threw, the second part on the heap it left. */
  lemma {:induction false} LinkAllAppend(h: Heap, chain: seq<Provider>, sentinel: ProviderId, a: seq<string>, b: seq<string>)
    requires |chain| > 0 && RefsIn(h, chain)
    ensures var c := LinkAll(h, chain, sentinel, a);
      RefsIn(c.heap, chain)
      && LinkAll(h, chain, sentinel, a + b)
         == if c.outcome.Failure? then c else LinkAll(c.heap, chain, sentinel, b)
    decreases |a|
  {
    var c := LinkAll(h, chain, sentinel, a);
    RefsInFrame(h, c.heap, chain, LinkedIds(chain, sentinel, a));
    if |a| == 0 {
      assert a + b == b;
    } else {
      assert (a + b)[0] == a[0];
      assert (a + b)[1..] == a[1..] + b;
      var c0 := InitPropertyChain(h, chain, sentinel, a[0]);
      if c0.outcome.Success? {
        RefsInFrame(h, c0.heap, chain, RefIds(AllButLast(Owners(chain, sentinel, a[0]))));
        LinkAllAppend(c0.heap, chain, sentinel, a[1..], b);
      }
    }
  }

  /** Linking changes no element of any array, so the declarations read
      later in the walk are the ones there were at the start. */
  lemma {:induction false} DeclarationsFrame(h: Heap, h': Heap, ps: seq<Provider>, key: string, changed: set<ObjId>)
    requires RefsIn(h, ps) && OnlyProtosOf(h, h', changed)
    ensures RefsIn(h', ps)
    ensures Declarations(h', ps, key) == Declarations(h, ps, key)
    decreases |ps|
  {
    RefsInFrame(h, h', ps, changed);
    if |ps| > 0 {
      DeclarationsFrame(h, h', ps[1..], key, changed);
      if key in ps[0].own {
        assert ValIn(h, ps[0].own[key]);
        assert ListedNames(h', ps[0].own[key]) == ListedNames(h, ps[0].own[key]);
      }
    }
  }

  /** Linking a name list that starts with `n`: `n` first, then, unless it
      threw, the rest on the heap it left. */
  lemma LinkAllCons(h: Heap, chain: seq<Provider>, sentinel: ProviderId, n: string, rest: seq<string>)
    requires |chain| > 0 && RefsIn(h, chain)
    ensures var c := InitPropertyChain(h, chain, sentinel, n);
      RefsIn(c.heap, chain)
      && LinkAll(h, chain, sentinel, [n] + rest)
         == if c.outcome.Failure? then Completion(c.heap, Failure(c.outcome.error))
            else LinkAll(c.heap, chain, sentinel, rest)
  {
    var c := InitPropertyChain(h, chain, sentinel, n);
    RefsInFrame(h, c.heap, chain, RefIds(AllButLast(Owners(chain, sentinel, n))));
    assert ([n] + rest)[0] == n;
    assert ([n] + rest)[1..] == rest;
  }

  lemma DeclareEachNewName(h: Heap, chain: seq<Provider>, sentinel: ProviderId, names: seq<string>, completed: seq<string>)
    requires |chain| > 0 && RefsIn(h, chain)
    requires |names| > 0 && names[0] !in completed
    requires var c := InitPropertyChain(h, chain, sentinel, names[0]);
      c.outcome.Success? ==>
        RefsIn(c.heap, chain)
        && DeclareEach(c.heap, chain, sentinel, names[1..], completed + [names[0]])
           == CollectThenLink(c.heap, chain, sentinel, Declared(names[1..], None), completed + [names[0]])
    ensures DeclareEach(h, chain, sentinel, names, completed) == CollectThenLink(h, chain, sentinel, Declared(names, None), completed)
  {
    var rest := DedupFrom(names[1..], completed + [names[0]]);
    assert DedupFrom(names, completed) == [names[0]] + rest;
    LinkAllCons(h, chain, sentinel, names[0], rest);
    assert completed + [names[0]] + rest == completed + ([names[0]] + rest);
  }

  /** The inner loop links the names of one list that are not yet completed,
      once each, in order of first occurrence. */
  lemma {:induction false} DeclareEachLinksNewNames(h: Heap, chain: seq<Provider>, sentinel: ProviderId, names: seq<string>, completed: seq<string>)
    requires |chain| > 0 && RefsIn(h, chain)
    ensures DeclareEach(h, chain, sentinel, names, completed) == CollectThenLink(h, chain, sentinel, Declared(names, None), completed)
    decreases |names|
  {
    if |names| == 0 {
      assert completed + [] == completed;
    } else if names[0] in completed {
      DeclareEachLinksNewNames(h, chain, sentinel, names[1..], completed);
    } else {
      var c := InitPropertyChain(h, chain, sentinel, names[0]);
      LinkAllCons(h, chain, sentinel, names[0], []);
      if c.outcome.Success? {
        DeclareEachLinksNewNames(c.heap, chain, sentinel, names[1..], completed + [names[0]]);
      }
      DeclareEachNewName(h, chain, sentinel, names, completed);
    }
  }

  lemma UpToSentinelFrom(chain: seq<Provider>, sentinel: ProviderId, k: nat)
    requires k < |chain| && chain[k].id != sentinel
    ensures UpToSentinel(chain[k..], sentinel) == [chain[k]] + UpToSentinel(chain[k + 1..], sentinel)
  {
    assert chain[k..][0] == chain[k];
    assert chain[k..][1..] == chain[k + 1..];
  }

  /** `CollectThenLink` of one list followed by more declarations: the list
      first, then, unless it threw, the rest against the names it added. */
  lemma CollectThenLinkAppend(h: Heap, chain: seq<Provider>, sentinel: ProviderId, names: seq<string>, d: Declared, completed: seq<string>)
    requires |chain| > 0 && RefsIn(h, chain)
    ensures var c := CollectThenLink(h, chain, sentinel, Declared(names, None), completed);
      RefsIn(c.heap, chain)
      && CollectThenLink(h, chain, sentinel, Declared(names + d.names, d.error), completed)
         == if c.outcome.Failure? then c else CollectThenLink(c.heap, chain, sentinel, d, c.outcome.value)
  {
    var f1 := DedupFrom(names, completed);
    DedupAppend(names, d.names, completed);
    LinkAllAppend(h, chain, sentinel, f1, DedupFrom(d.names, completed + f1));
    assert completed + f1 + DedupFrom(d.names, completed + f1) == completed + (f1 + DedupFrom(d.names, completed + f1));
  }

  /** The case of an ancestor that owns an iterable declaration list. */
  lemma CollectFromOwner(h: Heap, chain: seq<Provider>, sentinel: ProviderId, key: string, k: nat, completed: seq<string>, names: seq<string>, d: Declared)
    requires |chain| > 0 && k < |chain| && RefsIn(h, chain) && chain[k].id != sentinel && key in chain[k].own
    requires ValIn(h, chain[k].own[key]) && ListedNames(h, chain[k].own[key]) == Success(names)
    requires var c := DeclareEach(h, chain, sentinel, names, completed);
      c.outcome.Success? ==>
        RefsIn(c.heap, chain)
        && CollectFrom(c.heap, chain, sentinel, key, k + 1, c.outcome.value)
           == CollectThenLink(c.heap, chain, sentinel, d, c.outcome.value)
    ensures CollectFrom(h, chain, sentinel, key, k, completed)
         == CollectThenLink(h, chain, sentinel, Declared(names + d.names, d.error), completed)
  {
    DeclareEachLinksNewNames(h, chain, sentinel, names, completed);
    CollectThenLinkAppend(h, chain, sentinel, names, d, completed);
  }

  /** The declarations from an ancestor that owns an iterable list on. */
  lemma DeclarationsOwner(h: Heap, chain: seq<Provider>, sentinel: ProviderId, key: string, k: nat, names: seq<string>)
    requires k < |chain| && RefsIn(h, chain) && chain[k].id != sentinel && key in chain[k].own
    requires ValIn(h, chain[k].own[key]) && ListedNames(h, chain[k].own[key]) == Success(names)
    ensures RefsIn(h, UpToSentinel(chain[k..], sentinel)) && RefsIn(h, UpToSentinel(chain[k + 1..], sentinel))
    ensures var d := Declarations(h, UpToSentinel(chain[k + 1..], sentinel), key);
      Declarations(h, UpToSentinel(chain[k..], sentinel), key) == Declared(names + d.names, d.error)
  {
    RefsInPrefix(h, chain[k..], UpToSentinel(chain[k..], sentinel));
    RefsInPrefix(h, chain[k + 1..], UpToSentinel(chain[k + 1..], sentinel));
    UpToSentinelFrom(chain, sentinel, k);
  }

  /** The outer loop from the ancestor `chain[k]` on is `CollectThenLink` of
      the declarations of the ancestors from `chain[k]` up to the sentinel. */
  lemma {:induction false} CollectFromLinksDeclared(h: Heap, chain: seq<Provider>, sentinel: ProviderId, key: string, k: nat, completed: seq<string>)
    requires |chain| > 0 && k <= |chain| && RefsIn(h, chain)
    ensures RefsIn(h, UpToSentinel(chain[k..], sentinel))
    ensures CollectFrom(h, chain, sentinel, key, k, completed)
         == CollectThenLink(h, chain, sentinel, Declarations(h, UpToSentinel(chain[k..], sentinel), key), completed)
    decreases |chain| - k
  {
    RefsInPrefix(h, chain[k..], UpToSentinel(chain[k..], sentinel));
    if k == |chain| || chain[k].id == sentinel {
      assert completed + [] == completed;
    } else {
      UpToSentinelFrom(chain, sentinel, k);
      RefsInPrefix(h, chain[k + 1..], UpToSentinel(chain[k + 1..], sentinel));
      if key !in chain[k].own {
        CollectFromLinksDeclared(h, chain, sentinel, key, k + 1, completed);
      } else {
        assert ValIn(h, chain[k].own[key]);
        match ListedNames(h, chain[k].own[key])
        case Failure(e) =>
        case Success(names) =>
          var d := Declarations(h, UpToSentinel(chain[k + 1..], sentinel), key);
          DeclarationsOwner(h, chain, sentinel, key, k, names);
          var c := DeclareEach(h, chain, sentinel, names, completed);
          if c.outcome.Success? {
            RefsInFrame(h, c.heap, chain, LinkedIds(chain, sentinel, names));
            CollectFromLinksDeclared(c.heap, chain, sentinel, key, k + 1, c.outcome.value);
            DeclarationsFrame(h, c.heap, UpToSentinel(chain[k + 1..], sentinel), key, LinkedIds(chain, sentinel, names));
          }
          CollectFromOwner(h, chain, sentinel, key, k, completed, names, d);
      }
    }
  }

  /** Deduplication keeps exactly the elements, so the objects linking may
      touch are the same. */
  lemma LinkedIdsDedup(chain: seq<Provider>, sentinel: ProviderId, names: seq<string>)
    ensures LinkedIds(chain, sentinel, Dedup(names)) == LinkedIds(chain, sentinel, names)
  {
    DedupFromKeepsFirstOccurrences(names, []);
  }

  /** The declarations the walk from `chain[0]` meets before the sentinel. */
  function DeclaredBefore(h: Heap, chain: seq<Provider>, sentinel: ProviderId, key: string): Declared
    requires RefsIn(h, chain)
  {
    RefsInPrefix(h, chain, UpToSentinel(chain, sentinel));
    Declarations(h, UpToSentinel(chain, sentinel), key)
  }

  /** The names `_init` hands to `_initPropertyChain`, in order. */
  function CollectedNames(h: Heap, chain: seq<Provider>, sentinel: ProviderId, key: string): seq<string>
    requires RefsIn(h, chain)
  {
    Dedup(DeclaredBefore(h, chain, sentinel, key).names)
  }

  /** `_init(options)` with `this` the first entry of `chain`, for the
      hierarchy whose walks stop at `sentinel`: it returns `this`, and only
      the prototypes of values chained for a collected name may change. */
  function Init(h: Heap, chain: seq<Provider>, sentinel: ProviderId, option: Option<string>): (r: Completion<ProviderId>)
    requires |chain| > 0 && RefsIn(h, chain)
    ensures r.outcome.Success? ==> r.outcome.value == chain[0].id
    ensures OnlyProtosOf(h, r.heap, LinkedIds(chain, sentinel, CollectedNames(h, chain, sentinel, ChainsKey(option))))
  {
    var key := ChainsKey(option);
    var c := CollectFrom(h, chain, sentinel, key, 0, []);
    assert chain[0..] == chain;
    CollectFromLinksDeclared(h, chain, sentinel, key, 0, []);
    LinkedIdsDedup(chain, sentinel, DeclaredBefore(h, chain, sentinel, key).names);
    Completion(c.heap, if c.outcome.Success? then Success(chain[0].id) else Failure(c.outcome.error))
  }

  /** `_init` links every declared name exactly once, in the order of its
      first declaration, most derived ancestor first; a list that is not
      iterable throws after the names before it were linked, and a link that
      throws ends the call with the links before it kept. */
  lemma InitLinksEachNameOnce(h: Heap, chain: seq<Provider>, sentinel: ProviderId, option: Option<string>)
    requires |chain| > 0 && RefsIn(h, chain)
    ensures var d := DeclaredBefore(h, chain, sentinel, ChainsKey(option));
      var c := LinkAll(h, chain, sentinel, Dedup(d.names));
      Init(h, chain, sentinel, option)
        == Completion(c.heap,
             if c.outcome.Failure? then Failure(c.outcome.error)
             else if d.error.Some? then Failure(d.error.value)
             else Success(chain[0].id))
  {
    assert chain[0..] == chain;
    CollectFromLinksDeclared(h, chain, sentinel, ChainsKey(option), 0, []);
  }
}
