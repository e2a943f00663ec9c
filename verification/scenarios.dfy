/** The hierarchies the test suite builds with the factory, written out as
    ancestor chains and heaps, and what the chainer does with them. */
module Scenarios {
  import opened Wrappers
  import opened JsObjects
  import opened Ancestry
  import opened Linker
  import opened ChainProperties
  import opened Collector
  import opened InitProperties
  import opened PropertyChainer

  /** The heap object `Object.prototype`, at the top of every literal's
      prototype chain. */
  const RootObject: ObjId := 100

  /** An object literal or array literal. */
  function Literal(props: map<string, Val>): Obj {
    Obj(Some(RootObject), true, props, None)
  }

  function ArrayOf(names: seq<string>): Obj {
    Obj(Some(RootObject), true, map[], Some(names))
  }

  /** A literal's prototype walk reaches `Object.prototype` and ends. */
  lemma LiteralWalk(h: Heap, o: ObjId)
    requires o in h && o != RootObject && h[o].proto == Some(RootObject)
    requires RootObject in h && h[RootObject].proto.None?
    ensures Walk(h, Some(o), {}) == [o, RootObject]
  {
    assert {} + {o} == {o} && {o} + {RootObject} == {o, RootObject};
    assert Walk(h, None, {o, RootObject}) == [];
    assert Walk(h, Some(RootObject), {o}) == [RootObject] + Walk(h, None, {o, RootObject});
    assert Walk(h, Some(o), {}) == [o] + Walk(h, Some(RootObject), {o});
  }

  /** Object literals: each exists, is extensible and delegates straight to
      `Object.prototype`. */
  predicate Literals(h: Heap, vs: seq<ObjId>) {
    && RootObject in h && h[RootObject].proto.None?
    && forall i :: 0 <= i < |vs| ==>
         vs[i] in h && vs[i] != RootObject && h[vs[i]].extensible && h[vs[i]].proto == Some(RootObject)
  }

  lemma LiteralsFresh(h: Heap, vs: seq<ObjId>)
    requires Literals(h, vs) && NoDup(vs)
    ensures Fresh(h, vs)
  {
    forall j | 0 <= j < |vs| ensures Walk(h, Some(vs[j]), {}) == [vs[j], RootObject] {
      LiteralWalk(h, vs[j]);
    }
  }

  lemma LiteralsApart(h: Heap, vs: seq<ObjId>, ws: seq<ObjId>)
    requires Literals(h, vs) && Literals(h, ws)
    requires forall i, j :: 0 <= i < |vs| && 0 <= j < |ws| ==> vs[i] != ws[j]
    ensures Apart(h, vs, ws)
  {
    forall j | 0 <= j < |ws| ensures Walk(h, Some(ws[j]), {}) == [ws[j], RootObject] {
      LiteralWalk(h, ws[j]);
    }
  }

  // The classes A, B and C of the tests: the prototypes (or, for statics,
  // the constructors) of each own `a`, `b` and `c`, each a literal with one
  // key named after the class, and A's declares all three as chains.

  function AbcHeap(): Heap {
    map[
      RootObject := Obj(None, true, map[], None),
      10 := Literal(map["a" := Str("a")]), 11 := Literal(map["a" := Str("a")]), 12 := Literal(map["a" := Str("a")]),
      20 := Literal(map["b" := Str("b")]), 21 := Literal(map["b" := Str("b")]), 22 := Literal(map["b" := Str("b")]),
      30 := Literal(map["c" := Str("c")]), 31 := Literal(map["c" := Str("c")]), 32 := Literal(map["c" := Str("c")]),
      40 := ArrayOf(["a", "b", "c"])]
  }

  /** C, B and A, most derived first, with A's declaration list under `key`. */
  function AbcLevels(c: ProviderId, b: ProviderId, a: ProviderId, key: string): seq<Provider> {
    [ Provider(c, map["a" := Ref(30), "b" := Ref(31), "c" := Ref(32)]),
      Provider(b, map["a" := Ref(20), "b" := Ref(21), "c" := Ref(22)]),
      Provider(a, map["a" := Ref(10), "b" := Ref(11), "c" := Ref(12), key := Ref(40)])]
  }

  /** The ancestors of an instance of C: the instance, C.prototype,
      B.prototype, A.prototype, the chainer's prototype, Object.prototype. */
  function InstanceAbcChain(key: string): seq<Provider> {
    [Provider(7, map[])] + AbcLevels(6, 5, 4, key) + [Provider(3, map[]), Provider(ObjectPrototype, map[])]
  }

  /** Identity of Function.prototype, which a constructor's ancestors reach
      before Object.prototype. */
  const FunctionPrototype: ProviderId := 2

  /** The ancestors of the constructor C: C, B, A, the chainer,
      Function.prototype, Object.prototype. `Object` itself is not among
      them, so the static walk runs to the end. */
  function StaticAbcChain(key: string): seq<Provider> {
    AbcLevels(16, 15, 14, key) + [Provider(13, map[]), Provider(FunctionPrototype, map[]), Provider(ObjectPrototype, map[])]
  }

  /** What the tests check on C's values after initialisation: each value
      delegates to B's and then to A's, and shows all three keys. */
  predicate AbcLinked(h: Heap) {
    && Follow(h, 30, 1) == Some(20) && Follow(h, 30, 2) == Some(10)
    && Follow(h, 31, 1) == Some(21) && Follow(h, 31, 2) == Some(11)
    && Follow(h, 32, 1) == Some(22) && Follow(h, 32, 2) == Some(12)
    && Lookup(h, 30, "a", 3) == Some(Str("a")) && Lookup(h, 30, "b", 3) == Some(Str("b")) && Lookup(h, 30, "c", 3) == Some(Str("c"))
    && Lookup(h, 31, "a", 3) == Some(Str("a")) && Lookup(h, 31, "b", 3) == Some(Str("b")) && Lookup(h, 31, "c", 3) == Some(Str("c"))
    && Lookup(h, 32, "a", 3) == Some(Str("a")) && Lookup(h, 32, "b", 3) == Some(Str("b")) && Lookup(h, 32, "c", 3) == Some(Str("c"))
  }

  /** Ancestors that own nothing declare nothing and hold no value. */
  lemma {:induction false} SkipEmpty(h: Heap, ps: seq<Provider>, rest: seq<Provider>, key: string, name: string)
    requires RefsIn(h, rest) && forall i :: 0 <= i < |ps| ==> ps[i].own == map[]
    ensures RefsIn(h, ps + rest)
    ensures Declarations(h, ps + rest, key) == Declarations(h, rest, key)
    ensures OwnValues(ps + rest, name) == OwnValues(rest, name)
    decreases |ps|
  {
    if |ps| > 0 {
      SkipEmpty(h, ps[1..], rest, key, name);
      assert (ps + rest)[1..] == ps[1..] + rest;
      assert (ps + rest)[0] == ps[0];
    } else {
      assert ps + rest == rest;
    }
  }

  /** Every value the three levels hold is in the heap. */
  lemma AbcRefsIn(c: ProviderId, b: ProviderId, a: ProviderId, key: string, post: seq<Provider>)
    requires forall i :: 0 <= i < |post| ==> post[i].own == map[]
    ensures RefsIn(AbcHeap(), AbcLevels(c, b, a, key) + post)
  {
    var h, ps := AbcHeap(), AbcLevels(c, b, a, key) + post;
    forall i, k | 0 <= i < |ps| && k in ps[i].own ensures ValIn(h, ps[i].own[k]) {
      assert i < 3;
    }
  }

  /** The three levels declare the three names. */
  lemma AbcDeclarations(c: ProviderId, b: ProviderId, a: ProviderId, key: string, post: seq<Provider>)
    requires key !in {"a", "b", "c"}
    requires forall i :: 0 <= i < |post| ==> post[i].own == map[]
    ensures RefsIn(AbcHeap(), AbcLevels(c, b, a, key) + post)
    ensures Declarations(AbcHeap(), AbcLevels(c, b, a, key) + post, key) == Declared(["a", "b", "c"], None)
  {
    var h, ps := AbcHeap(), AbcLevels(c, b, a, key) + post;
    AbcRefsIn(c, b, a, key, post);
    SkipEmpty(h, post, [], key, key);
    assert post + [] == post == ps[3..] == ps[2..][1..];
    assert ps[1..][1..] == ps[2..];
    assert ListedNames(h, Ref(40)) == Success(["a", "b", "c"]);
    assert Declarations(h, ps[2..], key) == Declared(["a", "b", "c"], None);
    assert Declarations(h, ps[1..], key) == Declared(["a", "b", "c"], None);
  }

  /** C's, B's and A's value of `name`. */
  function AbcIds(name: string): seq<ObjId> {
    if name == "a" then [30, 20, 10] else if name == "b" then [31, 21, 11] else [32, 22, 12]
  }

  /** The values a chain holds under `name` after one more ancestor. */
  lemma OwnValuesFront(p: Provider, rest: seq<Provider>, name: string)
    ensures OwnValues([p] + rest, name)
      == (if name in p.own then [p.own[name]] else []) + OwnValues(rest, name)
  {
    assert ([p] + rest)[1..] == rest;
  }

  /** For each name the three levels hold C's, B's and A's value in order. */
  lemma AbcOwnValues(c: ProviderId, b: ProviderId, a: ProviderId, key: string, post: seq<Provider>, name: string, vs: seq<ObjId>)
    requires key !in {"a", "b", "c"}
    requires forall i :: 0 <= i < |post| ==> post[i].own == map[]
    requires name in {"a", "b", "c"} && vs == AbcIds(name)
    ensures OwnValues(AbcLevels(c, b, a, key) + post, name) == Refs(vs)
  {
    var ps := AbcLevels(c, b, a, key) + post;
    SkipEmpty(map[], post, [], key, name);
    assert post + [] == post == ps[3..];
    assert ps == [ps[0]] + ps[1..] && ps[1..] == [ps[1]] + ps[2..] && ps[2..] == [ps[2]] + ps[3..];
    OwnValuesFront(ps[0], ps[1..], name);
    OwnValuesFront(ps[1], ps[2..], name);
    OwnValuesFront(ps[2], ps[3..], name);
  }

  /** Owners holding the objects `vs`, in order. */
  lemma OwnerIdsAre(chain: seq<Provider>, sentinel: ProviderId, name: string, vs: seq<ObjId>)
    requires Owners(chain, sentinel, name) == Refs(vs)
    ensures AllObjects(Owners(chain, sentinel, name)) && OwnerIds(chain, sentinel, name) == vs
  {
    var ids := OwnerIds(chain, sentinel, name);
    assert Refs(ids) == Refs(vs);
    assert forall i :: 0 <= i < |vs| ==> Refs(ids)[i] == Ref(ids[i]) && Refs(vs)[i] == Ref(vs[i]);
  }

  lemma AbcLiterals()
    ensures Literals(AbcHeap(), [30, 20, 10]) && Literals(AbcHeap(), [31, 21, 11]) && Literals(AbcHeap(), [32, 22, 12])
  {
  }

  /** The values of the three names are fresh and apart from one another. */
  lemma AbcApart()
    ensures Fresh(AbcHeap(), [30, 20, 10]) && Fresh(AbcHeap(), [31, 21, 11]) && Fresh(AbcHeap(), [32, 22, 12])
    ensures Apart(AbcHeap(), [30, 20, 10], [31, 21, 11]) && Apart(AbcHeap(), [30, 20, 10], [32, 22, 12])
    ensures Apart(AbcHeap(), [31, 21, 11], [30, 20, 10]) && Apart(AbcHeap(), [31, 21, 11], [32, 22, 12])
    ensures Apart(AbcHeap(), [32, 22, 12], [30, 20, 10]) && Apart(AbcHeap(), [32, 22, 12], [31, 21, 11])
  {
    var h := AbcHeap();
    var va, vb, vc := [30, 20, 10], [31, 21, 11], [32, 22, 12];
    AbcLiterals();
    LiteralsFresh(h, va);
    LiteralsFresh(h, vb);
    LiteralsFresh(h, vc);
    LiteralsApart(h, va, vb);
    LiteralsApart(h, va, vc);
    LiteralsApart(h, vb, va);
    LiteralsApart(h, vb, vc);
    LiteralsApart(h, vc, va);
    LiteralsApart(h, vc, vb);
  }

  /** The hierarchy's values are independent. */
  lemma AbcFresh(chain: seq<Provider>, sentinel: ProviderId)
    requires Owners(chain, sentinel, "a") == Refs([30, 20, 10])
    requires Owners(chain, sentinel, "b") == Refs([31, 21, 11])
    requires Owners(chain, sentinel, "c") == Refs([32, 22, 12])
    ensures Independent(AbcHeap(), chain, sentinel, ["a", "b", "c"])
  {
    OwnerIdsAre(chain, sentinel, "a", [30, 20, 10]);
    OwnerIdsAre(chain, sentinel, "b", [31, 21, 11]);
    OwnerIdsAre(chain, sentinel, "c", [32, 22, 12]);
    AbcApart();
  }

  /** One of C's values, once chained, shows what the tests check. */
  lemma ChainedShowsAll(h: Heap, vs: seq<ObjId>)
    requires |vs| == 3 && (forall i :: 0 <= i < 3 ==> vs[i] in h) && Chained(h, vs)
    requires h[vs[0]].props == map["c" := Str("c")]
    requires h[vs[1]].props == map["b" := Str("b")]
    requires h[vs[2]].props == map["a" := Str("a")]
    ensures Follow(h, vs[0], 1) == Some(vs[1]) && Follow(h, vs[0], 2) == Some(vs[2])
    ensures Lookup(h, vs[0], "a", 3) == Some(Str("a"))
    ensures Lookup(h, vs[0], "b", 3) == Some(Str("b"))
    ensures Lookup(h, vs[0], "c", 3) == Some(Str("c"))
  {
    ChainedFollow(h, vs, 1);
    ChainedFollow(h, vs, 2);
    ChainedLookup(h, vs, "a", 2);
    ChainedLookup(h, vs, "b", 1);
    ChainedLookup(h, vs, "c", 0);
  }

  /** Reading either hierarchy up to its sentinel. */
  lemma AbcRead(chain: seq<Provider>, sentinel: ProviderId, key: string,
                pre: seq<Provider>, c: ProviderId, b: ProviderId, a: ProviderId, post: seq<Provider>)
    requires key !in {"a", "b", "c"}
    requires forall i :: 0 <= i < |pre| ==> pre[i].own == map[]
    requires forall i :: 0 <= i < |post| ==> post[i].own == map[]
    requires RefsIn(AbcHeap(), chain)
    requires UpToSentinel(chain, sentinel) == pre + AbcLevels(c, b, a, key) + post
    ensures DeclaredBefore(AbcHeap(), chain, sentinel, key) == Declared(["a", "b", "c"], None)
    ensures Owners(chain, sentinel, "a") == Refs([30, 20, 10])
    ensures Owners(chain, sentinel, "b") == Refs([31, 21, 11])
    ensures Owners(chain, sentinel, "c") == Refs([32, 22, 12])
  {
    var h := AbcHeap();
    var levels := AbcLevels(c, b, a, key);
    assert pre + levels + post == pre + (levels + post);
    AbcDeclarations(c, b, a, key, post);
    SkipEmpty(h, pre, levels + post, key, "a");
    AbcOwnValues(c, b, a, key, post, "a", [30, 20, 10]);
    SkipEmpty(h, pre, levels + post, key, "b");
    AbcOwnValues(c, b, a, key, post, "b", [31, 21, 11]);
    SkipEmpty(h, pre, levels + post, key, "c");
    AbcOwnValues(c, b, a, key, post, "c", [32, 22, 12]);
  }

  /** `_init` over either hierarchy: it returns `this` and leaves every value
      of C delegating to B's and A's. */
  lemma AbcInitChains(chain: seq<Provider>, sentinel: ProviderId, option: Option<string>,
                      pre: seq<Provider>, c: ProviderId, b: ProviderId, a: ProviderId, post: seq<Provider>)
    requires ChainsKey(option) !in {"a", "b", "c"}
    requires forall i :: 0 <= i < |pre| ==> pre[i].own == map[]
    requires forall i :: 0 <= i < |post| ==> post[i].own == map[]
    requires |chain| > 0 && RefsIn(AbcHeap(), chain)
    requires UpToSentinel(chain, sentinel) == pre + AbcLevels(c, b, a, ChainsKey(option)) + post
    ensures var r := Init(AbcHeap(), chain, sentinel, option);
      r.outcome == Success(chain[0].id) && AbcLinked(r.heap)
  {
    var h, key := AbcHeap(), ChainsKey(option);
    AbcRead(chain, sentinel, key, pre, c, b, a, post);
    assert Dedup(["a", "b", "c"]) == ["a", "b", "c"];
    AbcFresh(chain, sentinel);
    InitChainsIndependentNames(h, chain, sentinel, option);
    var r := Init(h, chain, sentinel, option);
    AbcShowsAll(chain, sentinel, r.heap);
  }

  lemma AbcShowsAll(chain: seq<Provider>, sentinel: ProviderId, h: Heap)
    requires Owners(chain, sentinel, "a") == Refs([30, 20, 10])
    requires Owners(chain, sentinel, "b") == Refs([31, 21, 11])
    requires Owners(chain, sentinel, "c") == Refs([32, 22, 12])
    requires OnlyProtosOf(AbcHeap(), h, h.Keys)
    requires forall n :: n in ["a", "b", "c"] ==> Chained(h, OwnerIds(chain, sentinel, n))
    ensures AbcLinked(h)
  {
    assert "a" in ["a", "b", "c"] && "b" in ["a", "b", "c"] && "c" in ["a", "b", "c"];
    OwnerIdsAre(chain, sentinel, "a", [30, 20, 10]);
    OwnerIdsAre(chain, sentinel, "b", [31, 21, 11]);
    OwnerIdsAre(chain, sentinel, "c", [32, 22, 12]);
    ChainedShowsAll(h, [30, 20, 10]);
    ChainedShowsAll(h, [31, 21, 11]);
    ChainedShowsAll(h, [32, 22, 12]);
  }

  /** An instance of C built over A's list under `key`: its walk up to
      Object.prototype. */
  lemma InstanceAbcWalk(key: string)
    ensures RefsIn(AbcHeap(), InstanceAbcChain(key))
    ensures UpToSentinel(InstanceAbcChain(key), ObjectPrototype)
      == [Provider(7, map[])] + AbcLevels(6, 5, 4, key) + [Provider(3, map[])]
  {
    var post := [Provider(3, map[]), Provider(ObjectPrototype, map[])];
    AbcRefsIn(6, 5, 4, key, post);
    SkipEmpty(AbcHeap(), [Provider(7, map[])], AbcLevels(6, 5, 4, key) + post, key, key);
    var before := [Provider(7, map[])] + AbcLevels(6, 5, 4, key) + [Provider(3, map[])];
    assert InstanceAbcChain(key) == [Provider(7, map[])] + (AbcLevels(6, 5, 4, key) + post)
                                 == before + [Provider(ObjectPrototype, map[])] + [];
    UpToSentinelAt(before, Provider(ObjectPrototype, map[]), [], ObjectPrototype);
  }

  /** The constructor C's walk: it never meets `Object` and runs to the end. */
  lemma StaticAbcWalk(key: string)
    ensures RefsIn(AbcHeap(), StaticAbcChain(key))
    ensures UpToSentinel(StaticAbcChain(key), ObjectConstructor) == StaticAbcChain(key)
  {
    var chain := StaticAbcChain(key);
    AbcRefsIn(16, 15, 14, key, chain[3..]);
    assert chain == AbcLevels(16, 15, 14, key) + chain[3..];
    var r := UpToSentinel(chain, ObjectConstructor);
    assert forall i :: 0 <= i < |chain| ==> chain[i].id != ObjectConstructor;
    assert |r| == |chain|;
  }

  /** Instances chain their prototypes' values (the first instance test). */
  lemma InstanceChainsAbc()
    ensures var r := InstanceInit(AbcHeap(), InstanceAbcChain(DefaultChainsKey), None);
      r.outcome == Success(7) && AbcLinked(r.heap)
  {
    InstanceAbcWalk(DefaultChainsKey);
    AbcInitChains(InstanceAbcChain(DefaultChainsKey), ObjectPrototype, None,
                  [Provider(7, map[])], 6, 5, 4, [Provider(3, map[])]);
  }

  /** The same with the list kept under `somethingElse` and that name passed
      as `propertyChainsPropertyName`. */
  lemma InstanceChainsAbcCustomKey()
    ensures var r := InstanceInit(AbcHeap(), InstanceAbcChain("somethingElse"), Some("somethingElse"));
      r.outcome == Success(7) && AbcLinked(r.heap)
  {
    InstanceAbcWalk("somethingElse");
    AbcInitChains(InstanceAbcChain("somethingElse"), ObjectPrototype, Some("somethingElse"),
                  [Provider(7, map[])], 6, 5, 4, [Provider(3, map[])]);
  }

  /** Constructors chain their own static values. The factory runs the static
      `_init` as it creates each of A, B and C; this is the single run on C
      over values not yet linked. The end state is the same: the run on A
      links nothing, the run on B links B's values to A's, and the run on C
      links C's values to B's and stops at the link already in place, as
      the duplicate test below goes through step by step. */
  lemma StaticChainsAbc()
    ensures var r := StaticInit(AbcHeap(), StaticAbcChain(DefaultChainsKey), None);
      r.outcome == Success(16) && AbcLinked(r.heap)
  {
    var chain := StaticAbcChain(DefaultChainsKey);
    StaticAbcWalk(DefaultChainsKey);
    assert chain == [] + AbcLevels(16, 15, 14, DefaultChainsKey) + chain[3..];
    AbcInitChains(chain, ObjectConstructor, None, [], 16, 15, 14, chain[3..]);
  }

  /** The same for statics with a custom declaration key. */
  lemma StaticChainsAbcCustomKey()
    ensures var r := StaticInit(AbcHeap(), StaticAbcChain("somethingElse"), Some("somethingElse"));
      r.outcome == Success(16) && AbcLinked(r.heap)
  {
    var chain := StaticAbcChain("somethingElse");
    StaticAbcWalk("somethingElse");
    assert chain == [] + AbcLevels(16, 15, 14, "somethingElse") + chain[3..];
    AbcInitChains(chain, ObjectConstructor, Some("somethingElse"), [], 16, 15, 14, chain[3..]);
  }

  // The duplicate test: A declares `a` three times, on its prototype and on
  // itself, and the same three literals `aa`, `bb` and `cc` are both the
  // prototypes' and the constructors' values of `a`. The factory runs the
  // static `_init` as it creates each of A, B and C, and the instance
  // `_init` when it creates `c`.

  function DupHeap(): Heap {
    map[
      RootObject := Obj(None, true, map[], None),
      50 := Literal(map["a" := Str("a")]),
      51 := Literal(map["b" := Str("b")]),
      52 := Literal(map["c" := Str("c")]),
      53 := ArrayOf(["a", "a", "a"]),
      54 := ArrayOf(["a", "a", "a"])]
  }

  /** After B is created, `bb` delegates to `aa`; after C, `cc` to `bb`. */
  function DupAfterB(): Heap {
    WithProto(DupHeap(), 51, 50)
  }

  function DupAfterC(): Heap {
    WithProto(DupAfterB(), 52, 51)
  }

  function StaticTail(): seq<Provider> {
    [Provider(13, map[]), Provider(FunctionPrototype, map[]), Provider(ObjectPrototype, map[])]
  }

  function StaticDupA(): seq<Provider> {
    [Provider(24, map["a" := Ref(50), DefaultChainsKey := Ref(53)])] + StaticTail()
  }

  function StaticDupB(): seq<Provider> {
    [Provider(25, map["a" := Ref(51)])] + StaticDupA()
  }

  function StaticDupC(): seq<Provider> {
    [Provider(26, map["a" := Ref(52)])] + StaticDupB()
  }

  function InstanceTail(): seq<Provider> {
    [Provider(3, map[]), Provider(ObjectPrototype, map[])]
  }

  function ProtoDupA(): seq<Provider> {
    [Provider(34, map["a" := Ref(50), DefaultChainsKey := Ref(54)])] + InstanceTail()
  }

  function ProtoDupB(): seq<Provider> {
    [Provider(35, map["a" := Ref(51)])] + ProtoDupA()
  }

  function ProtoDupC(): seq<Provider> {
    [Provider(36, map["a" := Ref(52)])] + ProtoDupB()
  }

  /** The ancestors of `c`: itself, then the prototypes of C, B, A and the
      chainer, then Object.prototype. */
  function InstanceDupC(): seq<Provider> {
    [Provider(37, map[])] + ProtoDupC()
  }

  /** `_init` of a hierarchy whose only declaration is a list repeating one
      name: it amounts to one `_initPropertyChain` of that name. */
  lemma InitOneName(h: Heap, chain: seq<Provider>, sentinel: ProviderId, option: Option<string>, name: string)
    requires |chain| > 0 && RefsIn(h, chain)
    requires DeclaredBefore(h, chain, sentinel, ChainsKey(option)) == Declared([name, name, name], None)
    ensures var c := InitPropertyChain(h, chain, sentinel, name);
      Init(h, chain, sentinel, option)
        == Completion(c.heap, if c.outcome.Success? then Success(chain[0].id) else Failure(c.outcome.error))
  {
    InitLinksEachNameOnce(h, chain, sentinel, option);
    var xs := [name, name, name];
    assert DedupFrom(xs[2..], [name]) == [] by {
      assert xs[2..][1..] == [];
    }
    assert DedupFrom(xs[1..], [name]) == [] by {
      assert xs[1..][1..] == xs[2..];
    }
    assert Dedup(xs) == [name] by {
      assert [] + [name] == [name];
    }
    assert [name][1..] == [];
  }

  /** A chain without the sentinel is walked to its end. */
  lemma NoSentinel(chain: seq<Provider>, sentinel: ProviderId)
    requires forall i :: 0 <= i < |chain| ==> chain[i].id != sentinel
    ensures UpToSentinel(chain, sentinel) == chain
  {
    assert |UpToSentinel(chain, sentinel)| == |chain|;
  }

  /** One more ancestor in front of a chain. */
  lemma ReadFront(h: Heap, p: Provider, rest: seq<Provider>, key: string, name: string)
    requires RefsIn(h, [p] + rest)
    ensures RefsIn(h, rest)
    ensures key !in p.own ==> Declarations(h, [p] + rest, key) == Declarations(h, rest, key)
    ensures OwnValues([p] + rest, name)
      == (if name in p.own then [p.own[name]] else []) + OwnValues(rest, name)
  {
    assert ([p] + rest)[1..] == rest;
    RefsInPrefix(h, [p] + rest, [p] + rest);
    forall i, k | 0 <= i < |rest| && k in rest[i].own ensures ValIn(h, rest[i].own[k]) {
      assert rest[i] == ([p] + rest)[i + 1];
    }
  }

  /** What each of the duplicate test's chains declares and holds under `a`. */
  lemma StaticDupReadA(h: Heap)
    requires 50 in h && 53 in h && h[53].elems == Some(["a", "a", "a"])
    ensures RefsIn(h, StaticDupA())
    ensures DeclaredBefore(h, StaticDupA(), ObjectConstructor, DefaultChainsKey) == Declared(["a", "a", "a"], None)
    ensures Owners(StaticDupA(), ObjectConstructor, "a") == Refs([50])
  {
    var key, a := DefaultChainsKey, StaticDupA();
    assert RefsIn(h, a);
    NoSentinel(a, ObjectConstructor);
    SkipEmpty(h, StaticTail(), [], key, "a");
    assert StaticTail() + [] == StaticTail();
    ReadFront(h, a[0], StaticTail(), key, "a");
    assert ListedNames(h, Ref(53)) == Success(["a", "a", "a"]);
  }

  lemma StaticDupReadB(h: Heap)
    requires 50 in h && 51 in h && 53 in h && h[53].elems == Some(["a", "a", "a"])
    ensures RefsIn(h, StaticDupB())
    ensures DeclaredBefore(h, StaticDupB(), ObjectConstructor, DefaultChainsKey) == Declared(["a", "a", "a"], None)
    ensures Owners(StaticDupB(), ObjectConstructor, "a") == Refs([51, 50])
  {
    var b := StaticDupB();
    StaticDupReadA(h);
    assert RefsIn(h, b);
    NoSentinel(b, ObjectConstructor);
    NoSentinel(StaticDupA(), ObjectConstructor);
    ReadFront(h, b[0], StaticDupA(), DefaultChainsKey, "a");
  }

  lemma StaticDupReadC(h: Heap)
    requires 50 in h && 51 in h && 52 in h && 53 in h && h[53].elems == Some(["a", "a", "a"])
    ensures RefsIn(h, StaticDupC())
    ensures DeclaredBefore(h, StaticDupC(), ObjectConstructor, DefaultChainsKey) == Declared(["a", "a", "a"], None)
    ensures Owners(StaticDupC(), ObjectConstructor, "a") == Refs([52, 51, 50])
  {
    var c := StaticDupC();
    StaticDupReadB(h);
    assert RefsIn(h, c);
    NoSentinel(c, ObjectConstructor);
    NoSentinel(StaticDupB(), ObjectConstructor);
    ReadFront(h, c[0], StaticDupB(), DefaultChainsKey, "a");
  }

  /** The prototypes' part of `c`'s walk, up to Object.prototype. */
  lemma ProtoDupReadA(h: Heap)
    requires 50 in h && 54 in h && h[54].elems == Some(["a", "a", "a"])
    ensures RefsIn(h, ProtoDupA())
    ensures UpToSentinel(ProtoDupA(), ObjectPrototype) == ProtoDupA()[..2]
    ensures Declarations(h, ProtoDupA()[..2], DefaultChainsKey) == Declared(["a", "a", "a"], None)
    ensures OwnValues(ProtoDupA()[..2], "a") == Refs([50])
  {
    var key, a := DefaultChainsKey, ProtoDupA();
    assert RefsIn(h, a);
    assert a == a[..2] + [a[2]] + [];
    UpToSentinelAt(a[..2], a[2], [], ObjectPrototype);
    RefsInPrefix(h, a, a[..2]);
    assert a[..2] == [a[0]] + [a[1]];
    SkipEmpty(h, [a[1]], [], key, "a");
    assert [a[1]] + [] == [a[1]];
    ReadFront(h, a[0], [a[1]], key, "a");
    assert ListedNames(h, Ref(54)) == Success(["a", "a", "a"]);
  }

  lemma InstanceDupRead(h: Heap)
    requires 50 in h && 51 in h && 52 in h && 54 in h && h[54].elems == Some(["a", "a", "a"])
    ensures RefsIn(h, InstanceDupC())
    ensures DeclaredBefore(h, InstanceDupC(), ObjectPrototype, DefaultChainsKey) == Declared(["a", "a", "a"], None)
    ensures Owners(InstanceDupC(), ObjectPrototype, "a") == Refs([52, 51, 50])
  {
    var key, chain := DefaultChainsKey, InstanceDupC();
    ProtoDupReadA(h);
    var a := ProtoDupA();
    var pre := InstanceDupC()[..5];
    assert chain == pre + [a[2]] + [];
    assert pre == [chain[0]] + ([chain[1]] + ([chain[2]] + a[..2]));
    UpToSentinelAt(pre, a[2], [], ObjectPrototype);
    assert RefsIn(h, chain);
    RefsInPrefix(h, chain, pre);
    ReadFront(h, chain[0], [chain[1]] + ([chain[2]] + a[..2]), key, "a");
    ReadFront(h, chain[1], [chain[2]] + a[..2], key, "a");
    ReadFront(h, chain[2], a[..2], key, "a");
  }

  /** `_init` of a new subclass whose one declared name's chain is built
      above it: one link is made. */
  lemma InitOneNameExtends(h: Heap, chain: seq<Provider>, sentinel: ProviderId, option: Option<string>, name: string, vs: seq<ObjId>)
    requires |chain| > 0 && RefsIn(h, chain)
    requires DeclaredBefore(h, chain, sentinel, ChainsKey(option)) == Declared([name, name, name], None)
    requires Owners(chain, sentinel, name) == Refs(vs)
    requires |vs| >= 2 && (forall i :: 0 <= i < |vs| ==> vs[i] in h) && Chained(h, vs[1..])
    requires forall i :: 1 <= i < |vs| ==> vs[i] != vs[0]
    requires h[vs[0]].extensible && h[vs[0]].proto != Some(vs[1])
    requires vs[0] !in Walk(h, Some(vs[1]), {})
    ensures Init(h, chain, sentinel, option) == Completion(WithProto(h, vs[0], vs[1]), Success(chain[0].id))
    ensures Chained(WithProto(h, vs[0], vs[1]), vs)
  {
    InitOneName(h, chain, sentinel, option, name);
    InitPropertyChainExtends(h, chain, sentinel, name, vs);
  }

  /** Creating A: its one value has nothing to link to. */
  lemma DupCreateA()
    ensures RefsIn(DupHeap(), StaticDupA())
    ensures StaticInit(DupHeap(), StaticDupA(), None) == Completion(DupHeap(), Success(24))
  {
    var h := DupHeap();
    StaticDupReadA(h);
    InitOneName(h, StaticDupA(), ObjectConstructor, None, "a");
    InitPropertyChainStable(h, StaticDupA(), ObjectConstructor, "a", [50]);
  }

  /** Before B is created `bb` can be linked to `aa`. */
  lemma DupHeapFacts()
    ensures 50 in DupHeap() && 51 in DupHeap()
    ensures DupHeap()[51].extensible && DupHeap()[51].proto != Some(50)
    ensures 51 !in Walk(DupHeap(), Some(50), {})
  {
    LiteralWalk(DupHeap(), 50);
  }

  /** Creating B links `bb` to `aa`. */
  lemma DupCreateB()
    ensures RefsIn(DupHeap(), StaticDupB())
    ensures StaticInit(DupHeap(), StaticDupB(), None) == Completion(DupAfterB(), Success(25))
  {
    var h := DupHeap();
    StaticDupReadB(h);
    DupHeapFacts();
    InitOneNameExtends(h, StaticDupB(), ObjectConstructor, None, "a", [51, 50]);
  }

  /** `bb`'s chain after B is created: `aa`, then Object.prototype. */
  lemma WalkAfterB()
    ensures Walk(DupAfterB(), Some(51), {}) == [51, 50, RootObject]
  {
    var h := DupAfterB();
    assert {} + {51} == {51} && {51} + {50} == {51, 50} && {51, 50} + {RootObject} == {51, 50, RootObject};
    assert Walk(h, None, {51, 50, RootObject}) == [];
    assert Walk(h, Some(RootObject), {51, 50}) == [RootObject] + Walk(h, None, {51, 50, RootObject});
    assert Walk(h, Some(50), {51}) == [50] + Walk(h, Some(RootObject), {51, 50});
    assert Walk(h, Some(51), {}) == [51] + Walk(h, Some(50), {51});
  }

  /** After B is created `cc` can still be linked to `bb`. */
  lemma AfterBFacts()
    ensures 50 in DupAfterB() && 51 in DupAfterB() && 52 in DupAfterB() && 53 in DupAfterB()
    ensures DupAfterB()[53].elems == Some(["a", "a", "a"])
    ensures Chained(DupAfterB(), [51, 50])
    ensures DupAfterB()[52].extensible && DupAfterB()[52].proto != Some(51)
    ensures 52 !in Walk(DupAfterB(), Some(51), {})
  {
    WalkAfterB();
  }

  /** Creating C links `cc` to `bb` and stops at the existing link from `bb`. */
  lemma DupCreateC()
    ensures RefsIn(DupAfterB(), StaticDupC())
    ensures StaticInit(DupAfterB(), StaticDupC(), None) == Completion(DupAfterC(), Success(26))
    ensures Chained(DupAfterC(), [52, 51, 50])
  {
    var h := DupAfterB();
    AfterBFacts();
    StaticDupReadC(h);
    InitOneNameExtends(h, StaticDupC(), ObjectConstructor, None, "a", [52, 51, 50]);
  }

  /** Creating the instance `c` finds `cc` already linked to `bb` and stops
      at once. */
  lemma DupCreateInstance()
    ensures RefsIn(DupAfterC(), InstanceDupC())
    ensures InstanceInit(DupAfterC(), InstanceDupC(), None) == Completion(DupAfterC(), Success(37))
  {
    var h := DupAfterC();
    InstanceDupRead(h);
    InitOneName(h, InstanceDupC(), ObjectPrototype, None, "a");
    DupCreateC();
    InitPropertyChainStable(h, InstanceDupC(), ObjectPrototype, "a", [52, 51, 50]);
  }

  /** The duplicate test end to end: a name declared three times is chained
      once, the shared values are linked by the static side as the classes
      are created, the instance changes nothing more, and `cc` then shows
      all three keys. */
  lemma DuplicateNamesChainOnce()
    ensures RefsIn(DupHeap(), StaticDupA()) && RefsIn(DupHeap(), StaticDupB())
    ensures RefsIn(DupAfterB(), StaticDupC()) && RefsIn(DupAfterC(), InstanceDupC())
    ensures StaticInit(DupHeap(), StaticDupA(), None).heap == DupHeap()
    ensures StaticInit(DupHeap(), StaticDupB(), None).heap == DupAfterB()
    ensures StaticInit(DupAfterB(), StaticDupC(), None).heap == DupAfterC()
    ensures InstanceInit(DupAfterC(), InstanceDupC(), None) == Completion(DupAfterC(), Success(37))
  {
    DupCreateA();
    DupCreateB();
    DupCreateC();
    DupCreateInstance();
  }

  /** After all of that, `cc` delegates to `bb` and then `aa`, and shows all
      three keys. */
  lemma DuplicateNamesShowAll()
    ensures Follow(DupAfterC(), 52, 1) == Some(51) && Follow(DupAfterC(), 52, 2) == Some(50)
    ensures Lookup(DupAfterC(), 52, "a", 3) == Some(Str("a"))
    ensures Lookup(DupAfterC(), 52, "b", 3) == Some(Str("b"))
    ensures Lookup(DupAfterC(), 52, "c", 3) == Some(Str("c"))
  {
    DupCreateC();
    ChainedShowsAll(DupAfterC(), [52, 51, 50]);
  }
}
