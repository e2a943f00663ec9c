/** The exported chainer: `_init` and `_initPropertyChain` built twice from
    the same two methods, once for instances (breaking at
    `Object.prototype`) and once for the constructors themselves (breaking
    at `Object`). */
module PropertyChainer {
  import opened Wrappers
  import opened JsObjects
  import opened Ancestry
  import opened Linker
  import opened ChainProperties
  import opened Collector
  import opened InitProperties

  /** The identities of the two break values. */
  const ObjectPrototype: ProviderId := 0
  const ObjectConstructor: ProviderId := 1

  /** `_init` of an instance. */
  function InstanceInit(h: Heap, chain: seq<Provider>, option: Option<string>): (r: Completion<ProviderId>)
    requires |chain| > 0 && RefsIn(h, chain)
    ensures r.outcome.Success? ==> r.outcome.value == chain[0].id
    ensures OnlyProtosOf(h, r.heap, LinkedIds(chain, ObjectPrototype, CollectedNames(h, chain, ObjectPrototype, ChainsKey(option))))
  {
    Init(h, chain, ObjectPrototype, option)
  }

  /** `_initPropertyChain` of an instance. */
  function InstanceInitPropertyChain(h: Heap, chain: seq<Provider>, name: string): (r: Completion<ProviderId>)
    requires |chain| > 0 && RefsIn(h, chain)
    ensures r.outcome.Success? ==> r.outcome.value == chain[0].id
    ensures OnlyProtosOf(h, r.heap, RefIds(AllButLast(Owners(chain, ObjectPrototype, name))))
  {
    InitPropertyChain(h, chain, ObjectPrototype, name)
  }

  /** The static `_init`, run on a constructor. */
  function StaticInit(h: Heap, chain: seq<Provider>, option: Option<string>): (r: Completion<ProviderId>)
    requires |chain| > 0 && RefsIn(h, chain)
    ensures r.outcome.Success? ==> r.outcome.value == chain[0].id
    ensures OnlyProtosOf(h, r.heap, LinkedIds(chain, ObjectConstructor, CollectedNames(h, chain, ObjectConstructor, ChainsKey(option))))
  {
    Init(h, chain, ObjectConstructor, option)
  }

  /** The static `_initPropertyChain`, run on a constructor. */
  function StaticInitPropertyChain(h: Heap, chain: seq<Provider>, name: string): (r: Completion<ProviderId>)
    requires |chain| > 0 && RefsIn(h, chain)
    ensures r.outcome.Success? ==> r.outcome.value == chain[0].id
    ensures OnlyProtosOf(h, r.heap, RefIds(AllButLast(Owners(chain, ObjectConstructor, name))))
  {
    InitPropertyChain(h, chain, ObjectConstructor, name)
  }

  /** Instance mode never reads `Object.prototype` or anything after it:
      whatever it owns, and whatever follows it, the outcome is the same. */
  lemma InstanceModeIgnoresObjectPrototype(h: Heap, before: seq<Provider>, at1: Provider, after1: seq<Provider>,
                                           at2: Provider, after2: seq<Provider>, option: Option<string>, name: string)
    requires |before| > 0 && forall i :: 0 <= i < |before| ==> before[i].id != ObjectPrototype
    requires at1.id == ObjectPrototype && at2.id == ObjectPrototype
    requires RefsIn(h, before + [at1] + after1) && RefsIn(h, before + [at2] + after2)
    ensures InstanceInit(h, before + [at1] + after1, option) == InstanceInit(h, before + [at2] + after2, option)
    ensures InstanceInitPropertyChain(h, before + [at1] + after1, name) == InstanceInitPropertyChain(h, before + [at2] + after2, name)
  {
    var chain1, chain2 := before + [at1] + after1, before + [at2] + after2;
    UpToSentinelAt(before, at1, after1, ObjectPrototype);
    UpToSentinelAt(before, at2, after2, ObjectPrototype);
    assert chain1[0] == before[0] && chain2[0] == before[0];
    InitStopsAtSentinel(h, chain1, ObjectPrototype, chain2, ObjectPrototype, option);
    InitPropertyChainStopsAtSentinel(h, chain1, ObjectPrototype, chain2, ObjectPrototype, name);
  }

  /** Static mode never reads `Object` or anything after it. */
  lemma StaticModeIgnoresObject(h: Heap, before: seq<Provider>, at1: Provider, after1: seq<Provider>,
                                at2: Provider, after2: seq<Provider>, option: Option<string>, name: string)
    requires |before| > 0 && forall i :: 0 <= i < |before| ==> before[i].id != ObjectConstructor
    requires at1.id == ObjectConstructor && at2.id == ObjectConstructor
    requires RefsIn(h, before + [at1] + after1) && RefsIn(h, before + [at2] + after2)
    ensures StaticInit(h, before + [at1] + after1, option) == StaticInit(h, before + [at2] + after2, option)
    ensures StaticInitPropertyChain(h, before + [at1] + after1, name) == StaticInitPropertyChain(h, before + [at2] + after2, name)
  {
    var chain1, chain2 := before + [at1] + after1, before + [at2] + after2;
    UpToSentinelAt(before, at1, after1, ObjectConstructor);
    UpToSentinelAt(before, at2, after2, ObjectConstructor);
    assert chain1[0] == before[0] && chain2[0] == before[0];
    InitStopsAtSentinel(h, chain1, ObjectConstructor, chain2, ObjectConstructor, option);
    InitPropertyChainStopsAtSentinel(h, chain1, ObjectConstructor, chain2, ObjectConstructor, name);
  }

  /** The two modes run one algorithm: over a chain that reaches neither
      break value before the same point, they do the same thing. */
  lemma ModesAgree(h: Heap, chain: seq<Provider>, option: Option<string>, name: string)
    requires |chain| > 0 && RefsIn(h, chain)
    requires UpToSentinel(chain, ObjectPrototype) == UpToSentinel(chain, ObjectConstructor)
    ensures InstanceInit(h, chain, option) == StaticInit(h, chain, option)
    ensures InstanceInitPropertyChain(h, chain, name) == StaticInitPropertyChain(h, chain, name)
  {
    InitStopsAtSentinel(h, chain, ObjectPrototype, chain, ObjectConstructor, option);
    InitPropertyChainStopsAtSentinel(h, chain, ObjectPrototype, chain, ObjectConstructor, name);
  }
}
