/** The ancestor chain the chainer walks: the object itself, then each
    prototype in turn, as produced by the prototype-chain walk it imports. */
module Ancestry {
  import opened JsObjects

  /** Identity of an entry of the ancestor chain; `object === breakValue`
      compares these. */
  type ProviderId = nat

  /** One entry of the ancestor chain with its own (not inherited) data
      properties. Providers are kept apart from the heap of property values:
      a chained value is never itself an entry of the chain being walked. */
  datatype Provider = Provider(id: ProviderId, own: map<string, Val>)

  /** Every own property of every provider refers to an existing object. */
  predicate RefsIn(h: Heap, chain: seq<Provider>) {
    forall i, k :: 0 <= i < |chain| && k in chain[i].own ==> ValIn(h, chain[i].own[k])
  }

  /** The entries a walk visits before it meets the sentinel and breaks:
      the longest prefix of `chain` that does not contain `sentinel`. */
  function UpToSentinel(chain: seq<Provider>, sentinel: ProviderId): (r: seq<Provider>)
    ensures r <= chain
    ensures forall i :: 0 <= i < |r| ==> r[i].id != sentinel
    ensures |r| < |chain| ==> chain[|r|].id == sentinel
  {
    if |chain| == 0 || chain[0].id == sentinel then []
    else [chain[0]] + UpToSentinel(chain[1..], sentinel)
  }

  /** A chain that meets the sentinel right after `before` is cut there,
      whatever follows. */
  lemma UpToSentinelAt(before: seq<Provider>, at: Provider, after: seq<Provider>, sentinel: ProviderId)
    requires forall i :: 0 <= i < |before| ==> before[i].id != sentinel
    requires at.id == sentinel
    ensures UpToSentinel(before + [at] + after, sentinel) == before
  {
    var chain := before + [at] + after;
    var r := UpToSentinel(chain, sentinel);
    assert chain[|before|] == at;
    assert forall i :: 0 <= i < |before| ==> chain[i] == before[i];
    assert r == chain[..|r|];
  }

  lemma RefsInPrefix(h: Heap, chain: seq<Provider>, prefix: seq<Provider>)
    requires RefsIn(h, chain) && prefix <= chain
    ensures RefsIn(h, prefix)
  {
    forall i, k | 0 <= i < |prefix| && k in prefix[i].own ensures ValIn(h, prefix[i].own[k]) {
      assert prefix[i] == chain[i];
    }
  }

  lemma RefsInFrame(h: Heap, h': Heap, chain: seq<Provider>, changed: set<ObjId>)
    requires RefsIn(h, chain) && OnlyProtosOf(h, h', changed)
    ensures RefsIn(h', chain)
  {
  }
}
