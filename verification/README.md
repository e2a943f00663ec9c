# Property chainer, modelled in Dafny

`isotropic-property-chainer` gives every object made by its factory two
methods. `_init(options)` walks the object's prototype chain and reads the
list of names each ancestor declares under `_propertyChains`, or under the
key named by `options.propertyChainsPropertyName`. It then calls
`_initPropertyChain(name)` once for every name it has not met before.
`_initPropertyChain(name)` walks the chain again. It takes, in order, the
ancestors that own `name` and sets the `[[Prototype]]` of each owner's
value to the value of the next owner up the chain. Keys of the less
derived values then become visible from the most derived one. It stops
early at the first link it finds already in place. Both walks break at a
sentinel. For instances the sentinel is `Object.prototype`. For statics,
run on constructors, it is `Object`.

The model is a set of pure functions over an explicit heap of ordinary
objects and arrays:

- `wrappers.dfy`: `Option` and `Result`.
- `js_objects.dfy` (`JsObjects`): values, objects and the heap.
  - `Reflect.getPrototypeOf` and `Reflect.setPrototypeOf` follow
    sections 28.1.7 and 28.1.13 of ECMA-262, with the ordinary
    `[[SetPrototypeOf]]` of section 10.1.2.1.
  - A call yields a `Completion`: the heap afterwards and either a
    result or a `TypeError`.
- `ancestry.dfy` (`Ancestry`): the ancestor chain as a sequence of
  `Provider`s, each with its own properties. `UpToSentinel` is the part
  of the chain a walk visits.
- `linker.dfy` (`Linker`): `_initPropertyChain`.
- `chain_properties.dfy` (`ChainProperties`): what `_initPropertyChain`
  achieves.
- `collector.dfy` (`Collector`): `_init`. The loops are proved equal to a
  loop-free reference: deduplicate the declared names, then link each one.
- `init_properties.dfy` (`InitProperties`): what `_init` achieves over a
  whole hierarchy.
- `property_chainer.dfy` (`PropertyChainer`): the two instantiations, one
  with each sentinel.
- `scenarios.dfy` (`Scenarios`): the repository's tests of single
  inheritance and of duplicate declarations, restated as lemmas over
  concrete heaps.

Values that are not objects are not skipped:

- A falsy value is passed over as "no previous value".
- A truthy primitive as the previous value makes `Reflect.getPrototypeOf`
  throw.
- A primitive other than `null` as the new prototype makes
  `Reflect.setPrototypeOf` throw.
- `null` unlinks the previous value.

A refused link is ignored: the code drops the boolean that
`Reflect.setPrototypeOf` returns, and the walk carries on. So a second run
is not always a no-op. A link refused as a cycle can be made on a later run,
once an earlier link has removed the cycle (`ChainProperties.RefusedLinkMadeLater`).
A declaration list that is not iterable makes every run of `_init` throw.

Three inputs are given to the model as parameters instead of being
computed:

- The ancestor chain, which the code takes from the imported
  prototype-chain walk.
- The option: `None` stands for both an absent options object and an
  absent `propertyChainsPropertyName`.
- Each provider's own properties.

The static scenarios (`Scenarios.StaticAbcChain` and the chains of the
duplicate test) assume that a constructor's chain ends with
`Function.prototype` and `Object.prototype`, with no `Object` on it, so
their static walks run to the end of the chain. That is an assumption about
the factory, whose code is not part of this model. The general results do
not depend on it: `PropertyChainer.StaticModeIgnoresObject` covers chains
that do contain `Object`, and shows that nothing from `Object` on is read.

## Model

| member | source | states |
|---|---|---|
| JsObjects.GetPrototypeOf | js/property-chainer.js:48 | throws a TypeError exactly when the target is a primitive; otherwise yields the target's prototype, or `null` when it has none |
| JsObjects.SetPrototypeOf | js/property-chainer.js:52 | throws exactly when the target is a primitive or the prototype is a primitive other than `null`; otherwise changes at most the target's prototype, and answers true exactly when the link is then in place (it already was, or the target is extensible and the new prototype's chain does not reach it); on false the heap is untouched |
| Ancestry.UpToSentinel | js/property-chainer.js:11-14 | the ancestors a walk visits are a prefix of the chain free of the sentinel, and the sentinel, if met, comes right after them |
| Ancestry.UpToSentinelAt | js/property-chainer.js:11-14 | a chain that meets the sentinel right after some ancestors is cut there, whatever follows |
| Linker.LinkStep | js/property-chainer.js:45-55 | a falsy previous value changes nothing; the loop breaks exactly when the previous value is an object whose prototype already is this value; it throws exactly when the previous value is a truthy primitive or this value is a primitive other than `null`; otherwise only the previous value's prototype may change, and it becomes this value exactly when the object is extensible and no cycle would form; a refused link (object not extensible, or a cycle would form) leaves the heap unchanged |
| Linker.LinkValues | js/property-chainer.js:42-56 | linking owners' values in order changes no object, property or flag, and changes no prototype except those of the previous value and of every value but the last |
| Linker.LinkWalk | js/property-chainer.js:37-57 | the walk creates and removes no object |
| Linker.LinkWalkLinksOwners | js/property-chainer.js:37-57 | the walk over ancestors equals linking the values of the owners before the sentinel, in ancestor order: non-owners contribute nothing and nothing from the sentinel on is read |
| Linker.InitPropertyChain | js/property-chainer.js:33-60 | returns `this` unless something throws; only the prototypes of the owners' values other than the least derived one may change |
| ChainProperties.LinkFresh | js/property-chainer.js:47-55 | over extensible, not yet linked, cycle-free values every consecutive link is made, the call succeeds, and nothing but those prototypes changes |
| ChainProperties.ChainedIsStable | js/property-chainer.js:47-50 | when the values already delegate in order, linking stops at the first link and leaves the heap exactly as it was |
| ChainProperties.EarlyStopAtExistingLink | js/property-chainer.js:47-50 | once the most derived value already delegates to the next, the loop stops there and changes nothing, whether or not the values further up are linked |
| ChainProperties.ChainedFollow | test/property-chainer.js:76-81 | following prototype links from the first of chained values reaches each later one, in order |
| ChainProperties.ChainedLookup | test/property-chainer.js:83-91 | along chained values a key resolves to the value of the most derived one that owns it |
| ChainProperties.ChainedLookupMiss | test/property-chainer.js:83-91 | along chained values a key that none of them owns is not found |
| ChainProperties.LinkStepSets | js/property-chainer.js:47-53 | a single link on an extensible, unlinked, cycle-free object sets exactly that object's prototype |
| ChainProperties.LinkExtendsChain | js/property-chainer.js:47-55 | when a new most derived value joins values already chained, exactly its own link is made, and then the whole sequence is chained |
| ChainProperties.InitPropertyChainLinks | js/property-chainer.js:33-60 | with fresh owners' values, `_initPropertyChain` returns `this`, chains every owner's value to the next owner's, and changes nothing else |
| ChainProperties.InitPropertyChainDelegates | js/property-chainer.js:33-60 | after such a run, reading a key from the most derived owner's value finds the most derived owner's value that has it |
| ChainProperties.InitPropertyChainStable | js/property-chainer.js:47-50 | when the owners' values already delegate in order, `_initPropertyChain` returns `this` and changes nothing |
| ChainProperties.InitPropertyChainIdempotent | js/property-chainer.js:47-50 | over fresh owners' values, running `_initPropertyChain` a second time returns `this` and changes nothing more than the first run did |
| ChainProperties.RefusedLinkMadeLater | js/property-chainer.js:47-53 | without freshness a second run can change the heap: a link refused as a cycle on the first run, and ignored, is made on the second once an earlier link has removed the cycle |
| ChainProperties.OwnersSkipNonOwner | js/property-chainer.js:42-44 | taking out an ancestor that is not the sentinel and does not own the name leaves the owners and their order unchanged |
| ChainProperties.LinkWalkSkipsNonOwner | js/property-chainer.js:42-44 | an ancestor that does not own the name has no effect on the outcome of the walk |
| ChainProperties.InitPropertyChainStopsAtSentinel | js/property-chainer.js:37-40 | two chains for the same `this` that agree up to their sentinels give the same outcome: nothing from the sentinel on is read |
| ChainProperties.InitPropertyChainExtends | js/property-chainer.js:33-60 | for a new subclass of an already chained class, `_initPropertyChain` links only the new value, to the next owner's value, and the owners' values end up fully chained |
| Collector.ChainsKey | js/property-chainer.js:6-8 | the declaration list is read under `_propertyChains` when no `propertyChainsPropertyName` is given, and under the given name otherwise |
| Collector.ListedNames | js/property-chainer.js:19 | a declaration list is iterable exactly when it is an array or a string; an array gives its elements in order, a string one name per character; anything else throws `NotIterable` |
| Collector.Declarations | js/property-chainer.js:16-19 | reading the owned declaration lists is cut short only by a list that is not iterable, with `NotIterable` |
| Collector.DeclarationsFail | js/property-chainer.js:16-19 | the reading is cut short exactly when some ancestor owns a list that is not iterable; ancestors that own no list declare nothing |
| Collector.DeclarationsAppend | js/property-chainer.js:11-19 | lists are read in ancestor order: the names of a later stretch of ancestors follow those of an earlier one, and are read only when every list before them was iterable |
| Collector.DedupFromKeepsFirstOccurrences | js/property-chainer.js:20-26 | the names let through are exactly those declared and not already completed, each once, in the order of their first declaration |
| Collector.DedupAppend | js/property-chainer.js:9 | the completed set lives across all ancestors: the names from a later list are filtered against everything let through from earlier ones |
| Collector.LinkAll | js/property-chainer.js:25 | linking several names changes only prototypes of values chained for one of those names |
| Collector.DeclareEach | js/property-chainer.js:19-27 | the inner loop over one declaration list changes only prototypes of values chained for a name on that list |
| Collector.CollectFrom | js/property-chainer.js:11-29 | the outer loop creates and removes no object and changes no own property or flag |
| Collector.CollectFromLinksDeclared | js/property-chainer.js:11-29 | the nested loops equal the loop-free reference: read every list owned before the sentinel, drop names already completed, link the rest once each in order, then throw the error of the first list that is not iterable, if any |
| Collector.LinkedIdsDedup | js/property-chainer.js:20-23 | skipping repeated names does not change which values may be linked |
| Collector.Init | js/property-chainer.js:6-32 | returns `this` unless something throws, and changes only prototypes of values chained for one of the collected names |
| Collector.InitLinksEachNameOnce | js/property-chainer.js:6-32 | `_init` links every declared name exactly once, in order of first declaration, from the most derived ancestor on, with the default key or the one given; links made before a throw are kept |
| InitProperties.LinkAllStopsAtSentinel | js/property-chainer.js:37-40 | linking names over two chains that agree up to their sentinels gives the same outcome |
| InitProperties.InitStopsAtSentinel | js/property-chainer.js:11-14 | two chains for the same `this` that agree up to their sentinels give the same `_init` outcome, whatever the sentinel and what lies past it own |
| InitProperties.DeclarationsSkipNonOwner | js/property-chainer.js:16-18 | an ancestor that does not own the declaration key declares nothing, even when it inherits a list |
| InitProperties.LinkAllStable | js/property-chainer.js:47-50 | linking names whose owners' values already delegate in order changes nothing |
| InitProperties.InitStable | js/property-chainer.js:6-32 | `_init` over a hierarchy where every declaration list is iterable and every declared name is already chained returns `this` and changes nothing |
| InitProperties.LinkedOfIsLinkedIds | js/property-chainer.js:25 | when every owner's value is an object, the objects linking may touch, counted as owners' objects, are the same set `_init`'s contract names |
| InitProperties.LinkAllIndependent | js/property-chainer.js:19-27 | linking distinct names whose owners' values are fresh objects and whose chains are mutually apart makes every link of every name, and keeps the names linked before chained |
| InitProperties.InitChainsIndependentNames | js/property-chainer.js:6-32 | over independent fresh values with every declaration list iterable, `_init` returns `this` and every declared name's owners' values delegate in ancestor order |
| InitProperties.InitTwiceChangesNothing | js/property-chainer.js:47-50 | over independent fresh values with every declaration list iterable, after `_init` on one instance that owns nothing, `_init` on a second instance of the same class that owns nothing returns that instance and changes nothing |
| PropertyChainer.InstanceInit | js/property-chainer.js:63 | the instance `_init` returns `this` unless something throws, and changes only prototypes of chained values |
| PropertyChainer.InstanceInitPropertyChain | js/property-chainer.js:64 | the instance `_initPropertyChain` returns `this` unless something throws, and changes only prototypes of owners' values other than the last |
| PropertyChainer.StaticInit | js/property-chainer.js:66 | the static `_init` returns the constructor unless something throws, and changes only prototypes of chained values |
| PropertyChainer.StaticInitPropertyChain | js/property-chainer.js:67 | the static `_initPropertyChain` returns the constructor unless something throws, and changes only prototypes of owners' values other than the last |
| PropertyChainer.InstanceModeIgnoresObjectPrototype | js/property-chainer.js:62-64 | in instance mode, `Object.prototype` and everything after it can own anything without changing the outcome |
| PropertyChainer.StaticModeIgnoresObject | js/property-chainer.js:65-68 | in static mode, `Object` and everything after it can own anything without changing the outcome |
| PropertyChainer.ModesAgree | js/property-chainer.js:62-68 | the two modes run one algorithm: over a chain that reaches both sentinels at the same point, they produce the same outcome |
| Scenarios.InstanceChainsAbc | test/property-chainer.js:23-92 | for an instance of C extends B extends A, with one value per level for each of three names, `_init` returns the instance, and each of C's values delegates to B's and then A's and shows all three keys |
| Scenarios.InstanceChainsAbcCustomKey | test/property-chainer.js:94-165 | the same when the declaration lists are kept under a custom key that is passed as the option |
| Scenarios.StaticChainsAbc | test/property-chainer.js:320-388 | the same for static values, with the static `_init` run once on constructor C over values not yet linked |
| Scenarios.StaticChainsAbcCustomKey | test/property-chainer.js:390-460 | the same for static values with a custom key |
| Scenarios.DuplicateNamesChainOnce | test/property-chainer.js:613-689 | a name declared three times, whose three literals are shared between prototypes and constructors, is linked by the static `_init` as each class is created; the instance `_init` afterwards returns the instance and changes nothing |
| Scenarios.DuplicateNamesShowAll | test/property-chainer.js:672-688 | after that, the most derived literal delegates to the other two in order and shows all three keys |

## Left out

- Mixins and the factory's `propertyChainsIncludeMixins` option, with the
  mixin tests (test/property-chainer.js:167-318 and 462-611). They belong
  to the factory that composes classes, which is not part of this model.
- The prototype-chain walk that `_init` and `_initPropertyChain` import.
  The chain is a parameter. Chained values are assumed never to be entries
  of the chain they are chained along.
- The factory `make`, and whether objects are built with `new` or by
  calling the factory (test/property-chainer.js:7-21). The static `_init`
  that the factory runs when it creates a class is modelled as an explicit
  call.
- The dev-time warning in the TODO at js/property-chainer.js:21. It has no
  behaviour.
- Dynamic dispatch of `this._initPropertyChain` at js/property-chainer.js:25.
  `_init` always calls the linker of its own mode, so overriding
  `_initPropertyChain` in a subclass is not modelled.
- Accessor properties, proxies, and exotic objects other than arrays, and
  objects with an immutable prototype. Every object is an ordinary object,
  or a dense array of strings that is read only through its elements, and
  all properties are data properties, so reading an own property has no
  side effect.
- Arrays with holes or with elements that are not strings, iterables other
  than arrays and strings, and strings holding a lone surrogate. A Dafny
  `string` holds Unicode scalar values only, so a string iterates by code
  point as in the code, but a lone surrogate cannot be written.
- An options argument that is `null`, or a key option that is not a string.
  Destructuring such an argument throws, or converts the key with
  `ToPropertyKey`.
- `Set` membership under SameValueZero for names that are not strings.
  Names are strings, so it is plain equality.
- JsObjects.Lookup: bounded by a fuel argument. A property read on an
  engine heap has no bound, because its prototype chains are finite and
  acyclic.
- JsObjects.Walk: cuts at an object it has already visited, so that it is
  total. This never applies to an engine heap, which has no prototype cycle.
- Collector.CollectFrom: its own contract states only the frame. What it
  computes is stated by Collector.CollectFromLinksDeclared.
- Linker.LinkWalk: its own contract states only the frame. What it computes
  is stated by Linker.LinkWalkLinksOwners.
- Scenarios.StaticChainsAbc: runs the static `_init` once, on C, over values
  not yet linked. The factory runs it as it creates each of A, B and C. The
  run on A links nothing, the run on B links B's values to A's, and the run
  on C links C's values and stops at B's existing link, so the end state is
  the same. That three-step sequence is proved only for the duplicate test
  (`Scenarios.DuplicateNamesChainOnce`). The same holds for
  Scenarios.StaticChainsAbcCustomKey.
