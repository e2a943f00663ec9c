/** `_initPropertyChain(propertyName)`: walk the ancestor chain again and make
    the value each owner of `propertyName` holds delegate to the value of the
    next owner up the chain, stopping at the first link that already exists. */
module Linker {
  import opened Wrappers
  import opened JsObjects
  import opened Ancestry

  /** What one owner does to the loop: carry on with the (possibly updated)
      heap, break because the link already exists, or throw. */
  datatype Step = Next(heap: Heap) | Stop | Throw(error: TypeError)

  /** The body of the loop for an ancestor that owns the property, given the
      previous owner's value and this owner's value. */
  function LinkStep(h: Heap, previous: Val, property: Val): (r: Step)
    requires ValIn(h, previous) && ValIn(h, property)
    ensures !Truthy(previous) ==> r == Next(h)
    ensures r.Stop? <==> previous.Ref? && AsVal(h[previous.id].proto) == property
    ensures r.Throw? <==> Truthy(previous) && (!previous.Ref? || !(property.Ref? || property.Null?))
    ensures r.Next? ==> OnlyProtosOf(h, r.heap, RefIds([previous]))
    ensures r.Next? && previous.Ref? ==>
      (r.heap[previous.id].proto == AsProto(property)
       <==> h[previous.id].extensible && previous.id !in Walk(h, AsProto(property), {}))
    ensures r.Next? && previous.Ref? && !h[previous.id].extensible ==> r.heap == h
    ensures r.Next? && previous.Ref? && previous.id in Walk(h, AsProto(property), {}) ==> r.heap == h
  {
    if !Truthy(previous) then Next(h)
    else match GetPrototypeOf(h, previous)
      case Failure(e) => Throw(e)
      case Success(proto) =>
        if proto == property then Stop
        else match SetPrototypeOf(h, previous, property)
          case Failure(e) => Throw(e)
          case Success(res) =>
            assert [previous][0] == previous;
            Next(res.0)
  }

  /** Every value but the last: the owners whose prototype linking may set. */
  function AllButLast(vals: seq<Val>): seq<Val> {
    if |vals| == 0 then [] else vals[..|vals| - 1]
  }

  /** The linking loop run over the owners' values alone, most derived first:
      the loop as it acts once the non-owners are taken out. Only the
      prototypes of `previous` and of every value but the last may change. */
  function LinkValues(h: Heap, vals: seq<Val>, previous: Val): (r: Completion<()>)
    requires ValIn(h, previous) && AllIn(h, vals)
    ensures OnlyProtosOf(h, r.heap, RefIds(AllButLast([previous] + vals)))
    decreases |vals|
  {
    if |vals| == 0 then Completion(h, Success(()))
    else match LinkStep(h, previous, vals[0])
      case Stop => Completion(h, Success(()))
      case Throw(e) => Completion(h, Failure(e))
      case Next(h') =>
        var r := LinkValues(h', vals[1..], vals[0]);
        assert AllButLast([previous] + vals) == [previous] + AllButLast([vals[0]] + vals[1..]) by {
          assert [vals[0]] + vals[1..] == vals;
        }
        RefIdsAppend([previous], AllButLast([vals[0]] + vals[1..]));
        OnlyProtosOfTrans(h, h', r.heap, RefIds([previous]), RefIds(AllButLast([vals[0]] + vals[1..])),
                          RefIds(AllButLast([previous] + vals)));
        r
  }

  /** The values held by the providers of `ps` that own `name`, in order. */
  function OwnValues(ps: seq<Provider>, name: string): seq<Val> {
    if |ps| == 0 then []
    else if name in ps[0].own then [ps[0].own[name]] + OwnValues(ps[1..], name)
    else OwnValues(ps[1..], name)
  }

  /** The owners' values the walk visits before the sentinel. */
  function Owners(chain: seq<Provider>, sentinel: ProviderId, name: string): seq<Val> {
    OwnValues(UpToSentinel(chain, sentinel), name)
  }

  /** The loop of `_initPropertyChain`, from the ancestor `chain[0]` on, with
      `previous` the value of the last owner met so far. */
  function LinkWalk(h: Heap, chain: seq<Provider>, sentinel: ProviderId, name: string, previous: Val): (r: Completion<()>)
    requires RefsIn(h, chain) && ValIn(h, previous)
    ensures r.heap.Keys == h.Keys
    decreases |chain|
  {
    if |chain| == 0 || chain[0].id == sentinel then Completion(h, Success(()))
    else if name !in chain[0].own then LinkWalk(h, chain[1..], sentinel, name, previous)
    else
      var property := chain[0].own[name];
      assert ValIn(h, property);
      match LinkStep(h, previous, property)
      case Stop => Completion(h, Success(()))
      case Throw(e) => Completion(h, Failure(e))
      case Next(h') =>
        RefsInFrame(h, h', chain[1..], RefIds([previous]));
        LinkWalk(h', chain[1..], sentinel, name, property)
  }

  /** A leading `undefined` previous value adds nothing to the linked set. */
  lemma LeadingUndefined(vals: seq<Val>)
    ensures RefIds(AllButLast([Undefined] + vals)) == RefIds(AllButLast(vals))
  {
    if |vals| > 0 {
      RefIdsAppend([Undefined], AllButLast(vals));
      assert AllButLast([Undefined] + vals) == [Undefined] + AllButLast(vals);
    }
  }

  lemma OwnValuesIn(h: Heap, ps: seq<Provider>, name: string)
    requires RefsIn(h, ps)
    ensures AllIn(h, OwnValues(ps, name))
    decreases |ps|
  {
    if |ps| > 0 {
      OwnValuesIn(h, ps[1..], name);
    }
  }

  lemma OwnersIn(h: Heap, chain: seq<Provider>, sentinel: ProviderId, name: string)
    requires RefsIn(h, chain)
    ensures AllIn(h, Owners(chain, sentinel, name))
  {
    RefsInPrefix(h, chain, UpToSentinel(chain, sentinel));
    OwnValuesIn(h, UpToSentinel(chain, sentinel), name);
  }

  /** The walk over ancestors links exactly the owners before the sentinel,
      consecutively: ancestors that do not own the property contribute
      nothing and the sentinel and everything after it are never looked at. */
  lemma {:induction false} LinkWalkLinksOwners(h: Heap, chain: seq<Provider>, sentinel: ProviderId, name: string, previous: Val)
    requires RefsIn(h, chain) && ValIn(h, previous)
    ensures AllIn(h, Owners(chain, sentinel, name))
    ensures LinkWalk(h, chain, sentinel, name, previous) == LinkValues(h, Owners(chain, sentinel, name), previous)
    decreases |chain|
  {
    OwnersIn(h, chain, sentinel, name);
    if |chain| == 0 || chain[0].id == sentinel {
    } else {
      assert UpToSentinel(chain, sentinel) == [chain[0]] + UpToSentinel(chain[1..], sentinel);
      assert ([chain[0]] + UpToSentinel(chain[1..], sentinel))[1..] == UpToSentinel(chain[1..], sentinel);
      if name !in chain[0].own {
        LinkWalkLinksOwners(h, chain[1..], sentinel, name, previous);
      } else {
        var property := chain[0].own[name];
        var vals := Owners(chain, sentinel, name);
        assert vals == [property] + Owners(chain[1..], sentinel, name);
        assert vals[1..] == Owners(chain[1..], sentinel, name);
        match LinkStep(h, previous, property)
        case Stop =>
        case Throw(e) =>
        case Next(h') =>
          RefsInFrame(h, h', chain[1..], RefIds([previous]));
          LinkWalkLinksOwners(h', chain[1..], sentinel, name, property);
      }
    }
  }

  /** `_initPropertyChain(name)` with `this` the first entry of `chain`: it
      returns `this`, and only the prototypes of the owners' values other
      than the least derived one may change. */
  function InitPropertyChain(h: Heap, chain: seq<Provider>, sentinel: ProviderId, name: string): (r: Completion<ProviderId>)
    requires |chain| > 0 && RefsIn(h, chain)
    ensures r.outcome.Success? ==> r.outcome.value == chain[0].id
    ensures OnlyProtosOf(h, r.heap, RefIds(AllButLast(Owners(chain, sentinel, name))))
  {
    LinkWalkLinksOwners(h, chain, sentinel, name, Undefined);
    var owners := Owners(chain, sentinel, name);
    LeadingUndefined(owners);
    var c := LinkWalk(h, chain, sentinel, name, Undefined);
    Completion(c.heap, if c.outcome.Success? then Success(chain[0].id) else Failure(c.outcome.error))
  }
}
