/** The part of the ECMAScript object model that the property chainer touches:
    values, ordinary objects with a [[Prototype]] slot, and the reflective
    operations `Reflect.getPrototypeOf` and `Reflect.setPrototypeOf`
    (sections 28.1.7 and 28.1.13 of ECMA-262, with the ordinary
    [[SetPrototypeOf]] of section 10.1.2.1). */
module JsObjects {
  import opened Wrappers

  /** Identity of an object on the heap; `===` on objects compares these. */
  type ObjId = nat

  /** A JavaScript value, reduced to what the chainer can observe of it:
      `Str` and `Scalar` are primitives (a `Scalar` stands for a number,
      boolean, bigint or symbol and records only whether it is truthy),
      `Ref` is an object or a function. */
  datatype Val =
    | Undefined
    | Null
    | Str(s: string)
    | Scalar(truthy: bool)
    | Ref(id: ObjId)

  /** An ordinary object: its [[Prototype]] (`None` is `null`), its
      [[Extensible]] flag, its own data properties and, when it is a dense
      array of strings, its elements. */
  datatype Obj = Obj(
    proto: Option<ObjId>,
    extensible: bool,
    props: map<string, Val>,
    elems: Option<seq<string>>)

  type Heap = map<ObjId, Obj>

  /** The TypeErrors the chainer can raise. */
  datatype TypeError =
    | NotAnObject       // Reflect.getPrototypeOf / setPrototypeOf on a primitive target
    | InvalidPrototype  // Reflect.setPrototypeOf with a primitive other than null
    | NotIterable       // for-of over a value that is not iterable

  /** The result of a call: the heap afterwards, and either its return value
      or the TypeError it threw. The heap is kept on a throw because nothing
      the call already did is rolled back. */
  datatype Completion<T> = Completion(heap: Heap, outcome: Result<T, TypeError>)

  /** ToBoolean. */
  predicate Truthy(v: Val) {
    match v
    case Undefined => false
    case Null => false
    case Str(s) => s != ""
    case Scalar(t) => t
    case Ref(_) => true
  }

  /** Every object a value refers to exists. */
  predicate ValIn(h: Heap, v: Val) {
    v.Ref? ==> v.id in h
  }

  predicate AllIn(h: Heap, vals: seq<Val>) {
    forall i :: 0 <= i < |vals| ==> ValIn(h, vals[i])
  }

  /** A [[Prototype]] slot read as a value. */
  function AsVal(p: Option<ObjId>): Val {
    if p.Some? then Ref(p.value) else Null
  }

  /** An object-or-null value written into a [[Prototype]] slot. */
  function AsProto(v: Val): Option<ObjId> {
    if v.Ref? then Some(v.id) else None
  }

  /** The ids of the objects among `vals`. */
  function RefIds(vals: seq<Val>): set<ObjId> {
    set i | 0 <= i < |vals| && vals[i].Ref? :: vals[i].id
  }

  /** `h'` differs from `h` at most in the [[Prototype]] of the objects in
      `changed`: no object is created or removed, and no own property,
      element or extensibility flag changes. */
  predicate OnlyProtosOf(h: Heap, h': Heap, changed: set<ObjId>) {
    && h'.Keys == h.Keys
    && forall o :: o in h ==>
         && h'[o].props == h[o].props
         && h'[o].extensible == h[o].extensible
         && h'[o].elems == h[o].elems
         && (o !in changed ==> h'[o].proto == h[o].proto)
  }

  /** The objects met walking [[Prototype]] links from `p` on, in order. The
      walk stops at `null` and, so that it is total, at an object already in
      `seen`; an engine's heap has no prototype cycle, so that second stop
      never applies to a heap built by the engine. */
  function Walk(h: Heap, p: Option<ObjId>, seen: set<ObjId>): seq<ObjId>
    decreases h.Keys - seen
  {
    if p.None? || p.value !in h || p.value in seen then []
    else [p.value] + Walk(h, h[p.value].proto, seen + {p.value})
  }

  /** Reflect.getPrototypeOf(target). */
  function GetPrototypeOf(h: Heap, target: Val): (r: Result<Val, TypeError>)
    requires ValIn(h, target)
    ensures r.Failure? <==> !target.Ref?
    ensures r.Failure? ==> r.error == NotAnObject
    ensures r.Success? ==> r.value.Null? || (r.value.Ref? && h[target.id].proto == Some(r.value.id))
    ensures r.Success? && r.value.Null? ==> h[target.id].proto.None?
  {
    if target.Ref? then Success(AsVal(h[target.id].proto)) else Failure(NotAnObject)
  }

  /** Reflect.setPrototypeOf(target, proto): the new heap and the boolean the
      call returns. It throws when the target is not an object or the
      prototype is neither an object nor null; it answers false, changing
      nothing, when the target is not extensible or the new prototype's own
      chain already reaches the target. */
  function SetPrototypeOf(h: Heap, target: Val, proto: Val): (r: Result<(Heap, bool), TypeError>)
    requires ValIn(h, target) && ValIn(h, proto)
    ensures r.Failure? <==> !target.Ref? || !(proto.Ref? || proto.Null?)
    ensures r.Success? ==> OnlyProtosOf(h, r.value.0, {target.id})
    ensures r.Success? ==>
      (r.value.1 <==>
         h[target.id].proto == AsProto(proto)
         || (h[target.id].extensible && target.id !in Walk(h, AsProto(proto), {})))
    ensures r.Success? && r.value.1 ==> r.value.0[target.id].proto == AsProto(proto)
    ensures r.Success? && !r.value.1 ==> r.value.0 == h
  {
    if !target.Ref? then Failure(NotAnObject)
    else if !(proto.Ref? || proto.Null?) then Failure(InvalidPrototype)
    else
      var o := target.id;
      var v := AsProto(proto);
      if h[o].proto == v then Success((h, true))
      else if !h[o].extensible then Success((h, false))
      else if o in Walk(h, v, {}) then Success((h, false))
      else Success((h[o := h[o].(proto := v)], true))
  }

  /** [[Get]] of key `k` on object `o`, looking at no more than `fuel`
      objects along the prototype chain; `None` when it is not found there. */
  function Lookup(h: Heap, o: ObjId, k: string, fuel: nat): Option<Val>
    decreases fuel
  {
    if fuel == 0 || o !in h then None
    else if k in h[o].props then Some(h[o].props[k])
    else if h[o].proto.None? then None
    else Lookup(h, h[o].proto.value, k, fuel - 1)
  }

  /** The object reached from `o` after following `n` prototype links. */
  function Follow(h: Heap, o: ObjId, n: nat): Option<ObjId>
    decreases n
  {
    if n == 0 then Some(o)
    else if o !in h || h[o].proto.None? then None
    else Follow(h, h[o].proto.value, n - 1)
  }

  lemma OnlyProtosOfTrans(h1: Heap, h2: Heap, h3: Heap, a: set<ObjId>, b: set<ObjId>, c: set<ObjId>)
    requires OnlyProtosOf(h1, h2, a) && OnlyProtosOf(h2, h3, b) && a + b <= c
    ensures OnlyProtosOf(h1, h3, c)
  {
  }

  lemma RefIdsAppend(a: seq<Val>, b: seq<Val>)
    ensures RefIds(a + b) == RefIds(a) + RefIds(b)
  {
    var ab := a + b;
    forall o | o in RefIds(a + b) ensures o in RefIds(a) + RefIds(b) {
      var i :| 0 <= i < |ab| && ab[i].Ref? && ab[i].id == o;
      if i >= |a| {
        assert b[i - |a|] == ab[i];
      }
    }
    forall o | o in RefIds(a) + RefIds(b) ensures o in RefIds(a + b) {
      if o in RefIds(a) {
        var i :| 0 <= i < |a| && a[i].Ref? && a[i].id == o;
        assert ab[i] == a[i];
      } else {
        var i :| 0 <= i < |b| && b[i].Ref? && b[i].id == o;
        assert ab[|a| + i] == b[i];
      }
    }
  }

  /** A walk from an existing object not yet seen starts with that object. */
  lemma WalkStartsAt(h: Heap, o: ObjId, seen: set<ObjId>)
    requires o in h && o !in seen
    ensures |Walk(h, Some(o), seen)| > 0 && Walk(h, Some(o), seen)[0] == o
  {
  }

  /** Changing the prototypes of objects off a walk does not change the walk. */
  lemma {:induction false} WalkFrame(h: Heap, h': Heap, p: Option<ObjId>, seen: set<ObjId>, changed: set<ObjId>)
    requires OnlyProtosOf(h, h', changed)
    requires forall o :: o in Walk(h, p, seen) ==> o !in changed
    ensures Walk(h', p, seen) == Walk(h, p, seen)
    decreases h.Keys - seen
  {
    if p.None? || p.value !in h || p.value in seen {
    } else {
      var o := p.value;
      assert Walk(h, p, seen) == [o] + Walk(h, h[o].proto, seen + {o});
      assert o in Walk(h, p, seen);
      forall q | q in Walk(h, h[o].proto, seen + {o}) ensures q !in changed {
        assert q in Walk(h, p, seen);
      }
      WalkFrame(h, h', h[o].proto, seen + {o}, changed);
    }
  }
}
