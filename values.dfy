/**
 * The values a shared container holds and the process-local mirror of one container.
 * A nested value is either inline (a plain container value, before promotion) or a
 * handle naming another shared container.
 */
module Values {
  import opened Basics

  /** A segment name, as the UTF-8 bytes of the name string. */
  type Name = seq<byte>

  datatype Value =
    | Nil
    | Bool(b: bool)
    | Int(i: int)
    | Str(s: seq<byte>)
    | Handle(name: Name)          // a nested shared container, referenced by name
    | Tuple(elems: seq<Value>)
    | Inline(m: Mirror)           // a plain (not shared) container value

  /**
   * The container kinds the source supports, with what an empty instance needs:
   * the deque's maximum length and the defaultdict's factory (None: no factory).
   */
  datatype Kind =
    | List
    | Deque(maxlen: Option<nat>)
    | Set
    | Dict
    | DefaultDict(factory: Option<Value>)
    | OrderedDict

  datatype Entry = Entry(key: Value, val: Value)

  /** A container value: a sequence-like kind holds items, a mapping kind holds entries. */
  datatype Mirror =
    | Items(kind: Kind, items: seq<Value>)
    | Mapping(kind: Kind, entries: seq<Entry>)

  predicate IsMapKind(k: Kind) {
    k.Dict? || k.DefaultDict? || k.OrderedDict?
  }

  /** Python's hash(): scalars and tuples of hashable values; containers and handles are not. */
  predicate Hashable(v: Value)
    decreases v
  {
    match v
    case Nil => true
    case Bool(_) => true
    case Int(_) => true
    case Str(_) => true
    case Handle(_) => false
    case Inline(_) => false
    case Tuple(es) => forall i :: 0 <= i < |es| ==> Hashable(es[i])
  }

  /**
   * Python's `==` between two values: containers compare as containers do
   * (`MirrorEq`), tuples item by item, anything else as the same value. Handles are
   * compared by name.
   */
  predicate PyEq(a: Value, b: Value)
    decreases a, 1
  {
    match (a, b)
    case (Inline(m1), Inline(m2)) => MirrorEq(m1, m2)
    case (Tuple(xs), Tuple(ys)) => |xs| == |ys| && forall i :: 0 <= i < |xs| ==> PyEq(xs[i], ys[i])
    case _ => a == b
  }

  /**
   * `==` between two containers: lists with lists and deques with deques item by item
   * (a deque's maxlen plays no part), sets as sets, the three mapping kinds as dicts
   * (key order plays no part unless both are OrderedDicts). Set elements and keys are
   * hashable, and on hashable values `==` is sameness (`HashablePyEq`).
   */
  predicate MirrorEq(a: Mirror, b: Mirror)
    decreases a, 0
  {
    match (a, b)
    case (Items(List, xs), Items(List, ys)) =>
      |xs| == |ys| && forall i :: 0 <= i < |xs| ==> PyEq(xs[i], ys[i])
    case (Items(Deque(_), xs), Items(Deque(_), ys)) =>
      |xs| == |ys| && forall i :: 0 <= i < |xs| ==> PyEq(xs[i], ys[i])
    case (Items(Set, xs), Items(Set, ys)) =>
      (forall i :: 0 <= i < |xs| ==> xs[i] in ys) && (forall j :: 0 <= j < |ys| ==> ys[j] in xs)
    case (Mapping(k1, es1), Mapping(k2, es2)) =>
      && |es1| == |es2|
      && if k1.OrderedDict? && k2.OrderedDict? then
           forall i :: 0 <= i < |es1| ==> es1[i].key == es2[i].key && PyEq(es1[i].val, es2[i].val)
         else
           forall i :: 0 <= i < |es1| ==>
             exists j :: 0 <= j < |es2| && es2[j].key == es1[i].key && PyEq(es1[i].val, es2[j].val)
    case _ => false
  }

  /** On a hashable value, Python's `==` is sameness: no container can take part. */
  lemma {:induction false} HashablePyEq(a: Value, b: Value)
    requires Hashable(a)
    ensures PyEq(a, b) <==> a == b
    decreases a
  {
    match a
    case Tuple(xs) =>
      if b.Tuple? && |b.elems| == |xs| {
        var ys := b.elems;
        forall i | 0 <= i < |xs| ensures PyEq(xs[i], ys[i]) <==> xs[i] == ys[i] {
          HashablePyEq(xs[i], ys[i]);
        }
        if PyEq(a, b) {
          assert xs == ys;
        }
      }
    case _ =>
  }

  predicate Distinct(s: seq<Value>) {
    forall i, j :: 0 <= i < j < |s| ==> s[i] != s[j]
  }

  function Keys(es: seq<Entry>): (ks: seq<Value>)
    ensures |ks| == |es| && forall i :: 0 <= i < |es| ==> ks[i] == es[i].key
  {
    if es == [] then [] else [es[0].key] + Keys(es[1..])
  }

  function ValuesOf(es: seq<Entry>): (vs: seq<Value>)
    ensures |vs| == |es| && forall i :: 0 <= i < |es| ==> vs[i] == es[i].val
  {
    if es == [] then [] else [es[0].val] + ValuesOf(es[1..])
  }

  /** The invariants every Python container of that kind keeps. */
  predicate WellFormed(m: Mirror) {
    match m
    case Items(k, xs) =>
      && !IsMapKind(k)
      && (k.Set? ==> Distinct(xs) && forall i :: 0 <= i < |xs| ==> Hashable(xs[i]))
      && (k.Deque? && k.maxlen.Some? ==> |xs| <= k.maxlen.value)
    case Mapping(k, es) =>
      && IsMapKind(k)
      && Distinct(Keys(es))
      && forall i :: 0 <= i < |es| ==> Hashable(es[i].key)
  }

  /** `obj_type()`: the empty container a kind descriptor reconstructs. */
  function Empty(k: Kind): (m: Mirror)
    ensures m.kind == k && WellFormed(m) && Length(m) == 0
  {
    if IsMapKind(k) then Mapping(k, []) else Items(k, [])
  }

  function Length(m: Mirror): nat {
    match m
    case Items(_, xs) => |xs|
    case Mapping(_, es) => |es|
  }

  /** `isinstance(item, data_types)`: the values nested promotion turns into shared containers. */
  predicate IsContainer(v: Value) {
    v.Inline?
  }
}
