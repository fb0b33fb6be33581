/**
 * The bulk methods `extend`, `extendleft` and `update`, and the population `__init__`
 * performs with them: one ordinary mutation per element of the argument, in order.
 */
module Bulk {
  import opened Basics
  import opened Values
  import opened Containers
  import opened Nesting

  /** Which mutation a bulk method makes for each element. */
  datatype Mode =
    | Appends       // `extend`: `self.append(item)`
    | AppendLefts   // `extendleft`: `self.appendleft(item)`
    | Sets          // `update` on a mapping: `self[key] = item` for each `other.items()`
    | Adds          // `update` otherwise: `self.add(item)`

  /** `for item in other`: the items of a container, the keys of a mapping. */
  function Iterate(other: Mirror): (r: seq<Value>)
    ensures |r| == Length(other)
  {
    match other
    case Items(_, xs) => xs
    case Mapping(_, es) => Keys(es)
  }

  /** The mutation a bulk method makes for the i-th element of `other`. */
  function BulkOp(b: Mode, other: Mirror, i: nat): Op
    requires i < Length(other) && (b.Sets? ==> other.Mapping?)
  {
    match b
    case Appends => Append(Iterate(other)[i])
    case AppendLefts => AppendLeft(Iterate(other)[i])
    case Adds => Add(Iterate(other)[i])
    case Sets => SetItem(other.entries[i].key, other.entries[i].val)
  }

  /** All the mutations of a bulk method, in order. */
  function BulkOps(b: Mode, other: Mirror): (ops: seq<Op>)
    requires b.Sets? ==> other.Mapping?
    ensures |ops| == Length(other)
    ensures forall i :: 0 <= i < |ops| ==> ops[i] == BulkOp(b, other, i)
  {
    seq(Length(other), i requires 0 <= i < Length(other) => BulkOp(b, other, i))
  }

  /** The element a bulk mutation carries is part of the argument (what makes nesting terminate). */
  lemma {:induction false} BulkItemSmaller(b: Mode, other: Mirror, i: nat)
    requires i < Length(other) && (b.Sets? ==> other.Mapping?)
    ensures ItemOf(BulkOp(b, other, i)) < other
  {
    match other
    case Items(_, xs) =>
      assert ItemOf(BulkOp(b, other, i)) == xs[i];
    case Mapping(_, es) =>
      if b.Sets? {
        assert ItemOf(BulkOp(b, other, i)) == es[i].val;
      } else {
        assert ItemOf(BulkOp(b, other, i)) == es[i].key;
      }
  }

  /** The operations applied for the first i elements, extended by the one applied for element i. */
  lemma {:induction false} PromotedNext(nested: bool, b: Mode, other: Mirror, applied: seq<Op>, a: Op, i: nat)
    requires i < Length(other) && (b.Sets? ==> other.Mapping?) && |applied| == i
    requires forall j :: 0 <= j < i ==> PromotedTo(nested, BulkOp(b, other, j), applied[j])
    requires PromotedTo(nested, BulkOp(b, other, i), a)
    ensures forall j :: 0 <= j < i + 1 ==> PromotedTo(nested, BulkOp(b, other, j), (applied + [a])[j])
  {
    forall j | 0 <= j < i + 1
      ensures PromotedTo(nested, BulkOp(b, other, j), (applied + [a])[j])
    {
      if j < i {
        assert (applied + [a])[j] == applied[j];
      }
    }
  }

  /** How `__init__` populates a new container: `extend` for a list or deque, `update` otherwise. */
  function PopulateMode(k: Kind): (b: Mode)
    ensures b.Appends? <==> k.List? || k.Deque?
    ensures b.Sets? <==> IsMapKind(k)
  {
    if k.List? || k.Deque? then Appends else if IsMapKind(k) then Sets else Adds
  }

  /** The first i elements of a container, as a container of the same kind. */
  function Prefix(m: Mirror, i: nat): (r: Mirror)
    requires i <= Length(m)
    ensures r.kind == m.kind && Length(r) == i
  {
    match m
    case Items(k, xs) => Items(k, xs[..i])
    case Mapping(k, es) => Mapping(k, es[..i])
  }

  /** Populating a well-formed value's kind one element at a time rebuilds its first i elements. */
  lemma {:induction false} PopulatePrefix(m: Mirror, i: nat)
    requires WellFormed(m) && i <= Length(m)
    ensures ApplyAll(Empty(m.kind), BulkOps(PopulateMode(m.kind), m)[..i]) == Some(Prefix(m, i))
    decreases i
  {
    var ops := BulkOps(PopulateMode(m.kind), m);
    if i == 0 {
      assert Prefix(m, 0) == Empty(m.kind);
      assert ops[..0] == [];
    } else {
      var j := i - 1;
      PopulatePrefix(m, j);
      assert ops[..i] == ops[..j] + [ops[j]];
      ApplyAllSnoc(Empty(m.kind), ops[..j], ops[j]);
      PopulateStep(m, j);
    }
  }

  /** One population step appends the next element, as the well-formedness of the value allows. */
  lemma {:induction false} PopulateStep(m: Mirror, j: nat)
    requires WellFormed(m) && j < Length(m)
    ensures Apply(Prefix(m, j), BulkOp(PopulateMode(m.kind), m, j)) == Some(Prefix(m, j + 1))
  {
    match m
    case Items(k, xs) =>
      assert xs[..j + 1] == xs[..j] + [xs[j]];
      if k.Set? {
        assert xs[j] !in xs[..j] by {
          forall t | 0 <= t < j ensures xs[..j][t] != xs[j] {
            assert xs[..j][t] == xs[t];
          }
        }
      }
    case Mapping(k, es) =>
      var pre := es[..j];
      assert es[..j + 1] == pre + [Entry(es[j].key, es[j].val)];
      assert es[j].key !in Keys(pre) by {
        forall t | 0 <= t < j ensures Keys(pre)[t] != es[j].key {
          assert Keys(pre)[t] == Keys(es)[t];
        }
      }
  }

  /** Populating a well-formed value's kind from the empty container rebuilds the value. */
  lemma {:induction false} PopulateRebuilds(m: Mirror)
    requires WellFormed(m)
    ensures ApplyAll(Empty(m.kind), BulkOps(PopulateMode(m.kind), m)) == Some(m)
  {
    var ops := BulkOps(PopulateMode(m.kind), m);
    PopulatePrefix(m, Length(m));
    assert ops[..Length(m)] == ops;
    match m
    case Items(_, xs) => assert xs[..|xs|] == xs;
    case Mapping(_, es) => assert es[..|es|] == es;
  }

  /** A value none of whose items, keys or values is itself a container. */
  predicate Flat(m: Mirror) {
    match m
    case Items(_, xs) => forall i :: 0 <= i < |xs| ==> !IsContainer(xs[i])
    case Mapping(_, es) => forall i :: 0 <= i < |es| ==> !IsContainer(es[i].key) && !IsContainer(es[i].val)
  }

  /**
   * The bulk mutations over a flat value carry no container, so even a nested handle
   * applies exactly the operations it was given.
   */
  lemma {:induction false} FlatAppliesAsGiven(nested: bool, b: Mode, m: Mirror, applied: seq<Op>)
    requires (b.Sets? ==> m.Mapping?) && Flat(m)
    requires PromotedAll(nested, BulkOps(b, m), applied)
    ensures applied == BulkOps(b, m)
  {
    var ops := BulkOps(b, m);
    forall i | 0 <= i < |ops| ensures applied[i] == ops[i] {
      assert ops[i] == BulkOp(b, m, i);
      match m
      case Items(_, xs) => assert Slot(ops[i]) == Some(xs[i]);
      case Mapping(_, es) =>
        assert Slot(ops[i]) == Some(if b.Sets? then es[i].val else Keys(es)[i]);
    }
  }
}
