/**
 * Nested containers: the `item` argument that `write_changes_dec` promotes to a shared
 * child container, and `copy`, which turns a nested container back into plain values.
 */
module Nesting {
  import opened Basics
  import opened Values
  import opened Containers

  // ---------------------------------------------------------------- the `item` argument

  /**
   * The argument bound to a parameter named `item`, for the methods that have one and
   * when it was passed: `append`, `appendleft`, `insert`, `__setitem__`, `setdefault`,
   * `remove`, `add` and `discard`.
   */
  function Slot(op: Op): (r: Option<Value>)
    ensures r.None? <==> !(op.Append? || op.AppendLeft? || op.Insert? || op.SetItem? || op.Remove?
                           || op.Add? || op.Discard? || (op.SetDefault? && op.default.Some?))
  {
    match op
    case Append(x) => Some(x)
    case AppendLeft(x) => Some(x)
    case Insert(_, x) => Some(x)
    case SetItem(_, x) => Some(x)
    case SetDefault(_, d) => d
    case Remove(x) => Some(x)
    case Add(x) => Some(x)
    case Discard(x) => Some(x)
    case _ => None
  }

  /** The `item` argument, or `Nil` when there is none. */
  function ItemOf(op: Op): Value {
    match Slot(op)
    case Some(v) => v
    case None => Nil
  }

  /**
   * `args[varnames.index('item') - 1]` as the source computes it: the item is read from
   * the positional arguments, so `setdefault(key)`, whose `item` has a default and was
   * not passed, raises IndexError.
   */
  function SlotAsWritten(op: Op): (r: Result<Option<Value>>)
    ensures op.SetDefault? && op.default.None? ==> r == Err(IndexError)
  {
    if op.SetDefault? && op.default.None? then Err(IndexError) else Ok(Slot(op))
  }

  /** The operation with its `item` argument replaced by `v`. */
  function WithItem(op: Op, v: Value): (r: Op)
    requires Slot(op).Some?
    ensures Slot(r) == Some(v)
  {
    match op
    case Append(_) => Append(v)
    case AppendLeft(_) => AppendLeft(v)
    case Insert(i, _) => Insert(i, v)
    case SetItem(k, _) => SetItem(k, v)
    case SetDefault(k, _) => SetDefault(k, Some(v))
    case Remove(_) => Remove(v)
    case Add(_) => Add(v)
    case Discard(_) => Discard(v)
  }

  /** A nested handle promotes this operation's item: it is a plain container value. */
  predicate Promotes(op: Op) {
    Slot(op).Some? && IsContainer(Slot(op).value)
  }

  /**
   * What a handle applies and logs for `op`: on a nested handle, an operation whose item
   * is a container carries a handle in its place; every other operation is unchanged.
   */
  predicate PromotedTo(nested: bool, op: Op, applied: Op) {
    if nested && Promotes(op) then
      Slot(applied).Some? && Slot(applied).value.Handle? && applied == WithItem(op, Slot(applied).value)
    else applied == op
  }

  /** Each operation of a sequence applied, as `PromotedTo` says, as the matching one of another. */
  predicate PromotedAll(nested: bool, ops: seq<Op>, applied: seq<Op>) {
    |ops| == |applied| && forall i :: 0 <= i < |ops| ==> PromotedTo(nested, ops[i], applied[i])
  }

  /** A handle that is not nested applies exactly the operations it was given. */
  lemma {:induction false} PlainAppliesAsGiven(ops: seq<Op>, applied: seq<Op>)
    requires PromotedAll(false, ops, applied)
    ensures applied == ops
  {
    assert forall i :: 0 <= i < |ops| ==> applied[i] == ops[i];
  }

  /** Replacing the item by itself changes nothing; replacing it changes nothing else. */
  lemma {:induction false} WithItemOnly(op: Op, v: Value, w: Value)
    requires Slot(op).Some?
    ensures WithItem(op, Slot(op).value) == op
    ensures WithItem(WithItem(op, v), w) == WithItem(op, w)
    ensures WithItem(op, v) == WithItem(op, w) ==> v == w
  {
    match op
    case Append(_) =>
    case AppendLeft(_) =>
    case Insert(_, _) =>
    case SetItem(_, _) =>
    case SetDefault(_, _) =>
    case Remove(_) =>
    case Add(_) =>
    case Discard(_) =>
  }

  /** A promoted operation logs a handle, never the inline container it was given. */
  lemma {:induction false} PromotedLogsHandle(op: Op, applied: Op)
    requires PromotedTo(true, op, applied) && Promotes(op)
    ensures Slot(applied).Some? && !IsContainer(Slot(applied).value) && Slot(applied).value.Handle?
    ensures applied != op
  {
  }

  /** The source's slot lookup fails exactly on `setdefault` without an item, and agrees elsewhere. */
  lemma {:induction false} SlotAsWrittenAgrees(op: Op)
    ensures SlotAsWritten(op).Err? <==> op.SetDefault? && op.default.None?
    ensures SlotAsWritten(op).Ok? ==> SlotAsWritten(op).value == Slot(op)
  {
  }

  /** `setdefault(key)` on a nested handle raises IndexError as written, though it has nothing to promote. */
  lemma {:induction false} SetDefaultIndexError(key: Value)
    ensures SlotAsWritten(SetDefault(key, None)) == Err(IndexError)
    ensures Slot(SetDefault(key, None)) == None && !Promotes(SetDefault(key, None))
  {
  }

  // ---------------------------------------------------------------- copy

  /**
   * `item.copy() if type(item) == SharedObject else item`, with `copyOf` giving each
   * child's own `copy`, which can itself fail.
   */
  function Detach(v: Value, copyOf: Name -> Result<Mirror>): (r: Result<Value>)
    ensures r.Ok? ==> !r.value.Handle?
    ensures !v.Handle? ==> r == Ok(v)
    ensures v.Handle? ==> r == (if copyOf(v.name).Ok? then Ok(Inline(copyOf(v.name).value)) else Err(copyOf(v.name).error))
  {
    if v.Handle? then
      match copyOf(v.name)
      case Ok(c) => Ok(Inline(c))
      case Err(e) => Err(e)
    else Ok(v)
  }

  /**
   * The list comprehension of `copy`: the items detached in order; the first item whose
   * copy fails makes the whole comprehension fail with that error.
   */
  function DetachAll(xs: seq<Value>, copyOf: Name -> Result<Mirror>): (r: Result<seq<Value>>)
    ensures r.Ok? <==> forall i :: 0 <= i < |xs| ==> Detach(xs[i], copyOf).Ok?
    ensures r.Ok? ==> |r.value| == |xs| && forall i :: 0 <= i < |xs| ==> r.value[i] == Detach(xs[i], copyOf).value
    ensures r.Err? ==> exists i :: 0 <= i < |xs| && Detach(xs[i], copyOf) == Err(r.error)
                                    && forall j :: 0 <= j < i ==> Detach(xs[j], copyOf).Ok?
    decreases |xs|
  {
    if xs == [] then Ok([])
    else
      match Detach(xs[0], copyOf)
      case Err(e) => Err(e)
      case Ok(y) =>
        match DetachAll(xs[1..], copyOf)
        case Err(e) =>
          assert forall i :: 0 <= i < |xs| - 1 ==> xs[1..][i] == xs[i + 1];
          Err(e)
        case Ok(ys) => Ok([y] + ys)
  }

  /** The dict comprehension of `copy`: the entries detached in order, keys kept, failing as `DetachAll` does. */
  function DetachEntries(es: seq<Entry>, copyOf: Name -> Result<Mirror>): (r: Result<seq<Entry>>)
    ensures r.Ok? <==> forall i :: 0 <= i < |es| ==> Detach(es[i].val, copyOf).Ok?
    ensures r.Ok? ==> |r.value| == |es| && forall i :: 0 <= i < |es| ==>
      r.value[i] == Entry(es[i].key, Detach(es[i].val, copyOf).value)
    ensures r.Err? ==> exists i :: 0 <= i < |es| && Detach(es[i].val, copyOf) == Err(r.error)
                                    && forall j :: 0 <= j < i ==> Detach(es[j].val, copyOf).Ok?
    decreases |es|
  {
    if es == [] then Ok([])
    else
      match Detach(es[0].val, copyOf)
      case Err(e) => Err(e)
      case Ok(y) =>
        match DetachEntries(es[1..], copyOf)
        case Err(e) =>
          assert forall i :: 0 <= i < |es| - 1 ==> es[1..][i] == es[i + 1];
          Err(e)
        case Ok(ys) => Ok([Entry(es[0].key, y)] + ys)
  }

  /**
   * `copy` as the source writes it: a non-empty nested container is rebuilt with
   * `self._obj_type(tmp)`, where the detached items `tmp` become one more positional
   * argument of the stored constructor. For a deque that constructor is
   * `partial(deque, (), maxlen)` and for a defaultdict `partial(defaultdict, factory, {})`,
   * so both calls take one argument too many and raise TypeError (after the
   * comprehension, whose own failure comes first).
   */
  function CopyAsWritten(m: Mirror, nested: bool, copyOf: Name -> Result<Mirror>): (r: Result<Mirror>)
    ensures !(Length(m) > 0 && nested) ==> r == Ok(m)
  {
    if Length(m) > 0 && nested then
      match m
      case Items(k, xs) =>
        if k.List? || k.Deque? then
          match DetachAll(xs, copyOf)
          case Err(e) => Err(e)
          case Ok(ys) => if k.List? then Ok(Items(k, ys)) else Err(TypeError)
        else Err(AttributeError)
      case Mapping(k, es) =>
        match DetachEntries(es, copyOf)
        case Err(e) => Err(e)
        case Ok(ys) => if k.DefaultDict? then Err(TypeError) else Ok(Mapping(k, ys))
    else Ok(m)
  }

  /** Every child a nested container holds copies without error. */
  predicate ChildrenCopy(m: Mirror, copyOf: Name -> Result<Mirror>) {
    match m
    case Items(_, xs) => forall i :: 0 <= i < |xs| ==> Detach(xs[i], copyOf).Ok?
    case Mapping(_, es) => forall i :: 0 <= i < |es| ==> Detach(es[i].val, copyOf).Ok?
  }

  /**
   * `copy` as intended: a plain container of the same kind whose nested handles are
   * replaced by their children's copies. (A set is never nested; its items are not
   * looked at, as `data.items()` does not exist on a set.) A child whose own copy fails
   * makes the copy fail.
   */
  function Copy(m: Mirror, nested: bool, copyOf: Name -> Result<Mirror>): (r: Result<Mirror>)
    ensures r.Err? <==> nested && Length(m) > 0 && ((m.Items? && !m.kind.List? && !m.kind.Deque?) || !ChildrenCopy(m, copyOf))
    ensures r.Err? && m.Items? && !m.kind.List? && !m.kind.Deque? ==> r.error == AttributeError
  {
    if Length(m) > 0 && nested then
      match m
      case Items(k, xs) =>
        if k.List? || k.Deque? then
          match DetachAll(xs, copyOf)
          case Err(e) => Err(e)
          case Ok(ys) => Ok(Items(k, ys))
        else Err(AttributeError)
      case Mapping(k, es) =>
        match DetachEntries(es, copyOf)
        case Err(e) => Err(e)
        case Ok(ys) => Ok(Mapping(k, ys))
    else Ok(m)
  }

  /** No top-level item of the container is a handle on shared memory. */
  predicate Detached(m: Mirror) {
    match m
    case Items(_, xs) => forall i :: 0 <= i < |xs| ==> !xs[i].Handle?
    case Mapping(_, es) => forall i :: 0 <= i < |es| ==> !es[i].val.Handle?
  }

  /**
   * What a copy is: the same kind and length; a nested container's copy holds no handle,
   * each former handle replaced by the child's copy and every other item kept; a plain
   * container's copy is the container itself.
   */
  lemma {:induction false} CopyIsDetached(m: Mirror, nested: bool, copyOf: Name -> Result<Mirror>)
    requires Copy(m, nested, copyOf).Ok?
    ensures var c := Copy(m, nested, copyOf).value;
      && c.kind == m.kind && Length(c) == Length(m)
      && (nested ==> Detached(c))
      && (!nested ==> c == m)
      && (nested && c.Items? ==> m.Items? && forall i :: 0 <= i < |m.items| ==>
            c.items[i] == (if m.items[i].Handle? then Inline(copyOf(m.items[i].name).value) else m.items[i]))
  {
    var c := Copy(m, nested, copyOf).value;
    if Length(m) > 0 && nested {
      match m
      case Items(k, xs) =>
        assert c == Items(k, DetachAll(xs, copyOf).value);
      case Mapping(k, es) =>
        assert c == Mapping(k, DetachEntries(es, copyOf).value);
    } else {
      if nested {
        assert Length(m) == 0;
        match m
        case Items(_, xs) => assert xs == [];
        case Mapping(_, es) => assert es == [];
      }
    }
  }

  /**
   * A nested list holding a child whose own copy fails (a non-empty nested deque, say)
   * fails to copy with the error of the first such child, as written and as intended.
   */
  lemma {:induction false} CopyChildFails(k: Kind, xs: seq<Value>, copyOf: Name -> Result<Mirror>, i: nat)
    requires k.List? && i < |xs| && xs[i].Handle? && copyOf(xs[i].name).Err?
    requires forall j :: 0 <= j < i ==> Detach(xs[j], copyOf).Ok?
    ensures CopyAsWritten(Items(k, xs), true, copyOf) == Err(copyOf(xs[i].name).error)
    ensures Copy(Items(k, xs), true, copyOf) == Err(copyOf(xs[i].name).error)
  {
  }

  /** The source's copy fails on every non-empty nested deque or defaultdict whose children copy, where the intended one succeeds. */
  lemma {:induction false} CopyDequeTypeError(m: Mirror, copyOf: Name -> Result<Mirror>)
    requires Length(m) > 0 && (m.kind.Deque? || m.kind.DefaultDict?)
    requires m.Items? <==> m.kind.Deque?
    requires ChildrenCopy(m, copyOf)
    ensures CopyAsWritten(m, true, copyOf) == Err(TypeError)
    ensures Copy(m, true, copyOf).Ok?
  {
  }

  /** On every other container the two agree. */
  lemma {:induction false} CopyAgrees(m: Mirror, nested: bool, copyOf: Name -> Result<Mirror>)
    requires !(nested && Length(m) > 0 && (m.kind.Deque? || m.kind.DefaultDict?))
    ensures CopyAsWritten(m, nested, copyOf) == Copy(m, nested, copyOf)
  {
  }
}
