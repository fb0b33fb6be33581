/**
 * What the Python container methods do to a mirror. The shared container calls the
 * mirror's own method of the same name for every mutation it applies locally and for
 * every record it replays, so one closed operation type serves both paths.
 */
module Containers {
  import opened Basics
  import opened Values

  /** The mutating methods of list/deque/dict/defaultdict/OrderedDict/set the container forwards. */
  datatype Op =
    | Append(item: Value)
    | AppendLeft(item: Value)
    | Insert(index: int, item: Value)
    | SetItem(key: Value, item: Value)
    | SetDefault(key: Value, default: Option<Value>)   // None: `item` was not passed
    | Remove(item: Value)
    | Add(item: Value)
    | Discard(item: Value)
    | DelItem(key: Value)
    | Pop(args: seq<Value>)
    | PopLeft
    | PopItem(args: seq<Value>)
    | Clear
    | Reverse
    | Sort(descending: bool)
    | Rotate(steps: int)
    | MoveToEnd(key: Value, last: bool)
    | DifferenceUpdate(others: seq<Value>)
    | IntersectionUpdate(others: seq<Value>)
    | SymmetricDifferenceUpdate(other: Value)

  /** The reading methods; each pulls and then reads the mirror. */
  datatype Query =
    | Len
    | Contains(x: Value)
    | GetItem(key: Value)
    | Get(key: Value, default: Value)
    | Count(x: Value)
    | Index(x: Value, start: int, stop: int)
    | KeysView
    | ValuesView
    | ItemsView
    | Equals(other: Value)
    | Difference(others: seq<Value>)
    | Intersection(others: seq<Value>)
    | Union(others: seq<Value>)
    | SymmetricDifference(other: Value)
    | IsDisjoint(other: Value)
    | IsSubset(other: Value)
    | IsSuperset(other: Value)

  // ---------------------------------------------------------------- sequence helpers

  /** Python's negative indexing: `-n <= i < n` selects an element. */
  function NormIndex(i: int, n: nat): (r: Option<nat>)
    ensures r.Some? <==> -(n as int) <= i < n
    ensures r.Some? ==> r.value < n && r.value == (if i < 0 then i + n else i)
  {
    var j := if i < 0 then i + n else i;
    if 0 <= j < n then Some(j) else None
  }

  /**
   * A position clamped into `[0, n]`, as `list.insert` takes its index and as
   * `list.index(x, start, stop)` takes its bounds: a negative position counts from
   * the end, and whatever still lies outside is moved to the nearer end.
   */
  function Clamp(i: int, n: nat): (j: nat)
    ensures j <= n
    ensures 0 <= i <= n ==> j == i
    ensures -(n as int) <= i < 0 ==> j == i + n
    ensures i < -(n as int) ==> j == 0
    ensures i > n ==> j == n
  {
    if i < 0 then (if i + n < 0 then 0 else i + n) else if i > n then n else i
  }

  /** `x in s` for a list or deque: some item is `==` to `x`. */
  predicate Holds(s: seq<Value>, x: Value) {
    exists k :: 0 <= k < |s| && PyEq(s[k], x)
  }

  /** The first position in `[i, stop)` holding an item `==` to `x`, as `index` and `remove` scan. */
  function FindFrom(s: seq<Value>, x: Value, i: nat, stop: nat): (r: Option<nat>)
    requires i <= stop <= |s|
    decreases stop - i
    ensures r.Some? ==> i <= r.value < stop && PyEq(s[r.value], x)
    ensures r.Some? ==> forall k :: i <= k < r.value ==> !PyEq(s[k], x)
    ensures r.None? ==> forall k :: i <= k < stop ==> !PyEq(s[k], x)
  {
    if i == stop then None else if PyEq(s[i], x) then Some(i) else FindFrom(s, x, i + 1, stop)
  }

  /** `list.count(x)`: the number of items `==` to `x`. */
  function CountOf(s: seq<Value>, x: Value): (n: nat)
    ensures n <= |s|
    ensures n == 0 <==> !Holds(s, x)
  {
    if s == [] then 0
    else
      var n := (if PyEq(s[0], x) then 1 else 0) + CountOf(s[1..], x);
      assert Holds(s, x) <==> PyEq(s[0], x) || Holds(s[1..], x) by {
        if Holds(s, x) {
          var k :| 0 <= k < |s| && PyEq(s[k], x);
          if k > 0 { assert s[1..][k - 1] == s[k]; }
        }
        if Holds(s[1..], x) {
          var k :| 0 <= k < |s[1..]| && PyEq(s[1..][k], x);
          assert s[k + 1] == s[1..][k];
        }
      }
      n
  }

  function RemoveAt<T>(s: seq<T>, j: nat): (r: seq<T>)
    requires j < |s|
    ensures |r| == |s| - 1
  {
    s[..j] + s[j + 1..]
  }

  function InsertAt(s: seq<Value>, j: nat, x: Value): (r: seq<Value>)
    requires j <= |s|
    ensures |r| == |s| + 1 && r[j] == x
  {
    s[..j] + [x] + s[j..]
  }

  function Reversed(s: seq<Value>): (r: seq<Value>)
    ensures |r| == |s|
    ensures forall k :: 0 <= k < |s| ==> r[k] == s[|s| - 1 - k]
  {
    if s == [] then [] else Reversed(s[1..]) + [s[0]]
  }

  /** `deque.rotate(n)`: n steps to the right (left for negative n). */
  function RotateRight(s: seq<Value>, n: int): (r: seq<Value>)
    ensures |r| == |s|
    ensures multiset(r) == multiset(s)
  {
    if |s| == 0 then s
    else
      var k := n % |s|;
      assert s == s[..|s| - k] + s[|s| - k..];
      s[|s| - k..] + s[..|s| - k]
  }

  /** `append` on a deque: a full bounded deque drops from the left. */
  function PushRight(s: seq<Value>, x: Value, maxlen: Option<nat>): (r: seq<Value>)
    ensures maxlen.Some? ==> |r| <= maxlen.value
    ensures maxlen.Some? && |s| < maxlen.value ==> r == s + [x]
    ensures maxlen.None? ==> r == s + [x]
  {
    var t := s + [x];
    if maxlen.Some? && |t| > maxlen.value then t[|t| - maxlen.value..] else t
  }

  /** `appendleft` on a deque: a full bounded deque drops from the right. */
  function PushLeft(s: seq<Value>, x: Value, maxlen: Option<nat>): (r: seq<Value>)
    ensures maxlen.Some? ==> |r| <= maxlen.value
    ensures maxlen.None? ==> r == [x] + s
  {
    var t := [x] + s;
    if maxlen.Some? && |t| > maxlen.value then t[..maxlen.value] else t
  }

  // ---------------------------------------------------------------- sorting (integers)

  predicate AllInts(s: seq<Value>) {
    forall i :: 0 <= i < |s| ==> s[i].Int?
  }

  predicate Ascending(s: seq<Value>)
    requires AllInts(s)
  {
    forall i, j :: 0 <= i < j < |s| ==> s[i].i <= s[j].i
  }

  function InsertSorted(x: Value, s: seq<Value>): (r: seq<Value>)
    requires x.Int? && AllInts(s)
    ensures AllInts(r) && multiset(r) == multiset(s) + multiset{x}
  {
    if s == [] || x.i <= s[0].i then [x] + s
    else
      var r := [s[0]] + InsertSorted(x, s[1..]);
      assert s == [s[0]] + s[1..];
      r
  }

  lemma {:induction false} InsertSortedAscending(x: Value, s: seq<Value>)
    requires x.Int? && AllInts(s) && Ascending(s)
    ensures Ascending(InsertSorted(x, s))
    ensures |s| > 0 ==> InsertSorted(x, s)[0].i == if x.i <= s[0].i then x.i else s[0].i
  {
    if s != [] && s[0].i < x.i {
      var t := InsertSorted(x, s[1..]);
      InsertSortedAscending(x, s[1..]);
      if |s| == 1 {
        assert t == [x];
      } else {
        assert s[0].i <= s[1].i;
      }
      AscendingCons(s[0], t);
      assert InsertSorted(x, s) == [s[0]] + t;
    }
  }

  /** An ascending sequence stays ascending under a head no larger than its first item. */
  lemma {:induction false} AscendingCons(h: Value, t: seq<Value>)
    requires h.Int? && AllInts(t) && Ascending(t)
    requires |t| > 0 ==> h.i <= t[0].i
    ensures AllInts([h] + t) && Ascending([h] + t)
  {
    var r := [h] + t;
    forall i, j | 0 <= i < j < |r| ensures r[i].i <= r[j].i {
      assert r[j] == t[j - 1];
      if i == 0 {
        assert t[0].i <= t[j - 1].i;
      } else {
        assert r[i] == t[i - 1];
      }
    }
  }

  /** `list.sort()` over integers, as insertion sort. */
  function SortInts(s: seq<Value>): (r: seq<Value>)
    requires AllInts(s)
    ensures AllInts(r) && multiset(r) == multiset(s)
  {
    if s == [] then []
    else
      var r := InsertSorted(s[0], SortInts(s[1..]));
      assert s == [s[0]] + s[1..];
      r
  }

  /** Sorting yields an ascending permutation of the items. */
  lemma {:induction false} SortIntsCorrect(s: seq<Value>)
    requires AllInts(s)
    ensures Ascending(SortInts(s))
    ensures multiset(SortInts(s)) == multiset(s) && |SortInts(s)| == |s|
  {
    assert |multiset(SortInts(s))| == |multiset(s)|;
    if s != [] {
      SortIntsCorrect(s[1..]);
      InsertSortedAscending(s[0], SortInts(s[1..]));
    }
  }

  // ---------------------------------------------------------------- set and mapping helpers

  /**
   * What `for x in v` iterates over, for the argument kinds the model covers: a tuple's
   * items, a container's items or keys, and a string's one-character strings.
   */
  function Elements(v: Value): Option<seq<Value>> {
    match v
    case Str(s) => Some(seq(|s|, i requires 0 <= i < |s| => Str([s[i]])))
    case Tuple(es) => Some(es)
    case Inline(Items(_, xs)) => Some(xs)
    case Inline(Mapping(_, es)) => Some(Keys(es))
    case _ => None
  }

  function AllElements(vs: seq<Value>): Option<seq<seq<Value>>> {
    if vs == [] then Some([])
    else
      match (Elements(vs[0]), AllElements(vs[1..]))
      case (Some(x), Some(rest)) => Some([x] + rest)
      case _ => None
  }

  predicate AllHashable(s: seq<Value>) {
    forall i :: 0 <= i < |s| ==> Hashable(s[i])
  }

  /**
   * A set given where a set looks up an element: `in`, `remove` and `discard` retry the
   * lookup with `frozenset(x)`, which needs hashable elements. No model value is a
   * frozenset, so the retried lookup never finds anything.
   */
  predicate FrozenLookup(x: Value) {
    x.Inline? && x.m.Items? && x.m.kind.Set? && AllHashable(x.m.items)
  }

  function Without(s: seq<Value>, x: Value): (r: seq<Value>)
    ensures x !in r
    ensures forall y :: y in r <==> y in s && y != x
    ensures |r| <= |s|
  {
    if s == [] then [] else (if s[0] == x then [] else [s[0]]) + Without(s[1..], x)
  }

  function Minus(s: seq<Value>, ys: seq<Value>): (r: seq<Value>)
    ensures forall y :: y in r <==> y in s && y !in ys
  {
    if s == [] then [] else (if s[0] in ys then [] else [s[0]]) + Minus(s[1..], ys)
  }

  function Keep(s: seq<Value>, ys: seq<Value>): (r: seq<Value>)
    ensures forall y :: y in r <==> y in s && y in ys
  {
    if s == [] then [] else (if s[0] in ys then [s[0]] else []) + Keep(s[1..], ys)
  }

  function KeepAll(s: seq<Value>, yss: seq<seq<Value>>): (r: seq<Value>)
    ensures forall y :: y in r <==> y in s && forall k :: 0 <= k < |yss| ==> y in yss[k]
    decreases |yss|
  {
    if yss == [] then s else KeepAll(Keep(s, yss[0]), yss[1..])
  }

  function MinusAll(s: seq<Value>, yss: seq<seq<Value>>): (r: seq<Value>)
    ensures forall y :: y in r <==> y in s && forall k :: 0 <= k < |yss| ==> y !in yss[k]
    decreases |yss|
  {
    if yss == [] then s else MinusAll(Minus(s, yss[0]), yss[1..])
  }

  /** Adds the elements of `ys` not yet present, in order and without repeats. */
  function AddAll(s: seq<Value>, ys: seq<Value>): (r: seq<Value>)
    ensures forall y :: y in r <==> y in s || y in ys
    ensures Distinct(s) ==> Distinct(r)
    decreases |ys|
  {
    if ys == [] then s
    else
      var t := if ys[0] in s then s else s + [ys[0]];
      AddAll(t, ys[1..])
  }

  function UnionAll(s: seq<Value>, yss: seq<seq<Value>>): (r: seq<Value>)
    ensures forall y :: y in r <==> y in s || exists k :: 0 <= k < |yss| && y in yss[k]
    ensures Distinct(s) ==> Distinct(r)
    decreases |yss|
  {
    if yss == [] then s
    else
      var r := UnionAll(AddAll(s, yss[0]), yss[1..]);
      assert forall y :: (exists k :: 0 <= k < |yss| && y in yss[k]) <==>
        (y in yss[0] || exists k :: 0 <= k < |yss[1..]| && y in yss[1..][k]) by {
        forall y | exists k :: 0 <= k < |yss| && y in yss[k]
          ensures y in yss[0] || exists k :: 0 <= k < |yss[1..]| && y in yss[1..][k]
        {
          var k :| 0 <= k < |yss| && y in yss[k];
          if k > 0 { assert y in yss[1..][k - 1]; }
        }
      }
      r
  }

  function AllHashableIn(yss: seq<seq<Value>>): bool {
    forall k :: 0 <= k < |yss| ==> AllHashable(yss[k])
  }

  /**
   * The position of `key` among the entries' keys. Keys are hashable, and on hashable
   * values `==` is sameness (`HashablePyEq`), so the lookup compares keys as values.
   */
  function KeyIndex(es: seq<Entry>, key: Value): (r: Option<nat>)
    ensures r.Some? ==> r.value < |es| && es[r.value].key == key
    ensures r.None? <==> key !in Keys(es)
  {
    var r := KeyFrom(es, key, 0);
    assert r.None? ==> forall k :: 0 <= k < |es| ==> Keys(es)[k] != key;
    r
  }

  function KeyFrom(es: seq<Entry>, key: Value, i: nat): (r: Option<nat>)
    requires i <= |es|
    decreases |es| - i
    ensures r.Some? ==> i <= r.value < |es| && es[r.value].key == key
    ensures r.None? ==> forall k :: i <= k < |es| ==> es[k].key != key
  {
    if i == |es| then None else if es[i].key == key then Some(i) else KeyFrom(es, key, i + 1)
  }

  /** `d[key] = v`: overwrite in place, or insert at the end. */
  function Put(es: seq<Entry>, key: Value, v: Value): (r: seq<Entry>)
    ensures KeyIndex(es, key).Some? ==> |r| == |es|
    ensures KeyIndex(es, key).None? ==> r == es + [Entry(key, v)]
  {
    match KeyIndex(es, key)
    case Some(j) => es[j := Entry(key, v)]
    case None => es + [Entry(key, v)]
  }

  /**
   * `d[key] = v` on a key already present keeps the keys and their order, binds the
   * key to `v` and leaves every other entry as it was.
   */
  lemma {:induction false} PutOverwrites(es: seq<Entry>, key: Value, v: Value, j: nat)
    requires KeyIndex(es, key) == Some(j)
    ensures Keys(Put(es, key, v)) == Keys(es)
    ensures Put(es, key, v)[j] == Entry(key, v)
    ensures forall i :: 0 <= i < |es| && i != j ==> Put(es, key, v)[i] == es[i]
  {
    var r := Put(es, key, v);
    assert forall i :: 0 <= i < |es| ==> Keys(r)[i] == Keys(es)[i];
  }

  /** Python truthiness, as `popitem(last)` reads its argument. */
  predicate Truthy(v: Value) {
    match v
    case Nil => false
    case Bool(b) => b
    case Int(i) => i != 0
    case Str(s) => |s| > 0
    case Tuple(es) => |es| > 0
    case Inline(m) => Length(m) > 0
    case Handle(_) => true
  }

  // ---------------------------------------------------------------- mutations

  /** The sequence kinds: list and deque. */
  function ApplySequence(k: Kind, xs: seq<Value>, op: Op): Result<(Mirror, Value)>
    requires k.List? || k.Deque?
  {
    var ml := if k.Deque? then k.maxlen else None;
    match op
    case Append(x) => Ok((Items(k, PushRight(xs, x, ml)), Nil))
    case AppendLeft(x) => if k.Deque? then Ok((Items(k, PushLeft(xs, x, ml)), Nil)) else Err(AttributeError)
    case Insert(i, x) =>
      if ml.Some? && |xs| >= ml.value then Err(IndexError)
      else Ok((Items(k, InsertAt(xs, Clamp(i, |xs|), x)), Nil))
    case SetItem(key, x) =>
      if !key.Int? then Err(TypeError)
      else (match NormIndex(key.i, |xs|)
            case Some(j) => Ok((Items(k, xs[j := x]), Nil))
            case None => Err(IndexError))
    case Remove(x) =>
      (match FindFrom(xs, x, 0, |xs|)
       case Some(j) => Ok((Items(k, RemoveAt(xs, j)), Nil))
       case None => Err(ValueError))
    case DelItem(key) =>
      if !key.Int? then Err(TypeError)
      else (match NormIndex(key.i, |xs|)
            case Some(j) => Ok((Items(k, RemoveAt(xs, j)), Nil))
            case None => Err(IndexError))
    case Pop(args) =>
      if |args| == 0 then
        (if |xs| == 0 then Err(IndexError) else Ok((Items(k, xs[..|xs| - 1]), xs[|xs| - 1])))
      else if k.Deque? || |args| > 1 || !args[0].Int? then Err(TypeError)
      else (match NormIndex(args[0].i, |xs|)
            case Some(j) => Ok((Items(k, RemoveAt(xs, j)), xs[j]))
            case None => Err(IndexError))
    case PopLeft =>
      if !k.Deque? then Err(AttributeError)
      else if |xs| == 0 then Err(IndexError)
      else Ok((Items(k, xs[1..]), xs[0]))
    case Clear => Ok((Items(k, []), Nil))
    case Reverse => Ok((Items(k, Reversed(xs)), Nil))
    case Sort(descending) =>
      if !k.List? then Err(AttributeError)
      else if !AllInts(xs) then Err(TypeError)
      else Ok((Items(k, if descending then Reversed(SortInts(xs)) else SortInts(xs)), Nil))
    case Rotate(n) => if k.Deque? then Ok((Items(k, RotateRight(xs, n)), Nil)) else Err(AttributeError)
    case _ => Err(AttributeError)
  }

  /**
   * The set kind. `pop` removes the element that comes first in the order every
   * replica shares, the order of `xs`, so that every replica removes the element the
   * writer's pop returned (`SetPopIsRemove`; `SetPopAsWritten` is the pop as written).
   */
  function ApplySet(xs: seq<Value>, op: Op): Result<(Mirror, Value)> {
    match op
    case Add(x) =>
      if !Hashable(x) then Err(TypeError)
      else Ok((Items(Set, if x in xs then xs else xs + [x]), Nil))
    case Discard(x) =>
      if Hashable(x) then Ok((Items(Set, Without(xs, x)), Nil))
      else if FrozenLookup(x) then Ok((Items(Set, xs), Nil))
      else Err(TypeError)
    case Remove(x) =>
      if Hashable(x) then (if x !in xs then Err(KeyError) else Ok((Items(Set, Without(xs, x)), Nil)))
      else if FrozenLookup(x) then Err(KeyError)
      else Err(TypeError)
    case Pop(args) =>
      if |args| > 0 then Err(TypeError)
      else if |xs| == 0 then Err(KeyError)
      else Ok((Items(Set, xs[1..]), xs[0]))
    case Clear => Ok((Items(Set, []), Nil))
    case DifferenceUpdate(others) =>
      (match AllElements(others)
       case Some(yss) => if AllHashableIn(yss) then Ok((Items(Set, MinusAll(xs, yss)), Nil)) else Err(TypeError)
       case None => Err(TypeError))
    case IntersectionUpdate(others) =>
      (match AllElements(others)
       case Some(yss) => if AllHashableIn(yss) then Ok((Items(Set, KeepAll(xs, yss)), Nil)) else Err(TypeError)
       case None => Err(TypeError))
    case SymmetricDifferenceUpdate(other) =>
      (match Elements(other)
       case Some(ys) =>
         if AllHashable(ys) then Ok((Items(Set, AddAll(Minus(xs, ys), Minus(ys, xs))), Nil)) else Err(TypeError)
       case None => Err(TypeError))
    case SetItem(_, _) => Err(TypeError)
    case DelItem(_) => Err(TypeError)
    case _ => Err(AttributeError)
  }

  /**
   * `set.pop()` as a replica runs it when it replays a `pop` record: it removes the
   * element that comes first in that replica's own iteration order, which follows the
   * hashes of the process (string hashes differ from process to process). `pick` is
   * the position of that element in `xs`. Every replica removes what its own pop
   * returned, and nothing else.
   */
  function SetPopAsWritten(xs: seq<Value>, args: seq<Value>, pick: nat): (r: Result<(Mirror, Value)>)
    ensures r.Ok? <==> |args| == 0 && |xs| > 0
    ensures r.Ok? ==> r.value.1 in xs && r.value.0.Items? && r.value.0.kind == Set
    ensures r.Ok? && Distinct(xs) ==> r.value.0.items == Without(xs, r.value.1)
  {
    if |args| > 0 then Err(TypeError)
    else if |xs| == 0 then Err(KeyError)
    else
      var i := pick % |xs|;
      var r := Ok((Items(Set, xs[..i] + xs[i + 1..]), xs[i]));
      WithoutAt(xs, i);
      r
  }

  /** In a set without repeats, dropping position i is removing the value held there. */
  lemma {:induction false} WithoutAt(xs: seq<Value>, i: nat)
    requires i < |xs|
    ensures Distinct(xs) ==> Without(xs, xs[i]) == xs[..i] + xs[i + 1..]
    decreases |xs|
  {
    if Distinct(xs) {
      var t := xs[1..];
      assert xs[0] !in t by {
        forall j | 0 <= j < |t| ensures t[j] != xs[0] {
          assert t[j] == xs[j + 1];
        }
      }
      if i == 0 {
        WithoutAbsent(t, xs[0]);
      } else {
        assert Distinct(t) by {
          forall j, k | 0 <= j < k < |t| ensures t[j] != t[k] {
            assert t[j] == xs[j + 1] && t[k] == xs[k + 1];
          }
        }
        assert xs[i] == t[i - 1] && xs[0] != xs[i];
        WithoutAt(t, i - 1);
        assert xs[..i] + xs[i + 1..] == [xs[0]] + (t[..i - 1] + t[i..]);
      }
    }
  }

  /** Removing a value a sequence does not hold leaves it as it is. */
  lemma {:induction false} WithoutAbsent(xs: seq<Value>, x: Value)
    requires x !in xs
    ensures Without(xs, x) == xs
    decreases |xs|
  {
    if xs != [] {
      WithoutAbsent(xs[1..], x);
      assert xs == [xs[0]] + xs[1..];
    }
  }

  /**
   * The divergence: two replicas holding the set {'a', 'b'}, whose iteration orders put
   * a different element first, replay the same `pop` record into different sets.
   */
  lemma SetPopDiverges()
    ensures var xs := [Str([97]), Str([98])];
      var a, b := SetPopAsWritten(xs, [], 0), SetPopAsWritten(xs, [], 1);
      a.Ok? && b.Ok? && a.value.0 != b.value.0
  {
    var xs := [Str([97]), Str([98])];
    assert SetPopAsWritten(xs, [], 0).value.0.items == [Str([98])];
    assert SetPopAsWritten(xs, [], 1).value.0.items == [Str([97])];
  }

  /**
   * The intended behaviour: every replica removes the element the writer's pop
   * returned, as if the record were `remove(x)`. The model's set pop removes the
   * element first in the order all replicas share, and replaying it is exactly that
   * removal, with `x` returned.
   */
  lemma {:induction false} SetPopIsRemove(xs: seq<Value>)
    requires |xs| > 0 && Distinct(xs) && Hashable(xs[0])
    ensures ApplySet(xs, Pop([])).Ok?
    ensures var (m, x) := ApplySet(xs, Pop([])).value;
      x == xs[0] && ApplySet(xs, Remove(x)) == Ok((m, Nil))
  {
    WithoutAt(xs, 0);
    assert xs[..0] + xs[1..] == xs[1..] && xs[0] in xs;
  }

  // ---------------------------------------------------------------- difference_update, step by step

  lemma {:induction false} MinusConcat(a: seq<Value>, b: seq<Value>, ys: seq<Value>)
    ensures Minus(a + b, ys) == Minus(a, ys) + Minus(b, ys)
    decreases |a|
  {
    if a == [] {
      assert a + b == b;
    } else {
      assert (a + b)[0] == a[0] && (a + b)[1..] == a[1..] + b;
      MinusConcat(a[1..], b, ys);
    }
  }

  /** Discarding `y` and then the elements of `ys` leaves what discarding `[y] + ys` at once leaves. */
  lemma {:induction false} MinusWithout(s: seq<Value>, y: Value, ys: seq<Value>)
    ensures Minus(Without(s, y), ys) == Minus(s, [y] + ys)
    decreases |s|
  {
    if s != [] {
      var h := if s[0] == y then [] else [s[0]];
      MinusConcat(h, Without(s[1..], y), ys);
      MinusWithout(s[1..], y, ys);
      assert [s[0]][1..] == [];
    }
  }

  lemma {:induction false} MinusNothing(s: seq<Value>)
    ensures Minus(s, []) == s
    decreases |s|
  {
    if s != [] {
      MinusNothing(s[1..]);
    }
  }

  /** How many elements at the front of `ys` are hashable: where an element-by-element scan stops. */
  function HashablePrefix(ys: seq<Value>): (p: nat)
    ensures p <= |ys| && AllHashable(ys[..p])
    ensures p < |ys| ==> !Hashable(ys[p])
    ensures p == |ys| <==> AllHashable(ys)
    decreases |ys|
  {
    if ys == [] || !Hashable(ys[0]) then 0
    else
      var q := HashablePrefix(ys[1..]);
      assert forall i :: 1 <= i < |ys| ==> ys[i] == ys[1..][i - 1];
      assert ys[..1 + q] == [ys[0]] + ys[1..][..q];
      1 + q
  }

  /**
   * The loop of `set.difference_update` over one argument: discard its elements one by
   * one, and stop at the first that is not hashable. The set left behind has lost the
   * elements before that one; the flag says whether the loop ran to the end.
   */
  function DiscardEach(xs: seq<Value>, ys: seq<Value>): (r: (seq<Value>, bool))
    ensures r.1 <==> AllHashable(ys)
    ensures r.0 == Minus(xs, ys[..HashablePrefix(ys)])
    ensures r.1 ==> r.0 == Minus(xs, ys)
    decreases |ys|
  {
    if ys == [] then
      MinusNothing(xs);
      (xs, true)
    else if !Hashable(ys[0]) then
      MinusNothing(xs);
      assert ys[..0] == [];
      (xs, false)
    else
      var r := DiscardEach(Without(xs, ys[0]), ys[1..]);
      var q := HashablePrefix(ys[1..]);
      MinusWithout(xs, ys[0], ys[1..][..q]);
      assert [ys[0]] + ys[1..][..q] == ys[..HashablePrefix(ys)];
      assert ys[..|ys|] == ys;
      r
  }

  /** One argument of `difference_update` whose elements are all hashable can be taken first. */
  lemma {:induction false} DifferenceUpdateStep(xs: seq<Value>, others: seq<Value>)
    requires |others| > 0 && Elements(others[0]).Some?
    ensures AllHashable(Elements(others[0]).value) ==>
      ApplySet(xs, DifferenceUpdate(others))
        == ApplySet(Minus(xs, Elements(others[0]).value), DifferenceUpdate(others[1..]))
    ensures !AllHashable(Elements(others[0]).value) ==> ApplySet(xs, DifferenceUpdate(others)) == Err(TypeError)
  {
    var ys := Elements(others[0]).value;
    match AllElements(others[1..])
    case None =>
    case Some(rest) =>
      assert AllElements(others) == Some([ys] + rest);
      assert ([ys] + rest)[0] == ys && ([ys] + rest)[1..] == rest;
      assert AllHashableIn([ys] + rest) <==> AllHashable(ys) && AllHashableIn(rest) by {
        assert forall k :: 1 <= k < |[ys] + rest| ==> ([ys] + rest)[k] == rest[k - 1];
      }
  }

  /**
   * `set.difference_update(*others)` as Python runs it: the arguments are taken in order
   * and the elements of each discarded one by one, so an argument that cannot be
   * iterated, or an element that is not hashable, raises TypeError after the discards
   * before it have happened. The result is the set left behind and the outcome. When
   * the call succeeds it agrees with `ApplySet`, which fails without changing anything.
   */
  function DifferenceUpdateAsWritten(xs: seq<Value>, others: seq<Value>): (r: (seq<Value>, Result<Value>))
    ensures ApplySet(xs, DifferenceUpdate(others)) == (if r.1.Ok? then Ok((Items(Set, r.0), Nil)) else Err(TypeError))
    ensures r.1 == Ok(Nil) || r.1 == Err(TypeError)
    ensures forall y :: y in r.0 ==> y in xs
    decreases |others|
  {
    if others == [] then
      assert MinusAll(xs, []) == xs;
      (xs, Ok(Nil))
    else
      match Elements(others[0])
      case None => (xs, Err(TypeError))
      case Some(ys) =>
        DifferenceUpdateStep(xs, others);
        var (left, ok) := DiscardEach(xs, ys);
        if !ok then (left, Err(TypeError)) else DifferenceUpdateAsWritten(left, others[1..])
  }

  /** `{1, 2}.difference_update([1, []])` has removed 1 when it raises TypeError at `[]`. */
  lemma DifferenceUpdatePartial()
    ensures DifferenceUpdateAsWritten([Int(1), Int(2)], [Inline(Items(List, [Int(1), Inline(Items(List, []))]))])
      == ([Int(2)], Err(TypeError))
    ensures ApplySet([Int(1), Int(2)], DifferenceUpdate([Inline(Items(List, [Int(1), Inline(Items(List, []))]))]))
      == Err(TypeError)
  {
    var ys := [Int(1), Inline(Items(List, []))];
    assert Without([Int(1), Int(2)], Int(1)) == [Int(2)] by {
      assert [Int(1), Int(2)][1..] == [Int(2)];
      assert Without([Int(2)], Int(1)) == [Int(2)] by { assert [Int(2)][1..] == []; }
    }
    assert ys[1..] == [Inline(Items(List, []))];
    assert DiscardEach([Int(2)], ys[1..]) == ([Int(2)], false);
  }

  /** The mapping kinds: dict, defaultdict and OrderedDict. */
  function ApplyMapping(k: Kind, es: seq<Entry>, op: Op): Result<(Mirror, Value)>
    requires IsMapKind(k)
  {
    match op
    case SetItem(key, x) =>
      if !Hashable(key) then Err(TypeError) else Ok((Mapping(k, Put(es, key, x)), Nil))
    case SetDefault(key, d) =>
      if !Hashable(key) then Err(TypeError)
      else if KeyIndex(es, key).Some? then Ok((Mapping(k, es), Nil))
      else Ok((Mapping(k, es + [Entry(key, if d.Some? then d.value else Nil)]), Nil))
    case DelItem(key) =>
      if !Hashable(key) then Err(TypeError)
      else (match KeyIndex(es, key)
            case Some(j) => Ok((Mapping(k, RemoveAt(es, j)), Nil))
            case None => Err(KeyError))
    case Pop(args) =>
      if |args| == 0 || |args| > 2 then Err(TypeError)
      else if !Hashable(args[0]) then Err(TypeError)
      else (match KeyIndex(es, args[0])
            case Some(j) => Ok((Mapping(k, RemoveAt(es, j)), es[j].val))
            case None => if |args| == 2 then Ok((Mapping(k, es), args[1])) else Err(KeyError))
    case PopItem(args) =>
      if |args| > (if k.OrderedDict? then 1 else 0) then Err(TypeError)
      else if |es| == 0 then Err(KeyError)
      else if |args| == 1 && !Truthy(args[0]) then
        Ok((Mapping(k, es[1..]), Tuple([es[0].key, es[0].val])))
      else Ok((Mapping(k, es[..|es| - 1]), Tuple([es[|es| - 1].key, es[|es| - 1].val])))
    case MoveToEnd(key, last) =>
      if !k.OrderedDict? then Err(AttributeError)
      else if !Hashable(key) then Err(TypeError)
      else (match KeyIndex(es, key)
            case Some(j) =>
              var rest := RemoveAt(es, j);
              Ok((Mapping(k, if last then rest + [es[j]] else [es[j]] + rest), Nil))
            case None => Err(KeyError))
    case Clear => Ok((Mapping(k, []), Nil))
    case _ => Err(AttributeError)
  }

  /**
   * `self.data.<name>(*args)`: the new mirror and the value the shared container's
   * method returns. Every successful operation keeps the container's kind, so a
   * replica built from the kind descriptor can replay any record.
   */
  function ApplyOp(m: Mirror, op: Op): (r: Result<(Mirror, Value)>)
    ensures r.Ok? ==> r.value.0.kind == m.kind
    ensures r.Ok? && op.Clear? ==> r.value.0 == Empty(m.kind)
    ensures r.Ok? && op.SetDefault? ==> r.value.1 == Nil
  {
    match m
    case Items(k, xs) =>
      if k.List? || k.Deque? then ApplySequence(k, xs, op)
      else if k.Set? then ApplySet(xs, op)
      else Err(TypeError)
    case Mapping(k, es) =>
      if IsMapKind(k) then ApplyMapping(k, es, op) else Err(TypeError)
  }

  /** Two dicts with the same entries in another order are `==`; so are deques that differ in maxlen. */
  lemma OrderAndMaxlenIgnored()
    ensures PyEq(Inline(Mapping(Dict, [Entry(Str([97]), Int(1)), Entry(Str([98]), Int(2))])),
                 Inline(Mapping(Dict, [Entry(Str([98]), Int(2)), Entry(Str([97]), Int(1))])))
    ensures PyEq(Inline(Items(Deque(None), [Int(1)])), Inline(Items(Deque(Some(5)), [Int(1)])))
  {
    var e1, e2 := [Entry(Str([97]), Int(1)), Entry(Str([98]), Int(2))], [Entry(Str([98]), Int(2)), Entry(Str([97]), Int(1))];
    assert e2[1].key == e1[0].key && PyEq(e1[0].val, e2[1].val);
    assert e2[0].key == e1[1].key && PyEq(e1[1].val, e2[0].val);
  }

  /**
   * `remove`, `in` and `count` on a list or deque find items by Python's `==`: an item
   * `==` to `x` at the front is what `remove(x)` takes out, `x in` holds and `count(x)`
   * is at least 1. With `OrderAndMaxlenIgnored`, a list holding {'a': 1, 'b': 2} removes
   * {'b': 2, 'a': 1}.
   */
  lemma ScansUsePyEq(k: Kind, y: Value, rest: seq<Value>, x: Value)
    requires (k.List? || k.Deque?) && PyEq(y, x)
    ensures ApplyOp(Items(k, [y] + rest), Remove(x)) == Ok((Items(k, rest), Nil))
    ensures Eval(Items(k, [y] + rest), Contains(x)) == Ok(Bool(true))
    ensures Eval(Items(k, [y] + rest), Count(x)).Ok? && Eval(Items(k, [y] + rest), Count(x)).value.i >= 1
  {
    var xs := [y] + rest;
    assert PyEq(xs[0], x);
    assert FindFrom(xs, x, 0, |xs|) == Some(0);
    assert RemoveAt(xs, 0) == rest;
  }

  /**
   * A set passed to a set's `in`, `remove` or `discard` is looked up as a frozenset,
   * which no model set holds: `discard` changes nothing, `remove` raises KeyError and
   * `in` answers False. A set with an unhashable element cannot become a frozenset.
   */
  lemma SetArgumentIsAbsent(xs: seq<Value>, x: Value)
    requires x.Inline? && x.m.Items? && x.m.kind.Set?
    ensures AllHashable(x.m.items) ==> ApplyOp(Items(Set, xs), Discard(x)) == Ok((Items(Set, xs), Nil))
    ensures AllHashable(x.m.items) ==> ApplyOp(Items(Set, xs), Remove(x)) == Err(KeyError)
    ensures AllHashable(x.m.items) ==> Eval(Items(Set, xs), Contains(x)) == Ok(Bool(false))
    ensures !AllHashable(x.m.items) ==>
      && ApplyOp(Items(Set, xs), Discard(x)) == Err(TypeError)
      && ApplyOp(Items(Set, xs), Remove(x)) == Err(TypeError)
      && Eval(Items(Set, xs), Contains(x)) == Err(TypeError)
  {
  }


  /** The new mirror alone, as replay uses it. */
  function Apply(m: Mirror, op: Op): Option<Mirror> {
    match ApplyOp(m, op)
    case Ok((m', _)) => Some(m')
    case Err(_) => None
  }

  /** Replaying records one at a time, in log order. */
  function ApplyAll(m: Mirror, ops: seq<Op>): Option<Mirror>
    decreases |ops|
  {
    if ops == [] then Some(m)
    else
      match Apply(m, ops[0])
      case Some(m') => ApplyAll(m', ops[1..])
      case None => None
  }

  /** Replaying a log that starts with a record is applying it, then replaying the rest. */
  lemma {:induction false} ApplyAllCons(m: Mirror, op: Op, ops: seq<Op>)
    ensures Apply(m, op).None? ==> ApplyAll(m, [op] + ops) == None
    ensures Apply(m, op).Some? ==> ApplyAll(m, [op] + ops) == ApplyAll(Apply(m, op).value, ops)
  {
    assert ([op] + ops)[0] == op && ([op] + ops)[1..] == ops;
  }

  /** Replaying a log extended by one record is replaying the log, then that record. */
  lemma {:induction false} ApplyAllSnoc(m: Mirror, ops: seq<Op>, op: Op)
    ensures ApplyAll(m, ops + [op]) ==
      (match ApplyAll(m, ops) case Some(m') => Apply(m', op) case None => None)
    decreases |ops|
  {
    if ops == [] {
      assert ops + [op] == [op];
      assert [op][1..] == [];
    } else {
      assert (ops + [op])[1..] == ops[1..] + [op];
      match Apply(m, ops[0])
      case Some(m1) => ApplyAllSnoc(m1, ops[1..], op);
      case None =>
    }
  }

  /** Replaying two logs back to back is replaying their concatenation. */
  lemma {:induction false} ApplyAllAppend(m: Mirror, ops1: seq<Op>, ops2: seq<Op>)
    ensures ApplyAll(m, ops1 + ops2) ==
      (match ApplyAll(m, ops1) case Some(m') => ApplyAll(m', ops2) case None => None)
    decreases |ops1|
  {
    if ops1 == [] {
      assert ops1 + ops2 == ops2;
    } else {
      assert (ops1 + ops2)[1..] == ops1[1..] + ops2;
      match Apply(m, ops1[0])
      case Some(m1) => ApplyAllAppend(m1, ops1[1..], ops2);
      case None =>
    }
  }

  // ---------------------------------------------------------------- queries

  /**
   * The reading methods over a mirror. A read never changes the mirror; in
   * particular `d[missing]` on a defaultdict answers the factory's value without
   * inserting it, unlike `GetItemAsWritten`.
   */
  function Eval(m: Mirror, q: Query): (r: Result<Value>)
    ensures q.Len? ==> r == Ok(Int(Length(m)))
    ensures q.Contains? && m.Items? && !m.kind.Set? ==> r == Ok(Bool(Holds(m.items, q.x)))
    ensures q.Contains? && m.Mapping? && Hashable(q.x) ==> r == Ok(Bool(q.x in Keys(m.entries)))
    ensures q.Get? && m.Mapping? && Hashable(q.key) && q.key !in Keys(m.entries) ==> r == Ok(q.default)
  {
    match q
    case Len => Ok(Int(Length(m)))
    case Contains(x) =>
      (match m
       case Items(k, xs) =>
         if !k.Set? then Ok(Bool(Holds(xs, x)))
         else if Hashable(x) then Ok(Bool(x in xs))
         else if FrozenLookup(x) then Ok(Bool(false))
         else Err(TypeError)
       case Mapping(_, es) => if !Hashable(x) then Err(TypeError) else Ok(Bool(x in Keys(es))))
    case GetItem(key) =>
      (match m
       case Items(k, xs) =>
         if k.Set? || !key.Int? then Err(TypeError)
         else (match NormIndex(key.i, |xs|) case Some(j) => Ok(xs[j]) case None => Err(IndexError))
       case Mapping(k, es) =>
         if !Hashable(key) then Err(TypeError)
         else (match KeyIndex(es, key)
               case Some(j) => Ok(es[j].val)
               case None => if k.DefaultDict? && k.factory.Some? then Ok(k.factory.value) else Err(KeyError)))
    case Get(key, d) =>
      (match m
       case Items(_, _) => Err(AttributeError)
       case Mapping(_, es) =>
         if !Hashable(key) then Err(TypeError)
         else (match KeyIndex(es, key) case Some(j) => Ok(es[j].val) case None => Ok(d)))
    case Count(x) =>
      if m.Items? && !m.kind.Set? then Ok(Int(CountOf(m.items, x))) else Err(AttributeError)
    case Index(x, start, stop) =>
      if !m.Items? || m.kind.Set? then Err(AttributeError)
      else
        var n := |m.items|;
        var lo, hi := Clamp(start, n), Clamp(stop, n);
        if lo >= hi then Err(ValueError)
        else (match FindFrom(m.items, x, lo, hi) case Some(j) => Ok(Int(j)) case None => Err(ValueError))
    case KeysView => if m.Mapping? then Ok(Tuple(Keys(m.entries))) else Err(AttributeError)
    case ValuesView => if m.Mapping? then Ok(Tuple(ValuesOf(m.entries))) else Err(AttributeError)
    case ItemsView =>
      if m.Mapping? then Ok(Tuple(seq(|m.entries|, i requires 0 <= i < |m.entries| =>
                                        Tuple([m.entries[i].key, m.entries[i].val]))))
      else Err(AttributeError)
    case Equals(other) => Ok(Bool(other.Inline? && MirrorEq(m, other.m)))
    case Difference(others) =>
      SetQuery(m, others, (xs, yss) => MinusAll(xs, yss))
    case Intersection(others) =>
      SetQuery(m, others, (xs, yss) => KeepAll(xs, yss))
    case Union(others) =>
      SetQuery(m, others, (xs, yss) => UnionAll(xs, yss))
    case SymmetricDifference(other) =>
      SetQuery(m, [other], (xs, yss: seq<seq<Value>>) =>
        if |yss| == 1 then AddAll(Minus(xs, yss[0]), Minus(yss[0], xs)) else xs)
    case IsDisjoint(other) =>
      SetTest(m, other, (xs, ys: seq<Value>) => forall i :: 0 <= i < |ys| ==> ys[i] !in xs)
    case IsSubset(other) =>
      SetTest(m, other, (xs: seq<Value>, ys) => forall i :: 0 <= i < |xs| ==> xs[i] in ys)
    case IsSuperset(other) =>
      SetTest(m, other, (xs, ys: seq<Value>) => forall i :: 0 <= i < |ys| ==> ys[i] in xs)
  }

  /**
   * `self.data[key]` as Python evaluates it on the local mirror: a missing key of a
   * defaultdict goes through `__missing__`, which stores the factory's value in the
   * mirror before answering it. The answer is the one `Eval` gives; the new mirror is
   * the first component.
   */
  function GetItemAsWritten(m: Mirror, key: Value): (r: (Mirror, Result<Value>))
    ensures r.1 == Eval(m, GetItem(key))
    ensures r.0 != m <==>
      m.Mapping? && m.kind.DefaultDict? && m.kind.factory.Some? && Hashable(key) && key !in Keys(m.entries)
    ensures r.0 != m ==> r.0 == Mapping(m.kind, m.entries + [Entry(key, m.kind.factory.value)])
  {
    if m.Mapping? && m.kind.DefaultDict? && m.kind.factory.Some? && Hashable(key) && KeyIndex(m.entries, key).None? then
      var r := Mapping(m.kind, m.entries + [Entry(key, m.kind.factory.value)]);
      assert |r.entries| != |m.entries|;
      (r, Ok(m.kind.factory.value))
    else (m, Eval(m, GetItem(key)))
  }

  /** A set query that builds a new set from the mirror and the iterated arguments. */
  function SetQuery(m: Mirror, others: seq<Value>, f: (seq<Value>, seq<seq<Value>>) -> seq<Value>): Result<Value> {
    if !(m.Items? && m.kind.Set?) then Err(AttributeError)
    else
      match AllElements(others)
      case Some(yss) => if AllHashableIn(yss) then Ok(Inline(Items(Set, f(m.items, yss)))) else Err(TypeError)
      case None => Err(TypeError)
  }

  /** A set query that answers a yes/no question about the mirror and one iterable. */
  function SetTest(m: Mirror, other: Value, p: (seq<Value>, seq<Value>) -> bool): Result<Value> {
    if !(m.Items? && m.kind.Set?) then Err(AttributeError)
    else
      match Elements(other)
      case Some(ys) => if AllHashable(ys) then Ok(Bool(p(m.items, ys))) else Err(TypeError)
      case None => Err(TypeError)
  }
}
