/**
 * The value codec. The original serialises with pickle; the model uses a concrete
 * self-delimiting byte encoding with the one property the protocol relies on:
 * decoding an encoding gives the value back and consumes exactly its bytes.
 */
module Codec {
  import opened Basics
  import opened Values
  import opened Containers

  // ---------------------------------------------------------------- natural numbers and integers

  /** Base-128 varint: low seven bits first, high bit set on every byte but the last. */
  function EncNat(n: nat): (r: seq<byte>)
    ensures |r| > 0
    decreases n
  {
    if n < 128 then [n] else [128 + n % 128] + EncNat(n / 128)
  }

  function DecNat(s: seq<byte>): (r: Option<(nat, seq<byte>)>)
    ensures r.Some? ==> |r.value.1| < |s|
    decreases |s|
  {
    if |s| == 0 then None
    else if s[0] < 128 then Some((s[0] as nat, s[1..]))
    else
      match DecNat(s[1..])
      case None => None
      case Some((q, rest)) => Some(((s[0] - 128) as nat + 128 * q, rest))
  }

  lemma {:induction false} NatRoundTrip(n: nat, rest: seq<byte>)
    ensures DecNat(EncNat(n) + rest) == Some((n, rest))
    decreases n
  {
    if n >= 128 {
      NatRoundTrip(n / 128, rest);
      assert (EncNat(n) + rest)[1..] == EncNat(n / 128) + rest;
    } else {
      assert (EncNat(n) + rest)[1..] == rest;
    }
  }

  function EncInt(i: int): (r: seq<byte>)
    ensures |r| > 0
  {
    if i >= 0 then [0] + EncNat(i) else [1] + EncNat(-i - 1)
  }

  function DecInt(s: seq<byte>): (r: Option<(int, seq<byte>)>)
    ensures r.Some? ==> |r.value.1| < |s|
  {
    if |s| == 0 || s[0] > 1 then None
    else
      match DecNat(s[1..])
      case None => None
      case Some((n, rest)) => Some((if s[0] == 0 then n else -(n as int) - 1, rest))
  }

  lemma {:induction false} IntRoundTrip(i: int, rest: seq<byte>)
    ensures DecInt(EncInt(i) + rest) == Some((i, rest))
  {
    var n: nat := if i >= 0 then i else -i - 1;
    var s := EncInt(i) + rest;
    assert s == [if i >= 0 then 0 else 1] + (EncNat(n) + rest);
    NatRoundTrip(n, rest);
    assert DecNat(s[1..]) == Some((n, rest));
  }

  /** A byte string: its length, then its bytes. */
  function EncBytes(b: seq<byte>): (r: seq<byte>)
    ensures |r| > |b|
  {
    EncNat(|b|) + b
  }

  function DecBytes(s: seq<byte>): (r: Option<(seq<byte>, seq<byte>)>)
    ensures r.Some? ==> |r.value.1| < |s|
  {
    match DecNat(s)
    case None => None
    case Some((n, rest)) => if n <= |rest| then Some((rest[..n], rest[n..])) else None
  }

  lemma {:induction false} BytesRoundTrip(b: seq<byte>, rest: seq<byte>)
    ensures DecBytes(EncBytes(b) + rest) == Some((b, rest))
  {
    NatRoundTrip(|b|, b + rest);
    assert EncBytes(b) + rest == EncNat(|b|) + (b + rest);
    assert (b + rest)[..|b|] == b && (b + rest)[|b|..] == rest;
  }

  function EncBool(b: bool): seq<byte> {
    if b then [1] else [0]
  }

  function DecBool(s: seq<byte>): (r: Option<(bool, seq<byte>)>)
    ensures r.Some? ==> |r.value.1| < |s|
  {
    if |s| == 0 || s[0] > 1 then None else Some((s[0] == 1, s[1..]))
  }

  lemma {:induction false} BoolRoundTrip(b: bool, rest: seq<byte>)
    ensures DecBool(EncBool(b) + rest) == Some((b, rest))
  {
    assert (EncBool(b) + rest)[1..] == rest;
  }

  // ---------------------------------------------------------------- values and mirrors

  function EncValue(v: Value): (r: seq<byte>)
    ensures |r| > 0
    decreases v
  {
    match v
    case Nil => [0]
    case Bool(b) => [1] + EncBool(b)
    case Int(i) => [2] + EncInt(i)
    case Str(s) => [3] + EncBytes(s)
    case Handle(n) => [4] + EncBytes(n)
    case Tuple(es) => [5] + EncValues(es)
    case Inline(m) => [6] + EncMirror(m)
  }

  /** A sequence of values, each preceded by a continuation byte 1, closed by 0. */
  function EncValues(vs: seq<Value>): (r: seq<byte>)
    ensures |r| > 0
    decreases vs
  {
    if vs == [] then [0] else [1] + EncValue(vs[0]) + EncValues(vs[1..])
  }

  function EncEntry(e: Entry): seq<byte>
    decreases e
  {
    EncValue(e.key) + EncValue(e.val)
  }

  function EncEntries(es: seq<Entry>): (r: seq<byte>)
    ensures |r| > 0
    decreases es
  {
    if es == [] then [0] else [1] + EncEntry(es[0]) + EncEntries(es[1..])
  }

  function EncMaxLen(ml: Option<nat>): seq<byte> {
    if ml.None? then [0] else [1] + EncNat(ml.value)
  }

  function EncFactory(f: Option<Value>): seq<byte>
    decreases f
  {
    if f.None? then [0] else [1] + EncValue(f.value)
  }

  /** The kind descriptor: what `partial(deque, (), maxlen)` and friends capture. */
  function EncKind(k: Kind): (r: seq<byte>)
    ensures |r| > 0
    decreases k
  {
    match k
    case List => [0]
    case Deque(ml) => [1] + EncMaxLen(ml)
    case Set => [2]
    case Dict => [3]
    case DefaultDict(f) => [4] + EncFactory(f)
    case OrderedDict => [5]
  }

  function EncMirror(m: Mirror): (r: seq<byte>)
    ensures |r| > 0
    decreases m
  {
    match m
    case Items(k, xs) => [0] + EncKind(k) + EncValues(xs)
    case Mapping(k, es) => [1] + EncKind(k) + EncEntries(es)
  }

  function DecValue(s: seq<byte>): (r: Option<(Value, seq<byte>)>)
    ensures r.Some? ==> |r.value.1| < |s|
    decreases |s|, 1
  {
    if |s| == 0 then None
    else
      var t := s[1..];
      if s[0] == 0 then Some((Nil, t))
      else if s[0] == 1 then (match DecBool(t) case Some((b, r)) => Some((Bool(b), r)) case None => None)
      else if s[0] == 2 then (match DecInt(t) case Some((i, r)) => Some((Int(i), r)) case None => None)
      else if s[0] == 3 then (match DecBytes(t) case Some((b, r)) => Some((Str(b), r)) case None => None)
      else if s[0] == 4 then (match DecBytes(t) case Some((b, r)) => Some((Handle(b), r)) case None => None)
      else if s[0] == 5 then (match DecValues(t) case Some((vs, r)) => Some((Tuple(vs), r)) case None => None)
      else if s[0] == 6 then (match DecMirror(t) case Some((m, r)) => Some((Inline(m), r)) case None => None)
      else None
  }

  function DecValues(s: seq<byte>): (r: Option<(seq<Value>, seq<byte>)>)
    ensures r.Some? ==> |r.value.1| < |s|
    decreases |s|, 0
  {
    if |s| == 0 || s[0] > 1 then None
    else if s[0] == 0 then Some(([], s[1..]))
    else
      match DecValue(s[1..])
      case None => None
      case Some((v, r1)) =>
        match DecValues(r1)
        case None => None
        case Some((vs, r2)) => Some(([v] + vs, r2))
  }

  function DecEntries(s: seq<byte>): (r: Option<(seq<Entry>, seq<byte>)>)
    ensures r.Some? ==> |r.value.1| < |s|
    decreases |s|, 0
  {
    if |s| == 0 || s[0] > 1 then None
    else if s[0] == 0 then Some(([], s[1..]))
    else
      match DecValue(s[1..])
      case None => None
      case Some((key, r1)) =>
        match DecValue(r1)
        case None => None
        case Some((val, r2)) =>
          match DecEntries(r2)
          case None => None
          case Some((es, r3)) => Some(([Entry(key, val)] + es, r3))
  }

  function DecKind(s: seq<byte>): (r: Option<(Kind, seq<byte>)>)
    ensures r.Some? ==> |r.value.1| < |s|
    decreases |s|, 0
  {
    if |s| == 0 then None
    else
      var t := s[1..];
      if s[0] == 0 then Some((List, t))
      else if s[0] == 1 then
        (if |t| == 0 || t[0] > 1 then None
         else if t[0] == 0 then Some((Deque(None), t[1..]))
         else match DecNat(t[1..]) case Some((n, r)) => Some((Deque(Some(n)), r)) case None => None)
      else if s[0] == 2 then Some((Set, t))
      else if s[0] == 3 then Some((Dict, t))
      else if s[0] == 4 then
        (if |t| == 0 || t[0] > 1 then None
         else if t[0] == 0 then Some((DefaultDict(None), t[1..]))
         else match DecValue(t[1..]) case Some((v, r)) => Some((DefaultDict(Some(v)), r)) case None => None)
      else if s[0] == 5 then Some((OrderedDict, t))
      else None
  }

  function DecMirror(s: seq<byte>): (r: Option<(Mirror, seq<byte>)>)
    ensures r.Some? ==> |r.value.1| < |s|
    decreases |s|, 0
  {
    if |s| == 0 || s[0] > 1 then None
    else
      match DecKind(s[1..])
      case None => None
      case Some((k, r1)) =>
        if s[0] == 0 then
          (match DecValues(r1) case Some((xs, r2)) => Some((Items(k, xs), r2)) case None => None)
        else
          (match DecEntries(r1) case Some((es, r2)) => Some((Mapping(k, es), r2)) case None => None)
  }

  lemma {:induction false} ValueRoundTrip(v: Value, rest: seq<byte>)
    ensures DecValue(EncValue(v) + rest) == Some((v, rest))
    decreases v
  {
    match v
    case Tuple(es) =>
      ValuesRoundTrip(es, rest);
      TupleStep(es, rest);
    case Inline(m) =>
      MirrorRoundTrip(m, rest);
      InlineStep(m, rest);
    case _ =>
      AtomRoundTrip(v, rest);
  }

  // The value tags: each value is read as its tag, then what follows it.

  /** The values that hold no other value. */
  lemma {:induction false} AtomRoundTrip(v: Value, rest: seq<byte>)
    requires !v.Tuple? && !v.Inline?
    ensures DecValue(EncValue(v) + rest) == Some((v, rest))
  {
    match v
    case Nil => NilRoundTrip(rest);
    case Bool(b) => BoolValueRoundTrip(b, rest);
    case Int(i) => IntValueRoundTrip(i, rest);
    case Str(b) => StrRoundTrip(b, rest);
    case Handle(b) => HandleRoundTrip(b, rest);
  }

  lemma {:induction false} NilRoundTrip(rest: seq<byte>)
    ensures DecValue(EncValue(Nil) + rest) == Some((Nil, rest))
  {
    assert (EncValue(Nil) + rest)[1..] == rest;
  }

  lemma {:induction false} BoolValueRoundTrip(b: bool, rest: seq<byte>)
    ensures DecValue(EncValue(Bool(b)) + rest) == Some((Bool(b), rest))
  {
    assert (EncValue(Bool(b)) + rest)[1..] == EncBool(b) + rest;
    BoolRoundTrip(b, rest);
  }

  lemma {:induction false} IntValueRoundTrip(i: int, rest: seq<byte>)
    ensures DecValue(EncValue(Int(i)) + rest) == Some((Int(i), rest))
  {
    assert (EncValue(Int(i)) + rest)[1..] == EncInt(i) + rest;
    IntRoundTrip(i, rest);
  }

  lemma {:induction false} StrRoundTrip(b: seq<byte>, rest: seq<byte>)
    ensures DecValue(EncValue(Str(b)) + rest) == Some((Str(b), rest))
  {
    assert (EncValue(Str(b)) + rest)[1..] == EncBytes(b) + rest;
    BytesRoundTrip(b, rest);
  }

  lemma {:induction false} HandleRoundTrip(b: seq<byte>, rest: seq<byte>)
    ensures DecValue(EncValue(Handle(b)) + rest) == Some((Handle(b), rest))
  {
    assert (EncValue(Handle(b)) + rest)[1..] == EncBytes(b) + rest;
    BytesRoundTrip(b, rest);
  }

  lemma {:induction false} TupleStep(es: seq<Value>, rest: seq<byte>)
    requires DecValues(EncValues(es) + rest) == Some((es, rest))
    ensures DecValue(EncValue(Tuple(es)) + rest) == Some((Tuple(es), rest))
  {
    TupleLayout(es, rest);
  }

  lemma {:induction false} TupleLayout(es: seq<Value>, rest: seq<byte>)
    ensures (EncValue(Tuple(es)) + rest)[0] == 5
    ensures (EncValue(Tuple(es)) + rest)[1..] == EncValues(es) + rest
  {
    assert EncValue(Tuple(es)) == [5] + EncValues(es);
    TagLayout(5, EncValues(es), rest);
  }

  lemma {:induction false} InlineStep(m: Mirror, rest: seq<byte>)
    requires DecMirror(EncMirror(m) + rest) == Some((m, rest))
    ensures DecValue(EncValue(Inline(m)) + rest) == Some((Inline(m), rest))
  {
    InlineLayout(m, rest);
  }

  lemma {:induction false} InlineLayout(m: Mirror, rest: seq<byte>)
    ensures (EncValue(Inline(m)) + rest)[0] == 6
    ensures (EncValue(Inline(m)) + rest)[1..] == EncMirror(m) + rest
  {
    assert EncValue(Inline(m)) == [6] + EncMirror(m);
    TagLayout(6, EncMirror(m), rest);
  }

  lemma {:induction false} ValuesRoundTrip(vs: seq<Value>, rest: seq<byte>)
    ensures DecValues(EncValues(vs) + rest) == Some((vs, rest))
    decreases vs
  {
    var s := EncValues(vs) + rest;
    if vs == [] {
      assert s == [0] + rest;
    } else {
      var tail := EncValues(vs[1..]) + rest;
      assert s == [1] + (EncValue(vs[0]) + tail);
      ValueRoundTrip(vs[0], tail);
      ValuesRoundTrip(vs[1..], rest);
      ValuesCons([1] + (EncValue(vs[0]) + tail), vs[0], tail, vs[1..], rest);
      assert [vs[0]] + vs[1..] == vs;
    }
  }

  lemma {:induction false} ValuesCons(s: seq<byte>, v: Value, r1: seq<byte>, vs: seq<Value>, r2: seq<byte>)
    requires |s| > 0 && s[0] == 1
    requires DecValue(s[1..]) == Some((v, r1)) && DecValues(r1) == Some((vs, r2))
    ensures DecValues(s) == Some(([v] + vs, r2))
  {
  }

  lemma {:induction false} EntriesRoundTrip(es: seq<Entry>, rest: seq<byte>)
    ensures DecEntries(EncEntries(es) + rest) == Some((es, rest))
    decreases es
  {
    var s := EncEntries(es) + rest;
    if es == [] {
      assert s == [0] + rest;
    } else {
      var e := es[0];
      var tail := EncEntries(es[1..]) + rest;
      assert s == [1] + (EncEntry(e) + tail);
      EntryRoundTrip(e, tail);
      EntriesRoundTrip(es[1..], rest);
      EntriesCons(s, e, EncValue(e.val) + tail, tail, es[1..], rest);
      assert [e] + es[1..] == es;
    }
  }

  lemma {:induction false} EntriesCons(s: seq<byte>, e: Entry, r1: seq<byte>, r2: seq<byte>, es: seq<Entry>, r3: seq<byte>)
    requires |s| > 0 && s[0] == 1
    requires DecValue(s[1..]) == Some((e.key, r1)) && DecValue(r1) == Some((e.val, r2))
    requires DecEntries(r2) == Some((es, r3))
    ensures DecEntries(s) == Some(([e] + es, r3))
  {
  }

  lemma {:induction false} EntryRoundTrip(e: Entry, rest: seq<byte>)
    ensures EncEntry(e) + rest == EncValue(e.key) + (EncValue(e.val) + rest)
    ensures DecValue(EncEntry(e) + rest) == Some((e.key, EncValue(e.val) + rest))
    ensures DecValue(EncValue(e.val) + rest) == Some((e.val, rest))
    decreases e
  {
    ValueRoundTrip(e.key, EncValue(e.val) + rest);
    ValueRoundTrip(e.val, rest);
  }

  lemma {:induction false} KindRoundTrip(k: Kind, rest: seq<byte>)
    ensures DecKind(EncKind(k) + rest) == Some((k, rest))
    decreases k
  {
    var s := EncKind(k) + rest;
    match k
    case Deque(ml) =>
      assert s == [1] + (EncMaxLen(ml) + rest);
      MaxLenRoundTrip(s, ml, rest);
    case DefaultDict(f) =>
      assert s == [4] + (EncFactory(f) + rest);
      FactoryRoundTrip(s, f, rest);
    case _ =>
      assert s[1..] == rest;
  }

  lemma {:induction false} MaxLenRoundTrip(s: seq<byte>, ml: Option<nat>, rest: seq<byte>)
    requires s == [1] + (EncMaxLen(ml) + rest)
    ensures DecKind(s) == Some((Deque(ml), rest))
  {
    var t := s[1..];
    if ml.Some? {
      assert t == [1] + (EncNat(ml.value) + rest);
      NatRoundTrip(ml.value, rest);
      assert DecNat(t[1..]) == Some((ml.value, rest));
    } else {
      assert t == [0] + rest;
    }
  }

  lemma {:induction false} FactoryRoundTrip(s: seq<byte>, f: Option<Value>, rest: seq<byte>)
    requires s == [4] + (EncFactory(f) + rest)
    ensures DecKind(s) == Some((DefaultDict(f), rest))
    decreases f
  {
    var t := s[1..];
    if f.Some? {
      assert t == [1] + (EncValue(f.value) + rest);
      ValueRoundTrip(f.value, rest);
      assert DecValue(t[1..]) == Some((f.value, rest));
    } else {
      assert t == [0] + rest;
    }
  }

  lemma {:induction false} MirrorRoundTrip(m: Mirror, rest: seq<byte>)
    ensures DecMirror(EncMirror(m) + rest) == Some((m, rest))
    decreases m
  {
    match m
    case Items(k, xs) =>
      KindRoundTrip(k, EncValues(xs) + rest);
      ValuesRoundTrip(xs, rest);
      ItemsStep(k, xs, rest);
    case Mapping(k, es) =>
      KindRoundTrip(k, EncEntries(es) + rest);
      EntriesRoundTrip(es, rest);
      MappingStep(k, es, rest);
  }

  /** A sequence-like container is read as its tag, its kind, then its elements. */
  lemma {:induction false} ItemsStep(k: Kind, xs: seq<Value>, rest: seq<byte>)
    requires DecKind(EncKind(k) + (EncValues(xs) + rest)) == Some((k, EncValues(xs) + rest))
    requires DecValues(EncValues(xs) + rest) == Some((xs, rest))
    ensures DecMirror(EncMirror(Items(k, xs)) + rest) == Some((Items(k, xs), rest))
  {
    ItemsLayout(k, xs, rest);
  }

  lemma {:induction false} ItemsLayout(k: Kind, xs: seq<Value>, rest: seq<byte>)
    ensures (EncMirror(Items(k, xs)) + rest)[0] == 0
    ensures (EncMirror(Items(k, xs)) + rest)[1..] == EncKind(k) + (EncValues(xs) + rest)
  {
    assert EncMirror(Items(k, xs)) == [0] + EncKind(k) + EncValues(xs);
    TagLayout2(0, EncKind(k), EncValues(xs), rest);
  }

  /** A mapping is read as its tag, its kind, then its entries. */
  lemma {:induction false} MappingStep(k: Kind, es: seq<Entry>, rest: seq<byte>)
    requires DecKind(EncKind(k) + (EncEntries(es) + rest)) == Some((k, EncEntries(es) + rest))
    requires DecEntries(EncEntries(es) + rest) == Some((es, rest))
    ensures DecMirror(EncMirror(Mapping(k, es)) + rest) == Some((Mapping(k, es), rest))
  {
    MappingLayout(k, es, rest);
  }

  lemma {:induction false} MappingLayout(k: Kind, es: seq<Entry>, rest: seq<byte>)
    ensures (EncMirror(Mapping(k, es)) + rest)[0] == 1
    ensures (EncMirror(Mapping(k, es)) + rest)[1..] == EncKind(k) + (EncEntries(es) + rest)
  {
    assert EncMirror(Mapping(k, es)) == [1] + EncKind(k) + EncEntries(es);
    TagLayout2(1, EncKind(k), EncEntries(es), rest);
  }

  /** A tagged encoding followed by more bytes starts with the tag, then the body and the rest. */
  lemma {:induction false} TagLayout(t: byte, body: seq<byte>, rest: seq<byte>)
    ensures (([t] + body) + rest)[0] == t
    ensures (([t] + body) + rest)[1..] == body + rest
  {
    assert ([t] + body) + rest == [t] + (body + rest);
  }

  /** The same for a body in two parts. */
  lemma {:induction false} TagLayout2(t: byte, b1: seq<byte>, b2: seq<byte>, rest: seq<byte>)
    ensures ([t] + b1 + b2 + rest)[0] == t
    ensures ([t] + b1 + b2 + rest)[1..] == b1 + (b2 + rest)
  {
    assert [t] + b1 + b2 + rest == [t] + (b1 + (b2 + rest));
  }

  // ---------------------------------------------------------------- operation records

  /** The method name of a record, as a one-byte tag. */
  function OpTag(op: Op): (t: byte)
    ensures t < 20
  {
    match op
    case Append(_) => 0
    case AppendLeft(_) => 1
    case Insert(_, _) => 2
    case SetItem(_, _) => 3
    case SetDefault(_, _) => 4
    case Remove(_) => 5
    case Add(_) => 6
    case Discard(_) => 7
    case DelItem(_) => 8
    case Pop(_) => 9
    case PopLeft => 10
    case PopItem(_) => 11
    case Clear => 12
    case Reverse => 13
    case Sort(_) => 14
    case Rotate(_) => 15
    case MoveToEnd(_, _) => 16
    case DifferenceUpdate(_) => 17
    case IntersectionUpdate(_) => 18
    case SymmetricDifferenceUpdate(_) => 19
  }

  /** The positional arguments the mutation was called with, as the record stores them. */
  function OpArgs(op: Op): seq<Value> {
    match op
    case Append(x) => [x]
    case AppendLeft(x) => [x]
    case Insert(i, x) => [Int(i), x]
    case SetItem(k, x) => [k, x]
    case SetDefault(k, d) => if d.Some? then [k, d.value] else [k]
    case Remove(x) => [x]
    case Add(x) => [x]
    case Discard(x) => [x]
    case DelItem(k) => [k]
    case Pop(xs) => xs
    case PopLeft => []
    case PopItem(xs) => xs
    case Clear => []
    case Reverse => []
    case Sort(d) => [Nil, Bool(d)]
    case Rotate(n) => [Int(n)]
    case MoveToEnd(k, l) => [k, Bool(l)]
    case DifferenceUpdate(xs) => xs
    case IntersectionUpdate(xs) => xs
    case SymmetricDifferenceUpdate(x) => [x]
  }

  /**
   * The replaying side: the method named by the tag called with the stored arguments.
   * None when no mutation of that name accepts those arguments.
   */
  function MakeOp(t: byte, args: seq<Value>): Option<Op> {
    var n := |args|;
    if t == 0 && n == 1 then Some(Append(args[0]))
    else if t == 1 && n == 1 then Some(AppendLeft(args[0]))
    else if t == 2 && n == 2 && args[0].Int? then Some(Insert(args[0].i, args[1]))
    else if t == 3 && n == 2 then Some(SetItem(args[0], args[1]))
    else if t == 4 && n == 1 then Some(SetDefault(args[0], None))
    else if t == 4 && n == 2 then Some(SetDefault(args[0], Some(args[1])))
    else if t == 5 && n == 1 then Some(Remove(args[0]))
    else if t == 6 && n == 1 then Some(Add(args[0]))
    else if t == 7 && n == 1 then Some(Discard(args[0]))
    else if t == 8 && n == 1 then Some(DelItem(args[0]))
    else if t == 9 then Some(Pop(args))
    else if t == 10 && n == 0 then Some(PopLeft)
    else if t == 11 then Some(PopItem(args))
    else if t == 12 && n == 0 then Some(Clear)
    else if t == 13 && n == 0 then Some(Reverse)
    else if t == 14 && n == 2 && args[0].Nil? && args[1].Bool? then Some(Sort(args[1].b))
    else if t == 15 && n == 1 && args[0].Int? then Some(Rotate(args[0].i))
    else if t == 16 && n == 2 && args[1].Bool? then Some(MoveToEnd(args[0], args[1].b))
    else if t == 17 then Some(DifferenceUpdate(args))
    else if t == 18 then Some(IntersectionUpdate(args))
    else if t == 19 && n == 1 then Some(SymmetricDifferenceUpdate(args[0]))
    else None
  }

  /** Replaying the stored call rebuilds exactly the mutation that was logged. */
  lemma {:induction false} MakeOpArgs(op: Op)
    ensures MakeOp(OpTag(op), OpArgs(op)) == Some(op)
  {
  }

  /** `pickle.dumps((func_name, args, kwargs))` for one mutation: its tag, then its arguments. */
  function EncOp(op: Op): (r: seq<byte>)
    ensures |r| > 0
  {
    [OpTag(op)] + EncValues(OpArgs(op))
  }

  function DecOp(s: seq<byte>): Option<(Op, seq<byte>)> {
    if |s| == 0 then None
    else
      match DecValues(s[1..])
      case None => None
      case Some((args, r)) =>
        match MakeOp(s[0], args)
        case None => None
        case Some(op) => Some((op, r))
  }

  lemma {:induction false} OpRoundTrip(op: Op, rest: seq<byte>)
    ensures DecOp(EncOp(op) + rest) == Some((op, rest))
  {
    ValuesRoundTrip(OpArgs(op), rest);
    MakeOpArgs(op);
    OpStep(OpTag(op), OpArgs(op), rest, op);
  }

  /** A record is read as its tag, then its arguments, then rebuilt from both. */
  lemma {:induction false} OpStep(t: byte, args: seq<Value>, rest: seq<byte>, op: Op)
    requires DecValues(EncValues(args) + rest) == Some((args, rest))
    requires MakeOp(t, args) == Some(op)
    ensures DecOp([t] + EncValues(args) + rest) == Some((op, rest))
  {
    TagLayout(t, EncValues(args), rest);
  }

  // ---------------------------------------------------------------- whole payloads

  /** `pickle.loads`: reads one object from the front and ignores trailing bytes. */
  function DecodeOp(s: seq<byte>): Option<Op> {
    match DecOp(s) case Some((op, _)) => Some(op) case None => None
  }

  function DecodeMirror(s: seq<byte>): Option<Mirror> {
    match DecMirror(s) case Some((m, _)) => Some(m) case None => None
  }

  function DecodeKind(s: seq<byte>): Option<Kind> {
    match DecKind(s) case Some((k, _)) => Some(k) case None => None
  }

  /** A logged record decodes to the operation that was encoded. */
  lemma {:induction false} DecodeEncodeOp(op: Op)
    ensures DecodeOp(EncOp(op)) == Some(op)
  {
    OpRoundTrip(op, []);
    assert EncOp(op) + [] == EncOp(op);
  }

  /** A snapshot payload decodes to the mirror that was encoded. */
  lemma {:induction false} DecodeEncodeMirror(m: Mirror)
    ensures DecodeMirror(EncMirror(m)) == Some(m)
  {
    MirrorRoundTrip(m, []);
    assert EncMirror(m) + [] == EncMirror(m);
  }

  /** A kind descriptor decodes to the kind that was encoded. */
  lemma {:induction false} DecodeEncodeKind(k: Kind)
    ensures DecodeKind(EncKind(k)) == Some(k)
  {
    KindRoundTrip(k, []);
    assert EncKind(k) + [] == EncKind(k);
  }
}
