/**
 * The control block: a fixed-layout segment that every handle of a shared container
 * reads and the writing handle updates in place.
 *
 *   [0, 4)      published stream position (4-byte little-endian)
 *   [4, 8)      snapshot counter (4-byte little-endian)
 *   [8, 10)     nested flag, byte 8 is '1' when the container is nested
 *   [10, 265)   snapshot segment name, space-padded to 255 bytes
 *   [265, 1000) kind descriptor: 4-byte little-endian length, then the encoded kind
 */
module ControlBlock {
  import opened Basics
  import opened LittleEndian
  import opened Values
  import Codec

  const POS_AT: nat := 0
  const COUNTER_AT: nat := 4
  const FLAG_AT: nat := 8
  const NAME_AT: nat := 10
  const NAME_LEN: nat := 255
  const DESC_AT: nat := 265
  /** The descriptor view ends at byte 1000 whatever the size of the control segment. */
  const DESC_END: nat := 1000
  const DEFAULT_CONTROL_SIZE: nat := 1000
  /** `b'1'`, the byte that marks a nested container. */
  const NESTED_MARK: byte := 0x31
  const SPACE: byte := 0x20

  /** A control segment large enough to hold every fixed field and the descriptor length. */
  predicate Sized(ctrl: seq<byte>) {
    |ctrl| >= DESC_AT + 4
  }

  // ---------------------------------------------------------------- counters

  function RPos(ctrl: seq<byte>): (n: nat)
    requires Sized(ctrl)
    ensures n < U32_LIMIT
  {
    FromLe4(ctrl[POS_AT..POS_AT + 4])
  }

  function RCount(ctrl: seq<byte>): (n: nat)
    requires Sized(ctrl)
    ensures n < U32_LIMIT
  {
    FromLe4(ctrl[COUNTER_AT..COUNTER_AT + 4])
  }

  function SetRPos(ctrl: seq<byte>, n: nat): (r: seq<byte>)
    requires Sized(ctrl) && n < U32_LIMIT
    ensures Sized(r) && |r| == |ctrl|
  {
    Splice(ctrl, POS_AT, Le4(n))
  }

  function SetRCount(ctrl: seq<byte>, n: nat): (r: seq<byte>)
    requires Sized(ctrl) && n < U32_LIMIT
    ensures Sized(r) && |r| == |ctrl|
  {
    Splice(ctrl, COUNTER_AT, Le4(n))
  }

  // ---------------------------------------------------------------- nested flag

  /** `is_nested_remote[:1] == b'1'`. */
  predicate NestedFlag(ctrl: seq<byte>)
    requires Sized(ctrl)
  {
    ctrl[FLAG_AT] == NESTED_MARK
  }

  function SetNestedFlag(ctrl: seq<byte>): (r: seq<byte>)
    requires Sized(ctrl)
    ensures Sized(r) && |r| == |ctrl|
  {
    Splice(ctrl, FLAG_AT, [NESTED_MARK])
  }

  /** A set never holds containers, so a set is never nested whatever was requested. */
  function EffectiveNested(k: Kind, requested: bool): (b: bool)
    ensures b ==> !k.Set?
    ensures !k.Set? ==> b == requested
  {
    if k.Set? then false else requested
  }

  /** The flag byte a creator leaves behind on a zeroed control segment. */
  function FlagOnCreate(ctrl: seq<byte>, k: Kind, requested: bool): (r: seq<byte>)
    requires Sized(ctrl)
    ensures Sized(r) && |r| == |ctrl|
  {
    if EffectiveNested(k, requested) then SetNestedFlag(ctrl) else ctrl
  }

  /** Create and attach agree on nesting: the flag read back is the effective request. */
  lemma {:induction false} NestedFlagAgrees(ctrl: seq<byte>, k: Kind, requested: bool)
    requires Sized(ctrl) && ctrl[FLAG_AT] == 0
    ensures NestedFlag(FlagOnCreate(ctrl, k, requested)) == EffectiveNested(k, requested)
    ensures k.Set? ==> !NestedFlag(FlagOnCreate(ctrl, k, requested))
  {
    if EffectiveNested(k, requested) {
      SpliceInside(ctrl, FLAG_AT, [NESTED_MARK], FLAG_AT, FLAG_AT + 1);
    }
  }

  // ---------------------------------------------------------------- snapshot name

  /** The characters `str.strip()` removes, restricted to single bytes. */
  predicate IsSpace(b: byte) {
    (0x09 <= b <= 0x0d) || (0x1c <= b <= 0x20)
  }

  predicate IsNul(b: byte) {
    b == 0
  }

  function TrimLeft(s: seq<byte>, p: byte -> bool): (r: seq<byte>)
    ensures |r| <= |s|
  {
    if |s| > 0 && p(s[0]) then TrimLeft(s[1..], p) else s
  }

  function TrimRight(s: seq<byte>, p: byte -> bool): (r: seq<byte>)
    ensures |r| <= |s|
  {
    if |s| > 0 && p(s[|s| - 1]) then TrimRight(s[..|s| - 1], p) else s
  }

  /** `s.decode().strip().strip('\x00')`. */
  function Strip(s: seq<byte>): seq<byte> {
    var t := TrimRight(TrimLeft(s, IsSpace), IsSpace);
    TrimRight(TrimLeft(t, IsNul), IsNul)
  }

  /** The names the protocol writes: printable, no spaces, at most 255 bytes. */
  predicate ValidName(n: seq<byte>) {
    0 < |n| <= NAME_LEN && forall i :: 0 <= i < |n| ==> 0x21 <= n[i] <= 0x7e
  }

  /** `name.encode().ljust(255)`. */
  function PadName(n: seq<byte>): (r: seq<byte>)
    requires |n| <= NAME_LEN
    ensures |r| == NAME_LEN && r[..|n|] == n
  {
    n + seq(NAME_LEN - |n|, _ => SPACE)
  }

  function SnapName(ctrl: seq<byte>): seq<byte>
    requires Sized(ctrl)
  {
    Strip(ctrl[NAME_AT..NAME_AT + NAME_LEN])
  }

  function SetSnapName(ctrl: seq<byte>, n: seq<byte>): (r: seq<byte>)
    requires Sized(ctrl) && |n| <= NAME_LEN
    ensures Sized(r) && |r| == |ctrl|
  {
    Splice(ctrl, NAME_AT, PadName(n))
  }

  lemma {:induction false} TrimRightPadding(n: seq<byte>, k: nat, p: byte -> bool)
    requires |n| > 0 && !p(n[|n| - 1]) && p(SPACE)
    ensures TrimRight(n + seq(k, _ => SPACE), p) == n
    decreases k
  {
    var s := n + seq(k, _ => SPACE);
    if k == 0 {
      assert s == n;
    } else {
      assert s[|s| - 1] == SPACE;
      assert s[..|s| - 1] == n + seq(k - 1, _ => SPACE);
      TrimRightPadding(n, k - 1, p);
    }
  }

  lemma {:induction false} TrimNoOp(s: seq<byte>, p: byte -> bool)
    requires |s| > 0 && !p(s[0]) && !p(s[|s| - 1])
    ensures TrimLeft(s, p) == s && TrimRight(s, p) == s
  {
  }

  /** A published snapshot name is recovered exactly from its padded field. */
  lemma {:induction false} StripPadName(n: seq<byte>)
    requires ValidName(n)
    ensures Strip(PadName(n)) == n
  {
    var padded := PadName(n);
    assert padded[0] == n[0] && !IsSpace(padded[0]);
    var t0 := TrimLeft(padded, IsSpace);
    assert t0 == padded;
    assert padded == n + seq(NAME_LEN - |n|, _ => SPACE);
    TrimRightPadding(n, NAME_LEN - |n|, IsSpace);
    var t1 := TrimRight(t0, IsSpace);
    assert t1 == n;
    assert !IsNul(n[0]) && !IsNul(n[|n| - 1]);
    TrimNoOp(n, IsNul);
  }

  lemma {:induction false} TrimLeftAll(s: seq<byte>, p: byte -> bool)
    requires forall i :: 0 <= i < |s| ==> p(s[i])
    ensures TrimLeft(s, p) == []
    decreases |s|
  {
    if |s| > 0 {
      TrimLeftAll(s[1..], p);
    }
  }

  /** A never-written (zeroed) name field reads as the empty name: no snapshot yet. */
  lemma {:induction false} StripZeros()
    ensures Strip(Zeros(NAME_LEN)) == []
  {
    var z := Zeros(NAME_LEN);
    TrimNoOp(z, IsSpace);
    TrimLeftAll(z, IsNul);
  }

  // ---------------------------------------------------------------- kind descriptor

  /** The end of the descriptor view: byte 1000, or the segment's end if that is sooner. */
  function DescEnd(controlSize: nat): (e: nat)
    ensures e <= controlSize && e <= DESC_END
  {
    if controlSize < DESC_END then controlSize else DESC_END
  }

  /** The guard as the source writes it: `265 + len(descriptor) > control size` raises. */
  predicate DescGuardAsWritten(controlSize: nat, len: nat) {
    DESC_AT + len <= controlSize
  }

  /** The descriptor fits: its length field and its bytes lie inside the descriptor view. */
  predicate DescFits(controlSize: nat, len: nat) {
    DESC_AT + 4 + len <= DescEnd(controlSize)
  }

  /**
   * The descriptor write as the source performs it: after the guard, two slice
   * assignments into the view `buf[265:1000]`; an assignment whose slice is shorter
   * than the bytes assigned raises ValueError.
   */
  function WriteDescriptorAsWritten(ctrl: seq<byte>, d: seq<byte>): (r: Result<seq<byte>>)
    ensures r.Err? ==> r.error == DescriptorTooLarge || r.error == ValueError
    ensures r.Err? && r.error == DescriptorTooLarge <==> !DescGuardAsWritten(|ctrl|, |d|)
  {
    if !DescGuardAsWritten(|ctrl|, |d|) then Err(DescriptorTooLarge)
    else if !DescFits(|ctrl|, |d|) then Err(ValueError)
    else Ok(Splice(Splice(ctrl, DESC_AT, Le4(|d|)), DESC_AT + 4, d))
  }

  /** The guard lets a one-byte descriptor through on a 266-byte control segment, which then fails. */
  lemma {:induction false} DescGuardTooWeak()
    ensures DescGuardAsWritten(266, |Codec.EncKind(List)|)
    ensures WriteDescriptorAsWritten(Zeros(266), Codec.EncKind(List)) == Err(ValueError)
  {
    assert Codec.EncKind(List) == [0];
  }

  /** A guard that passes implies the as-written one passes; the corrected one only rejects more. */
  lemma {:induction false} DescFitsStricter(controlSize: nat, len: nat)
    ensures DescFits(controlSize, len) ==> DescGuardAsWritten(controlSize, len)
    ensures DescGuardAsWritten(controlSize, len) && controlSize <= DESC_END && len + 4 + DESC_AT > controlSize
            ==> !DescFits(controlSize, len)
  {
  }

  /** The corrected write: reject exactly the descriptors that do not fit the view. */
  function WriteDescriptor(ctrl: seq<byte>, d: seq<byte>): (r: Result<seq<byte>>)
    ensures r.Ok? <==> DescFits(|ctrl|, |d|)
    ensures r.Err? ==> r.error == DescriptorTooLarge
    ensures r.Ok? ==> |r.value| == |ctrl| && Sized(r.value)
    ensures r.Ok? ==> forall i :: 0 <= i < DESC_AT ==> r.value[i] == ctrl[i]
  {
    if !DescFits(|ctrl|, |d|) then Err(DescriptorTooLarge)
    else Ok(Splice(Splice(ctrl, DESC_AT, Le4(|d|)), DESC_AT + 4, d))
  }

  /** The descriptor bytes an attaching handle reads: the length field, then that many bytes. */
  function ReadDescriptorBytes(ctrl: seq<byte>): (d: seq<byte>)
    requires Sized(ctrl)
  {
    var view := ctrl[DESC_AT..DescEnd(|ctrl|)];
    var len := FromLe4(view[..4]);
    if 4 + len <= |view| then view[4..4 + len] else view[4..]
  }

  /** `pickle.loads` of the descriptor bytes. */
  function ReadDescriptor(ctrl: seq<byte>): Option<Kind>
    requires Sized(ctrl)
  {
    Codec.DecodeKind(ReadDescriptorBytes(ctrl))
  }

  /** What was written is what an attaching handle reads. */
  lemma {:induction false} DescriptorBytesRoundTrip(ctrl: seq<byte>, d: seq<byte>)
    requires WriteDescriptor(ctrl, d).Ok?
    ensures ReadDescriptorBytes(WriteDescriptor(ctrl, d).value) == d
  {
    var c1 := Splice(ctrl, DESC_AT, Le4(|d|));
    var c2 := Splice(c1, DESC_AT + 4, d);
    SpliceOutside(c1, DESC_AT + 4, d, DESC_AT, DESC_AT + 4);
    SpliceInside(ctrl, DESC_AT, Le4(|d|), DESC_AT, DESC_AT + 4);
    FromLe4Le4(|d|);
    SpliceInside(c1, DESC_AT + 4, d, DESC_AT + 4, DESC_AT + 4 + |d|);
    assert WriteDescriptor(ctrl, d).value == c2;
    SubSlice(c2, DESC_AT, DescEnd(|c2|), 0, 4);
    SubSlice(c2, DESC_AT, DescEnd(|c2|), 4, 4 + |d|);
  }

  /** The kind a creator writes is the kind an attaching handle reconstructs. */
  lemma {:induction false} DescriptorRoundTrip(ctrl: seq<byte>, k: Kind)
    requires DescFits(|ctrl|, |Codec.EncKind(k)|)
    ensures WriteDescriptor(ctrl, Codec.EncKind(k)).Ok?
    ensures ReadDescriptor(WriteDescriptor(ctrl, Codec.EncKind(k)).value) == Some(k)
  {
    DescriptorBytesRoundTrip(ctrl, Codec.EncKind(k));
    Codec.DecodeEncodeKind(k);
  }

  // ---------------------------------------------------------------- field independence

  // Each field reads the same after a write that misses it.

  lemma {:induction false} SpliceKeepsPos(ctrl: seq<byte>, at: nat, b: seq<byte>)
    requires Sized(ctrl) && at + |b| <= |ctrl| && POS_AT + 4 <= at
    ensures RPos(Splice(ctrl, at, b)) == RPos(ctrl)
  {
    SpliceOutside(ctrl, at, b, POS_AT, POS_AT + 4);
  }

  lemma {:induction false} SpliceKeepsCount(ctrl: seq<byte>, at: nat, b: seq<byte>)
    requires Sized(ctrl) && at + |b| <= |ctrl|
    requires at + |b| <= COUNTER_AT || COUNTER_AT + 4 <= at
    ensures RCount(Splice(ctrl, at, b)) == RCount(ctrl)
  {
    SpliceOutside(ctrl, at, b, COUNTER_AT, COUNTER_AT + 4);
  }

  lemma {:induction false} SpliceKeepsFlag(ctrl: seq<byte>, at: nat, b: seq<byte>)
    requires Sized(ctrl) && at + |b| <= |ctrl|
    requires at + |b| <= FLAG_AT || FLAG_AT < at
    ensures NestedFlag(Splice(ctrl, at, b)) == NestedFlag(ctrl)
  {
  }

  lemma {:induction false} SpliceKeepsName(ctrl: seq<byte>, at: nat, b: seq<byte>)
    requires Sized(ctrl) && at + |b| <= |ctrl| && at + |b| <= NAME_AT
    ensures SnapName(Splice(ctrl, at, b)) == SnapName(ctrl)
  {
    SpliceOutside(ctrl, at, b, NAME_AT, NAME_AT + NAME_LEN);
    assert Splice(ctrl, at, b)[NAME_AT..NAME_AT + NAME_LEN] == ctrl[NAME_AT..NAME_AT + NAME_LEN];
  }

  lemma {:induction false} SpliceKeepsDesc(ctrl: seq<byte>, at: nat, b: seq<byte>)
    requires Sized(ctrl) && at + |b| <= DESC_AT
    ensures ReadDescriptorBytes(Splice(ctrl, at, b)) == ReadDescriptorBytes(ctrl)
  {
    var r := Splice(ctrl, at, b);
    SpliceOutside(ctrl, at, b, DESC_AT, DescEnd(|ctrl|));
    assert r[DESC_AT..DescEnd(|r|)] == ctrl[DESC_AT..DescEnd(|ctrl|)];
  }

  /** Publishing a position leaves every other field as it was. */
  lemma {:induction false} SetRPosFields(ctrl: seq<byte>, n: nat)
    requires Sized(ctrl) && n < U32_LIMIT
    ensures RPos(SetRPos(ctrl, n)) == n
    ensures RCount(SetRPos(ctrl, n)) == RCount(ctrl)
    ensures NestedFlag(SetRPos(ctrl, n)) == NestedFlag(ctrl)
    ensures SnapName(SetRPos(ctrl, n)) == SnapName(ctrl)
    ensures ReadDescriptorBytes(SetRPos(ctrl, n)) == ReadDescriptorBytes(ctrl)
  {
    SpliceInside(ctrl, POS_AT, Le4(n), POS_AT, POS_AT + 4);
    FromLe4Le4(n);
    SpliceKeepsCount(ctrl, POS_AT, Le4(n));
    SpliceKeepsFlag(ctrl, POS_AT, Le4(n));
    SpliceKeepsName(ctrl, POS_AT, Le4(n));
    SpliceKeepsDesc(ctrl, POS_AT, Le4(n));
  }

  /** Publishing a counter leaves every other field as it was. */
  lemma {:induction false} SetRCountFields(ctrl: seq<byte>, n: nat)
    requires Sized(ctrl) && n < U32_LIMIT
    ensures RCount(SetRCount(ctrl, n)) == n
    ensures RPos(SetRCount(ctrl, n)) == RPos(ctrl)
    ensures NestedFlag(SetRCount(ctrl, n)) == NestedFlag(ctrl)
    ensures SnapName(SetRCount(ctrl, n)) == SnapName(ctrl)
    ensures ReadDescriptorBytes(SetRCount(ctrl, n)) == ReadDescriptorBytes(ctrl)
  {
    SpliceInside(ctrl, COUNTER_AT, Le4(n), COUNTER_AT, COUNTER_AT + 4);
    FromLe4Le4(n);
    SpliceKeepsPos(ctrl, COUNTER_AT, Le4(n));
    SpliceKeepsFlag(ctrl, COUNTER_AT, Le4(n));
    SpliceKeepsName(ctrl, COUNTER_AT, Le4(n));
    SpliceKeepsDesc(ctrl, COUNTER_AT, Le4(n));
  }

  /** A published snapshot name reads back as itself. */
  lemma {:induction false} SetSnapNameReads(ctrl: seq<byte>, n: seq<byte>)
    requires Sized(ctrl) && ValidName(n)
    ensures SnapName(SetSnapName(ctrl, n)) == n
  {
    SpliceInside(ctrl, NAME_AT, PadName(n), NAME_AT, NAME_AT + NAME_LEN);
    assert SetSnapName(ctrl, n)[NAME_AT..NAME_AT + NAME_LEN] == PadName(n);
    StripPadName(n);
  }

  /** Publishing a snapshot name leaves every other field as it was. */
  lemma {:induction false} SetSnapNameFields(ctrl: seq<byte>, n: seq<byte>)
    requires Sized(ctrl) && |n| <= NAME_LEN
    ensures RPos(SetSnapName(ctrl, n)) == RPos(ctrl)
    ensures RCount(SetSnapName(ctrl, n)) == RCount(ctrl)
    ensures NestedFlag(SetSnapName(ctrl, n)) == NestedFlag(ctrl)
    ensures ReadDescriptorBytes(SetSnapName(ctrl, n)) == ReadDescriptorBytes(ctrl)
  {
    SpliceKeepsPos(ctrl, NAME_AT, PadName(n));
    SpliceKeepsCount(ctrl, NAME_AT, PadName(n));
    SpliceKeepsFlag(ctrl, NAME_AT, PadName(n));
    SpliceKeepsDesc(ctrl, NAME_AT, PadName(n));
  }

  /** The three control writes of a snapshot dump: name, then counter, then cursor 0. */
  function PublishSnapshot(ctrl: seq<byte>, name: seq<byte>, count: nat): (r: seq<byte>)
    requires Sized(ctrl) && |name| <= NAME_LEN && count < U32_LIMIT
    ensures Sized(r) && |r| == |ctrl|
  {
    SetRPos(SetRCount(SetSnapName(ctrl, name), count), 0)
  }

  /** After a dump the control block names the snapshot, holds the new counter and cursor 0. */
  lemma {:induction false} PublishSnapshotFields(ctrl: seq<byte>, name: seq<byte>, count: nat)
    requires Sized(ctrl) && ValidName(name) && count < U32_LIMIT
    ensures SnapName(PublishSnapshot(ctrl, name, count)) == name
    ensures RCount(PublishSnapshot(ctrl, name, count)) == count
    ensures RPos(PublishSnapshot(ctrl, name, count)) == 0
    ensures NestedFlag(PublishSnapshot(ctrl, name, count)) == NestedFlag(ctrl)
    ensures ReadDescriptorBytes(PublishSnapshot(ctrl, name, count)) == ReadDescriptorBytes(ctrl)
  {
    var c1 := SetSnapName(ctrl, name);
    var c2 := SetRCount(c1, count);
    SetSnapNameReads(ctrl, name);
    SetSnapNameFields(ctrl, name);
    SetRCountFields(c1, count);
    SetRPosFields(c2, 0);
  }
  /** The control block `__init__` leaves on a fresh zero-filled segment: descriptor, then flag. */
  function CreatedControl(size: nat, k: Kind, requested: bool): (r: seq<byte>)
    requires DescFits(size, |Codec.EncKind(k)|)
    ensures Sized(r) && |r| == size
  {
    FlagOnCreate(WriteDescriptor(Zeros(size), Codec.EncKind(k)).value, k, requested)
  }

  /**
   * A freshly created control block publishes nothing yet: cursor 0, counter 0, no
   * snapshot name; it describes the kind it was created for and carries the effective
   * nested flag.
   */
  lemma {:induction false} CreatedControlFields(size: nat, k: Kind, requested: bool)
    requires DescFits(size, |Codec.EncKind(k)|)
    ensures var c := CreatedControl(size, k, requested);
      && RPos(c) == 0 && RCount(c) == 0 && SnapName(c) == []
      && ReadDescriptor(c) == Some(k)
      && NestedFlag(c) == EffectiveNested(k, requested)
  {
    var z := Zeros(size);
    var d := WriteDescriptor(z, Codec.EncKind(k)).value;
    DescriptorRoundTrip(z, k);
    assert Le4(0) == [0, 0, 0, 0];
    FromLe4Le4(0);
    assert d[POS_AT..POS_AT + 4] == z[POS_AT..POS_AT + 4] == Le4(0);
    assert d[COUNTER_AT..COUNTER_AT + 4] == z[COUNTER_AT..COUNTER_AT + 4] == Le4(0);
    assert d[NAME_AT..NAME_AT + NAME_LEN] == z[NAME_AT..NAME_AT + NAME_LEN] == Zeros(NAME_LEN);
    StripZeros();
    assert RPos(d) == 0 && RCount(d) == 0 && SnapName(d) == [];
    NestedFlagAgrees(d, k, requested);
    if EffectiveNested(k, requested) {
      SpliceKeepsPos(d, FLAG_AT, [NESTED_MARK]);
      SpliceKeepsCount(d, FLAG_AT, [NESTED_MARK]);
      SpliceKeepsName(d, FLAG_AT, [NESTED_MARK]);
      SpliceKeepsDesc(d, FLAG_AT, [NESTED_MARK]);
    }
  }
}
