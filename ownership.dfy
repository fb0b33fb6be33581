/**
 * Which control block published which snapshot segment, and how a dump moves that
 * bookkeeping: the facts that let one container dump without disturbing another.
 */
module Ownership {
  import opened Basics
  import opened LittleEndian
  import opened Values
  import opened ControlBlock
  import opened SharedMemory

  /**
   * The snapshot bookkeeping of one control block whose bytes are `bytes`: its name
   * field is empty until the first dump, and after it the named snapshot is live and was
   * published by this control block.
   */
  ghost predicate Owned(snapOf: map<Name, array<byte>>, ctrl: array<byte>, bytes: seq<byte>)
  {
    && Sized(bytes)
    && (RCount(bytes) == 0 ==> SnapName(bytes) == [])
    && (RCount(bytes) > 0 ==> SnapName(bytes) in snapOf && snapOf[SnapName(bytes)] == ctrl)
  }

  /** A map after `name` is bound to `v` and the previous name `prev` is unlinked. */
  function Republished<V>(m: map<Name, V>, prev: Name, name: Name, v: V): map<Name, V> {
    if prev != [] && prev != name then m[name := v] - {prev} else m[name := v]
  }

  /**
   * The namespace after a dump: `seg` appears under `name` as the snapshot of `ctrl`,
   * and the previous snapshot's name is gone unless the new one reused it.
   */
  ghost predicate Republishes(s0: map<Name, Segment>, o0: map<Name, array<byte>>,
                              s1: map<Name, Segment>, o1: map<Name, array<byte>>,
                              prev: Name, name: Name, seg: Segment, ctrl: array<byte>)
  {
    && s1 == Republished(s0, prev, name, seg)
    && o1 == Republished(o0, prev, name, ctrl)
  }

  /** The new name is bound, and every other name stays unless it was the previous one. */
  lemma {:induction false} RepublishedNames<V>(m: map<Name, V>, prev: Name, name: Name, v: V)
    ensures name in Republished(m, prev, name, v) && Republished(m, prev, name, v)[name] == v
    ensures forall n :: n in m && n != name && n != prev ==>
      n in Republished(m, prev, name, v) && Republished(m, prev, name, v)[n] == m[n]
  {
  }

  /**
   * A dump keeps the publisher's own bookkeeping: once its control block names the new
   * snapshot under a positive counter, the snapshot is live and its own.
   */
  lemma {:induction false} PublishOwned(o0: map<Name, array<byte>>, ctrl: array<byte>,
                                        b0: seq<byte>, b1: seq<byte>, name: Name)
    requires Owned(o0, ctrl, b0)
    requires Sized(b1) && RCount(b1) > 0 && SnapName(b1) == name
    ensures Owned(Republished(o0, SnapName(b0), name, ctrl), ctrl, b1)
  {
    RepublishedNames(o0, SnapName(b0), name, ctrl);
  }

  /**
   * A dump moves only its publisher's snapshots: the previous one it unlinks was its
   * own snapshot, never a control block or a log, and the new name was free.
   */
  lemma {:induction false} PublishEvolves(s0: map<Name, Segment>, o0: map<Name, array<byte>>,
                                          ctrl: array<byte>, b0: seq<byte>, name: Name, seg: Segment)
    requires Owned(o0, ctrl, b0) && name !in s0
    requires SnapshotsListed(s0, o0)
    ensures Evolves(s0, o0, Republished(s0, SnapName(b0), name, seg),
                    Republished(o0, SnapName(b0), name, ctrl), {ctrl})
  {
  }

  /** Whoever moves the namespace, a control block that did not act keeps its bookkeeping. */
  lemma {:induction false} OwnedKept(s0: map<Name, Segment>, o0: map<Name, array<byte>>,
                                     s1: map<Name, Segment>, o1: map<Name, array<byte>>,
                                     actors: set<array<byte>>, ctrl: array<byte>, bytes: seq<byte>)
    requires Owned(o0, ctrl, bytes) && o0.Keys <= s0.Keys
    requires Evolves(s0, o0, s1, o1, actors) && ctrl !in actors
    ensures Owned(o1, ctrl, bytes)
  {
  }

  /**
   * The whole bookkeeping of a dump: the publisher owns its rewritten control block,
   * the namespace moved only for it, and a control block `other` that did not act
   * keeps what it owned.
   */
  lemma {:induction false} DumpBookkeeping(
    s0: map<Name, Segment>, o0: map<Name, array<byte>>,
    s1: map<Name, Segment>, o1: map<Name, array<byte>>,
    ctrl: array<byte>, b0: seq<byte>, b1: seq<byte>, name: Name, seg: Segment,
    hasOther: bool, other: array<byte>, otherBytes: seq<byte>)
    requires Owned(o0, ctrl, b0) && name !in s0
    requires SnapshotsListed(s0, o0)
    requires Republishes(s0, o0, s1, o1, SnapName(b0), name, seg, ctrl)
    requires Sized(b0) && RCount(b0) + 1 < U32_LIMIT && ValidName(name)
    requires b1 == PublishSnapshot(b0, name, RCount(b0) + 1)
    requires hasOther ==> Owned(o0, other, otherBytes) && other != ctrl
    ensures Owned(o1, ctrl, b1) && Evolves(s0, o0, s1, o1, {ctrl})
    ensures hasOther ==> Owned(o1, other, otherBytes)
    ensures name in s1 && s1[name] == seg
  {
    PublishSnapshotFields(b0, name, RCount(b0) + 1);
    assert Sized(b1) && RCount(b1) > 0 && SnapName(b1) == name;
    PublishOwned(o0, ctrl, b0, b1, name);
    PublishEvolves(s0, o0, ctrl, b0, name, seg);
    RepublishedNames(s0, SnapName(b0), name, seg);
    if hasOther {
      OwnedKept(s0, o0, s1, o1, {ctrl}, other, otherBytes);
    }
  }
}
