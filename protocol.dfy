/**
 * The replication protocol as a function of the shared bytes.
 *
 * A container's channel is its control block, its log buffer and the snapshot
 * segment the control block names. The published state is the snapshot (or the
 * empty container, before the first snapshot) with the log records up to the
 * published position replayed onto it. A handle's local state is a view: its
 * cursor, its snapshot counter and its mirror.
 */
module Protocol {
  import opened Basics
  import opened LittleEndian
  import opened Values
  import opened Containers
  import opened Codec
  import opened ControlBlock
  import opened OpLog

  datatype Chan = Chan(control: seq<byte>, log: seq<byte>, snap: Option<seq<byte>>)

  /** A handle's replication state: `_update_stream_position`, `_full_dump_counter`, `data`. */
  datatype View = View(pos: nat, counter: nat, data: Mirror)

  // ---------------------------------------------------------------- published state

  /** The state the log is replayed onto: the snapshot if one was published, else empty. */
  function Base(c: Chan): Option<Mirror>
    requires Sized(c.control)
  {
    if RCount(c.control) == 0 then
      match ReadDescriptor(c.control)
      case Some(k) => Some(Empty(k))
      case None => None
    else
      match c.snap
      case Some(b) => DecodeSnapshot(b)
      case None => None
  }

  /** The base with the log records up to position p replayed onto it. */
  function Replay(c: Chan, p: nat): Option<Mirror>
    requires Sized(c.control)
  {
    match Base(c)
    case None => None
    case Some(b) =>
      match Records(c.log, 0, p)
      case None => None
      case Some(ops) => ApplyAll(b, ops)
  }

  /** The container's state as every handle will see it after pulling. */
  function Published(c: Chan): Option<Mirror>
    requires Sized(c.control)
  {
    Replay(c, RPos(c.control))
  }

  /** The mirror a handle at position p with mirror d reaches by replaying up to `end`. */
  function Resume(log: seq<byte>, p: nat, end: nat, d: Mirror): Option<Mirror> {
    match Records(log, p, end)
    case None => None
    case Some(ops) => ApplyAll(d, ops)
  }

  /**
   * `apply_changes`: reload the snapshot when the published counter is ahead of the
   * handle's, then replay the records from the handle's cursor to the published one.
   */
  function Catch(c: Chan, v: View): Option<View>
    requires Sized(c.control)
  {
    var rc := RCount(c.control);
    var end := RPos(c.control);
    var start :=
      if v.counter < rc then
        (match Base(c) case Some(b) => Some(View(0, rc, b)) case None => None)
      else Some(v);
    match start
    case None => None
    case Some(s) =>
      if s.pos < end then
        (match Resume(c.log, s.pos, end, s.data)
         case Some(m) => Some(View(end, s.counter, m))
         case None => None)
      else start
  }

  /**
   * A view that is a replay prefix of the channel: either a newer snapshot is waiting
   * for it, or its mirror is the base replayed up to its own cursor.
   */
  predicate Consistent(c: Chan, v: View) {
    && Sized(c.control)
    && v.counter <= RCount(c.control)
    && (v.counter == RCount(c.control) ==>
          v.pos <= RPos(c.control) && Replay(c, v.pos) == Some(v.data))
  }

  /** A view with nothing left to pull. */
  predicate Synced(c: Chan, v: View) {
    && Sized(c.control)
    && v.counter == RCount(c.control)
    && v.pos == RPos(c.control)
    && Published(c) == Some(v.data)
  }

  /**
   * Reading a missing key of a defaultdict through a handle with nothing left to pull,
   * as Python evaluates it, leaves the handle's mirror holding an entry that no record
   * and no snapshot carries: the handle is no longer in step with the published state,
   * and the records it replays later land on a mirror that differs from everyone else's.
   */
  lemma {:induction false} GetItemDesyncs(c: Chan, v: View, key: Value)
    requires Synced(c, v)
    requires v.data.Mapping? && v.data.kind.DefaultDict? && v.data.kind.factory.Some?
    requires Hashable(key) && key !in Keys(v.data.entries)
    ensures Published(c) == Some(v.data)
    ensures !Synced(c, View(v.pos, v.counter, GetItemAsWritten(v.data, key).0))
  {
    var m := GetItemAsWritten(v.data, key).0;
    assert m != v.data;
  }

  /**
   * `difference_update` through a synced handle, as Python runs it, can raise TypeError
   * after discarding some elements. Nothing is written, since the error escapes before
   * `_write_changes`, but the handle's mirror has lost those elements: it is no longer in
   * step with the published state.
   */
  lemma {:induction false} DifferenceUpdateDesyncs(c: Chan, v: View, others: seq<Value>)
    requires Synced(c, v) && v.data.Items? && v.data.kind.Set?
    requires DifferenceUpdateAsWritten(v.data.items, others).1.Err?
    requires DifferenceUpdateAsWritten(v.data.items, others).0 != v.data.items
    ensures ApplyOp(v.data, DifferenceUpdate(others)) == Err(TypeError)
    ensures Published(c) == Some(v.data)
    ensures !Synced(c, View(v.pos, v.counter, Items(Set, DifferenceUpdateAsWritten(v.data.items, others).0)))
  {
    var m := Items(Set, DifferenceUpdateAsWritten(v.data.items, others).0);
    assert m != v.data;
  }

  // ---------------------------------------------------------------- how the channel moves

  /**
   * The channel only moves forward: either a newer snapshot was published, or the
   * base is untouched and the log grew past the old cursor without changing what
   * lies before it.
   */
  predicate Advance(c0: Chan, c1: Chan) {
    && Sized(c0.control) && Sized(c1.control)
    && (|| RCount(c1.control) > RCount(c0.control)
        || (&& RCount(c1.control) == RCount(c0.control)
            && Base(c1) == Base(c0)
            && RPos(c0.control) <= RPos(c1.control)
            && RPos(c0.control) <= |c0.log| && RPos(c0.control) <= |c1.log|
            && c0.log[..RPos(c0.control)] == c1.log[..RPos(c0.control)]))
  }

  /** The log end after appending the frame of payload e at the published position. */
  function AppendEnd(c: Chan, e: seq<byte>): nat
    requires Sized(c.control)
  {
    RPos(c.control) + 4 + |e|
  }

  /**
   * `_write_changes` when the record fits: the frame of the encoded operation e is
   * written at the published position, then the new end is published.
   */
  function AppendChan(c: Chan, e: seq<byte>): (r: Chan)
    requires Sized(c.control) && AppendEnd(c, e) <= |c.log| < U32_LIMIT
    ensures Sized(r.control) && |r.log| == |c.log|
  {
    var end := AppendEnd(c, e);
    Chan(SetRPos(c.control, end), Splice(c.log, RPos(c.control), Frame(e)), c.snap)
  }

  /**
   * `dump_full_object` on the channel: the snapshot segment `name` holds the mirror;
   * the control block names it, the counter moves on by one and the cursor returns to 0.
   */
  function DumpChan(c: Chan, m: Mirror, name: Name): (r: Chan)
    requires Sized(c.control) && ValidName(name)
    requires RCount(c.control) + 1 < U32_LIMIT && |EncMirror(m)| < U32_LIMIT
    ensures Sized(r.control) && r.log == c.log
  {
    Chan(PublishSnapshot(c.control, name, RCount(c.control) + 1), c.log, Some(SnapshotBytes(m)))
  }

}
