/**
 * One handle on a shared container: the `SharedObject` class.
 *
 * A handle holds the container's control segment and log segment (the same arrays
 * every other handle on the container holds), its own cursor into the log, the
 * snapshot counter it last loaded and its local mirror of the container. Reading
 * methods pull first; mutating methods pull, apply the operation to the mirror and
 * append it to the log, or dump a snapshot when the log is full.
 */
module SharedObjects {
  import opened Basics
  import opened LittleEndian
  import opened Values
  import opened Containers
  import opened Codec
  import opened ControlBlock
  import opened OpLog
  import opened Protocol
  import opened Replication
  import opened SharedMemory
  import opened Ownership
  import opened Nesting
  import opened Bulk

  /** The snapshot a control block's name field names, whatever its counter says. */
  function Named(segs: map<Name, Segment>, ctrl: seq<byte>): Option<seq<byte>>
    requires Sized(ctrl)
  {
    var n := SnapName(ctrl);
    if n in segs && segs[n].Snapshot? then Some(segs[n].bytes) else None
  }

  /** What loading the snapshot a control block names yields, if it exists and decodes. */
  function Loadable(segs: map<Name, Segment>, ctrl: seq<byte>): Option<Mirror>
    requires Sized(ctrl)
  {
    match Named(segs, ctrl)
    case Some(b) => DecodeSnapshot(b)
    case None => None
  }

  /** The snapshot a control block publishes: none before the first dump. */
  function SnapBytes(segs: map<Name, Segment>, ctrl: seq<byte>): Option<seq<byte>>
    requires Sized(ctrl)
  {
    if RCount(ctrl) == 0 then None else Named(segs, ctrl)
  }

  /** The snapshot bookkeeping of a control block, on its current bytes. */
  ghost predicate Owns(mem: Memory, ctrl: array<byte>)
    reads mem, ctrl
  {
    Owned(mem.snapOf, ctrl, ctrl[..])
  }

  /** What a method may do to the namespace: snapshots published by anyone but `actors` stay where they are. */
  twostate predicate Moves(mem: Memory, actors: set<array<byte>>)
    reads mem
  {
    Evolves(old(mem.segs), old(mem.snapOf), mem.segs, mem.snapOf, actors)
  }

  /** The last step of a dump: the snapshot named before goes, unless the new one took its name. */
  method Retire(mem: Memory, prev: Name, name: Name)
    requires mem.Valid()
    modifies mem
    ensures mem.Valid()
    ensures prev != [] && prev != name ==> mem.segs == old(mem.segs) - {prev} && mem.snapOf == old(mem.snapOf) - {prev}
    ensures prev == [] || prev == name ==> mem.segs == old(mem.segs) && mem.snapOf == old(mem.snapOf)
  {
    if prev != [] && prev != name {
      var _ := mem.Unlink(prev);
    }
  }

  /**
   * The control-block writes of a dump, in the order `dump_full_object` makes them:
   * the snapshot name padded with spaces, the counter, then the cursor 0.
   */
  method WritePublish(ctrl: array<byte>, n: Name, count: nat)
    requires Sized(ctrl[..]) && |n| <= NAME_LEN && count < U32_LIMIT
    modifies ctrl
    ensures ctrl[..] == PublishSnapshot(old(ctrl[..]), n, count)
  {
    WriteBytes(ctrl, NAME_AT, PadName(n));
    WriteBytes(ctrl, COUNTER_AT, Le4(count));
    WriteBytes(ctrl, POS_AT, Le4(0));
  }

  /**
   * The segment work of `dump_full_object` for the serialised mirror `payload`: a new
   * anonymous snapshot holding its frame, the control block rewritten to name it under
   * the next counter with the cursor at 0, and the snapshot it named before unlinked.
   */
  method PublishSegment(mem: Memory, ctrl: array<byte>, payload: seq<byte>, ghost c0: seq<byte>)
    returns (r: Outcome, ghost name: Name)
    requires mem.Valid() && ctrl[..] == c0 && Sized(c0)
    modifies mem, ctrl
    ensures mem.Valid()
    ensures r.Fail? ==> ctrl[..] == c0 && mem.segs == old(mem.segs) && mem.snapOf == old(mem.snapOf)
    ensures r.Pass? ==> RCount(c0) + 1 < U32_LIMIT && |payload| < U32_LIMIT && ValidName(name)
    ensures r.Pass? ==> name !in old(mem.segs) && ctrl[..] == PublishSnapshot(c0, name, RCount(c0) + 1)
    ensures r.Pass? ==> Republishes(old(mem.segs), old(mem.snapOf), mem.segs, mem.snapOf,
                                    SnapName(c0), name, Snapshot(Frame(payload)), ctrl)
  {
    var rc := RCount(ctrl[..]);
    var prev := SnapName(ctrl[..]);
    name := [];
    if rc + 1 >= U32_LIMIT || |payload| + 4 >= U32_LIMIT {
      return Fail(Overflow), name;
    }
    var seg := mem.CreateSnapshot(Frame(payload), ctrl);
    if seg.Err? {
      return Fail(seg.error), name;
    }
    var n := seg.value;
    name := n;
    WritePublish(ctrl, n, rc + 1);
    Retire(mem, prev, n);
    r := Pass;
  }

  /**
   * `PublishSegment` with the snapshot bookkeeping carried along: the publisher keeps
   * owning its control block, and so does the register's control block `other` when
   * there is one, since a dump moves only the publisher's own snapshots.
   */
  method DumpSegment(mem: Memory, ctrl: array<byte>, payload: seq<byte>,
                     ghost hasOther: bool, ghost other: array<byte>, ghost ob: seq<byte>)
    returns (r: Outcome, ghost name: Name)
    requires mem.Valid() && Owns(mem, ctrl)
    requires hasOther ==> Owned(mem.snapOf, other, ob) && other != ctrl
    modifies mem, ctrl
    ensures mem.Valid() && Owns(mem, ctrl) && (hasOther ==> Owned(mem.snapOf, other, ob))
    ensures Moves(mem, {ctrl})
    ensures r.Fail? ==> ctrl[..] == old(ctrl[..]) && mem.segs == old(mem.segs)
    ensures r.Pass? ==> RCount(old(ctrl[..])) + 1 < U32_LIMIT && |payload| < U32_LIMIT && ValidName(name)
    ensures r.Pass? ==> ctrl[..] == PublishSnapshot(old(ctrl[..]), name, RCount(old(ctrl[..])) + 1)
    ensures r.Pass? ==> name in mem.segs && mem.segs[name] == Snapshot(Frame(payload))
  {
    ghost var s0, o0, c0 := mem.segs, mem.snapOf, ctrl[..];
    assert SnapshotsListed(s0, o0) && Owned(o0, ctrl, c0);
    r, name := PublishSegment(mem, ctrl, payload, c0);
    if r.Pass? {
      DumpBookkeeping(s0, o0, mem.segs, mem.snapOf, ctrl, c0, ctrl[..], name, Snapshot(Frame(payload)), hasOther, other, ob);
    } else {
      ExtendsEvolves(s0, s0, o0, {ctrl});
    }
  }

  /**
   * `DumpSegment` for the serialised mirror `m`, read as a move of the channel of the
   * control block `ctrl` and the log `log`: on success it is `DumpChan` of the channel before.
   */
  method DumpMirror(mem: Memory, ctrl: array<byte>, log: array<byte>, m: Mirror,
                    ghost hasOther: bool, ghost other: array<byte>, ghost ob: seq<byte>)
    returns (r: Outcome, ghost name: Name)
    requires mem.Valid() && Owns(mem, ctrl) && log != ctrl
    requires hasOther ==> Owned(mem.snapOf, other, ob) && other != ctrl
    modifies mem, ctrl
    ensures mem.Valid() && Owns(mem, ctrl) && (hasOther ==> Owned(mem.snapOf, other, ob))
    ensures Moves(mem, {ctrl})
    ensures r.Fail? ==> ctrl[..] == old(ctrl[..]) && mem.segs == old(mem.segs)
    ensures r.Pass? ==> RCount(old(ctrl[..])) + 1 < U32_LIMIT && |EncMirror(m)| < U32_LIMIT && ValidName(name)
    ensures r.Pass? ==> Chan(ctrl[..], log[..], SnapBytes(mem.segs, ctrl[..]))
                        == DumpChan(old(Chan(ctrl[..], log[..], SnapBytes(mem.segs, ctrl[..]))), m, name)
  {
    ghost var c := Chan(ctrl[..], log[..], SnapBytes(mem.segs, ctrl[..]));
    r, name := DumpSegment(mem, ctrl, EncMirror(m), hasOther, other, ob);
    if r.Pass? {
      DumpChannel(mem.segs, c, ctrl[..], log[..], m, name);
    }
  }

  /**
   * The append branch of `_write_changes`: the frame of the encoded record `e` goes to
   * the log at the published cursor, then the cursor moves past it. The snapshot
   * bookkeeping of the control block is untouched.
   */
  method AppendRecord(mem: Memory, ctrl: array<byte>, log: array<byte>, e: seq<byte>)
    requires Sized(ctrl[..]) && ctrl != log
    requires RPos(ctrl[..]) + 4 + |e| <= log.Length < U32_LIMIT
    modifies ctrl, log
    ensures Owns(mem, ctrl) == old(Owns(mem, ctrl))
    ensures Chan(ctrl[..], log[..], SnapBytes(mem.segs, ctrl[..]))
            == AppendChan(old(Chan(ctrl[..], log[..], SnapBytes(mem.segs, ctrl[..]))), e)
  {
    ghost var c := Chan(ctrl[..], log[..], SnapBytes(mem.segs, ctrl[..]));
    var start := RPos(ctrl[..]);
    var end := start + 4 + |e|;
    WriteBytes(log, start, Frame(e));
    assert log[..] == Splice(c.log, start, Frame(e)) && ctrl[..] == c.control;
    WriteBytes(ctrl, POS_AT, Le4(end));
    assert end == AppendEnd(c, e) && ctrl[..] == Splice(c.control, POS_AT, Le4(end));
    AppendChannel(mem.segs, c, ctrl[..], log[..], e);
    assert Owned(mem.snapOf, ctrl, ctrl[..]) == Owned(mem.snapOf, ctrl, c.control);
  }

  /** The control block with the cursor moved and the log with the frame written make up `AppendChan`. */
  lemma {:induction false} AppendChannel(segs: map<Name, Segment>, c: Chan, ctrl: seq<byte>, log: seq<byte>,
                                        e: seq<byte>)
    requires Sized(c.control) && c.snap == SnapBytes(segs, c.control)
    requires AppendEnd(c, e) <= |c.log| < U32_LIMIT
    requires ctrl == Splice(c.control, POS_AT, Le4(AppendEnd(c, e)))
    requires log == Splice(c.log, RPos(c.control), Frame(e))
    ensures Sized(ctrl) && Chan(ctrl, log, SnapBytes(segs, ctrl)) == AppendChan(c, e)
    ensures RCount(ctrl) == RCount(c.control) && SnapName(ctrl) == SnapName(c.control)
  {
    SetRPosFields(c.control, AppendEnd(c, e));
  }

  /**
   * What a handle reaches after a dump: the control block `PublishSegment` wrote, the
   * log it left alone and the snapshot it created make up `DumpChan`.
   */
  lemma {:induction false} DumpChannel(segs: map<Name, Segment>, c: Chan, ctrl: seq<byte>, log: seq<byte>,
                                       m: Mirror, name: Name)
    requires Sized(c.control) && ValidName(name)
    requires RCount(c.control) + 1 < U32_LIMIT && |EncMirror(m)| < U32_LIMIT
    requires ctrl == PublishSnapshot(c.control, name, RCount(c.control) + 1) && log == c.log
    requires name in segs && segs[name] == Snapshot(SnapshotBytes(m))
    ensures Chan(ctrl, log, SnapBytes(segs, ctrl)) == DumpChan(c, m, name)
  {
    NamedSnapshot(segs, c, ctrl, EncMirror(m), name);
  }

  /** `DumpChannel` for any framed payload. */
  lemma {:induction false} NamedSnapshot(segs: map<Name, Segment>, c: Chan, ctrl: seq<byte>,
                                         payload: seq<byte>, name: Name)
    requires Sized(c.control) && ValidName(name)
    requires RCount(c.control) + 1 < U32_LIMIT && |payload| < U32_LIMIT
    requires ctrl == PublishSnapshot(c.control, name, RCount(c.control) + 1)
    requires name in segs && segs[name] == Snapshot(Frame(payload))
    ensures SnapBytes(segs, ctrl) == Some(Frame(payload))
  {
    PublishSnapshotFields(c.control, name, RCount(c.control) + 1);
  }

  /** Once a snapshot was published, the base of the channel is whatever loading it yields. */
  lemma {:induction false} BaseIsLoadable(segs: map<Name, Segment>, ctrl: seq<byte>, log: seq<byte>)
    requires Sized(ctrl) && RCount(ctrl) > 0
    ensures Base(Chan(ctrl, log, SnapBytes(segs, ctrl))) == Loadable(segs, ctrl)
  {
  }

  /** A control block that did not act keeps its bookkeeping and the snapshot it publishes. */
  lemma {:induction false} SnapKept(s0: map<Name, Segment>, o0: map<Name, array<byte>>,
                                    s1: map<Name, Segment>, o1: map<Name, array<byte>>,
                                    actors: set<array<byte>>, ctrl: array<byte>, bytes: seq<byte>)
    requires Owned(o0, ctrl, bytes) && o0.Keys <= s0.Keys
    requires Evolves(s0, o0, s1, o1, actors) && ctrl !in actors
    ensures Owned(o1, ctrl, bytes) && SnapBytes(s1, bytes) == SnapBytes(s0, bytes)
  {
    OwnedKept(s0, o0, s1, o1, actors, ctrl, bytes);
  }

  /**
   * Unlinking the segments of the container whose control block is `c` leaves in place
   * the snapshot of every other control block: a published snapshot is a snapshot
   * segment, never a control block or a log, and it is owned by the block that named it.
   */
  lemma {:induction false} OtherSnapKept(segs: map<Name, Segment>, snapOf: map<Name, array<byte>>, name: Name,
                                         c: array<byte>, cb: seq<byte>, other: array<byte>, bytes: seq<byte>)
    requires forall n :: n in snapOf ==> n in segs && segs[n].Snapshot?
    requires Bound(segs, name).Some? && Bound(segs, name).value.0 == c
    requires Owned(snapOf, c, cb) && Owned(snapOf, other, bytes) && other != c
    ensures SnapBytes(segs - ObjectSegments(name, cb), bytes) == SnapBytes(segs, bytes)
  {
    if RCount(bytes) > 0 {
      var n := SnapName(bytes);
      assert segs[n].Snapshot?;
      assert n != name && n != LogName(name);
      assert RCount(cb) > 0 ==> snapOf[SnapName(cb)] == c;
      assert n !in ObjectSegments(name, cb);
    }
  }

  /** What a handle with register `reg` may modify of it: its fields and its segments. */
  function RegFrame(reg: SharedObject?): set<object> {
    if reg == null then {} else {reg, reg.control, reg.buffer}
  }

  /** The register's control block, the one a promotion publishes through. */
  function RegCtrl(reg: SharedObject?): set<array<byte>> {
    if reg == null then {} else {reg.control}
  }

  /** The control and log segments of the container `name`, when both names are bound. */
  function Bound(segs: map<Name, Segment>, name: Name): Option<(array<byte>, array<byte>)> {
    if name in segs && segs[name].Live? && LogName(name) in segs && segs[LogName(name)].Live?
    then Some((segs[name].a, segs[LogName(name)].a))
    else None
  }

  /**
   * The kind an attaching handle reconstructs from the control segment c with log l:
   * None when the segments cannot hold a container (the control block is too short for
   * its fields, the log is too long for 32-bit positions, or both names share one
   * segment) or when the descriptor does not decode.
   */
  function Readable(c: array<byte>, l: array<byte>): Option<Kind>
    reads c
  {
    if c.Length >= DESC_AT + 4 && l.Length < U32_LIMIT && c != l then ReadDescriptor(c[..]) else None
  }

  /**
   * A container whose snapshot no actor may move keeps its name's binding and its
   * channel, whatever the actors publish.
   */
  lemma {:induction false} ChildKept(s0: map<Name, Segment>, o0: map<Name, array<byte>>,
                                     s1: map<Name, Segment>, o1: map<Name, array<byte>>,
                                     actors: set<array<byte>>, n: Name, c: array<byte>, l: array<byte>, ch: Chan)
    requires Evolves(s0, o0, s1, o1, actors) && SnapshotsListed(s0, o0) && c !in actors
    requires c.Length >= DESC_AT + 4 && Owned(o0, c, c[..]) && Bound(s0, n) == Some((c, l))
    requires ch == ChanOf(s0, c, l)
    ensures Bound(s1, n) == Some((c, l)) && ChanOf(s1, c, l) == ch
  {
    assert LiveKept(s0, s1, n) && LiveKept(s0, s1, LogName(n));
    SnapKept(s0, o0, s1, o1, actors, c, c[..]);
  }

  /**
   * A container whose control block owns its snapshot, and is none of the actors, keeps
   * its channel while the namespace moves for the actors alone.
   */
  lemma {:induction false} ChanKept(s0: map<Name, Segment>, o0: map<Name, array<byte>>,
                                    s1: map<Name, Segment>, o1: map<Name, array<byte>>,
                                    actors: set<array<byte>>, c: array<byte>, l: array<byte>, ch: Chan)
    requires Evolves(s0, o0, s1, o1, actors) && o0.Keys <= s0.Keys && c !in actors
    requires c.Length >= DESC_AT + 4 && Owned(o0, c, c[..]) && ch == ChanOf(s0, c, l)
    ensures ChanOf(s1, c, l) == ch
  {
    SnapKept(s0, o0, s1, o1, actors, c, c[..]);
  }

  /** The channel of the container whose segments are c and l. */
  function ChanOf(segs: map<Name, Segment>, c: array<byte>, l: array<byte>): Chan
    reads c, l
    requires c.Length >= DESC_AT + 4
  {
    Chan(c[..], l[..], SnapBytes(segs, c[..]))
  }

  /**
   * The segments `_unlink_shm_object_by_name` removes for the container `name` whose
   * control block holds ctrl: the control and log segments, and the snapshot the
   * control block names once a snapshot was published.
   */
  function ObjectSegments(name: Name, ctrl: seq<byte>): set<Name>
    requires Sized(ctrl)
  {
    {name, LogName(name)} + (if RCount(ctrl) > 0 then {SnapName(ctrl)} else {})
  }

  /**
   * The two `SharedMemory(create=True, ...)` calls of `__init__`: the control segment
   * (under `name`, or an unused anonymous name; a size of zero is refused before a name
   * is drawn), then the log segment `<name>_memory`. Nothing else moves.
   */
  method CreateSegments(mem: Memory, name: Option<Name>, size: nat, controlSize: nat)
    returns (r: Result<(Name, array<byte>, array<byte>)>)
    requires mem.Valid()
    modifies mem
    ensures mem.Valid() && Extends(old(mem.segs), mem.segs) && mem.snapOf == old(mem.snapOf)
    ensures controlSize == 0 ==> r == Err(InvalidSize)
    ensures controlSize > 0 && name.Some? && name.value in old(mem.segs) ==> r == Err(AlreadyExists)
    ensures r.Ok? ==> var (n, control, buffer) := r.value;
      && fresh(control) && fresh(buffer) && control != buffer
      && (name.Some? ==> n == name.value) && n !in old(mem.segs)
      && n in mem.segs && mem.segs[n] == Live(control)
      && LogName(n) in mem.segs && mem.segs[LogName(n)] == Live(buffer)
      && control[..] == Zeros(controlSize) && buffer.Length == size
  {
    if controlSize == 0 {
      return Err(InvalidSize);
    }
    var n: Name;
    if name.Some? {
      n := name.value;
    } else {
      var f := mem.FreeName();
      if f.Err? {
        return Err(f.error);
      }
      n := f.value;
    }
    var ctl := mem.Create(n, controlSize);
    if ctl.Err? {
      return Err(ctl.error);
    }
    assert |LogName(n)| != |n|;
    var log := mem.Create(LogName(n), size);
    if log.Err? {
      return Err(log.error);
    }
    r := Ok((n, ctl.value, log.value));
  }

  /**
   * The control-block writes of `__init__` with `create=True` on a zeroed segment: the
   * descriptor's length and bytes, then the nested flag when the container is nested.
   */
  method WriteHeader(control: array<byte>, k: Kind, nested: bool)
    requires control[..] == Zeros(control.Length) && DescFits(control.Length, |EncKind(k)|)
    modifies control
    ensures control[..] == CreatedControl(control.Length, k, nested)
    ensures control.Length >= DESC_AT + 4 && RPos(control[..]) == 0 && RCount(control[..]) == 0
    ensures SnapName(control[..]) == [] && ReadDescriptor(control[..]) == Some(k)
    ensures NestedFlag(control[..]) == EffectiveNested(k, nested)
  {
    var d := EncKind(k);
    WriteBytes(control, DESC_AT, Le4(|d|));
    WriteBytes(control, DESC_AT + 4, d);
    if EffectiveNested(k, nested) {
      WriteBytes(control, FLAG_AT, [NESTED_MARK]);
    }
    CreatedControlFields(control.Length, k, nested);
  }

  /** What a creator leaves in a fresh control block: nothing published, the kind and the nested flag. */
  predicate Created(ctrl: seq<byte>, k: Kind, nested: bool) {
    && |ctrl| >= DESC_AT + 4 && RPos(ctrl) == 0 && RCount(ctrl) == 0 && SnapName(ctrl) == []
    && ReadDescriptor(ctrl) == Some(k) && NestedFlag(ctrl) == nested
  }

  /**
   * The segment work of `__init__` with `create=True` for a container of kind `k`: the
   * two segments, the descriptor guard (and a log too long for the 4-byte cursor), and
   * the control block's descriptor and flag.
   */
  method AllocateControl(mem: Memory, k: Kind, name: Option<Name>, size: nat, controlSize: nat, nested: bool)
    returns (r: Result<(Name, array<byte>, array<byte>)>)
    requires mem.Valid()
    modifies mem
    ensures mem.Valid() && Extends(old(mem.segs), mem.segs) && mem.snapOf == old(mem.snapOf)
    ensures controlSize == 0 ==> r == Err(InvalidSize)
    ensures controlSize > 0 && name.Some? && name.value in old(mem.segs) ==> r == Err(AlreadyExists)
    ensures !DescFits(controlSize, |EncKind(k)|) ==> r.Err?
    ensures r.Ok? ==> var (n, control, buffer) := r.value;
      && fresh(control) && fresh(buffer) && control != buffer
      && (name.Some? ==> n == name.value) && n !in old(mem.segs)
      && n in mem.segs && mem.segs[n] == Live(control)
      && LogName(n) in mem.segs && mem.segs[LogName(n)] == Live(buffer)
      && buffer.Length == size && size < U32_LIMIT
      && control[..] == CreatedControl(controlSize, k, nested) && Created(control[..], k, EffectiveNested(k, nested))
  {
    var seg := CreateSegments(mem, name, size, controlSize);
    if seg.Err? {
      return Err(seg.error);
    }
    var (n, control, buffer) := seg.value;
    if size >= U32_LIMIT || !DescFits(controlSize, |EncKind(k)|) {
      return Err(if size >= U32_LIMIT then Overflow else DescriptorTooLarge);
    }
    WriteHeader(control, k, nested);
    r := Ok((n, control, buffer));
  }

  class SharedObject {
    /** The namespace the container lives in. */
    const mem: Memory
    /** `name`: the control segment's name. */
    const name: Name
    /** `_control`: the counters, the nested flag, the snapshot name and the descriptor. */
    const control: array<byte>
    /** `_buffer`: the operation log; its length is `size`. */
    const buffer: array<byte>
    /** The kind `_obj_type` reconstructs. */
    const kind: Kind
    /** `_is_nested`. */
    const nested: bool
    /** `_shm_register`: the set of the names of promoted children (nested handles only). */
    const reg: SharedObject?
    /** `_update_stream_position`. */
    var pos: nat
    /** `_full_dump_counter`. */
    var counter: nat
    /** `data`: the local mirror. */
    var data: Mirror
    var closed: bool
    var unlinked: bool

    constructor Init(mem: Memory, name: Name, control: array<byte>, buffer: array<byte>,
                     kind: Kind, nested: bool, reg: SharedObject?)
      ensures this.mem == mem && this.name == name && this.control == control
      ensures this.buffer == buffer && this.kind == kind && this.nested == nested && this.reg == reg
      ensures pos == 0 && counter == 0 && data == Empty(kind) && !closed && !unlinked
    {
      this.mem := mem;
      this.name := name;
      this.control := control;
      this.buffer := buffer;
      this.kind := kind;
      this.nested := nested;
      this.reg := reg;
      pos := 0;
      counter := 0;
      data := Empty(kind);
      closed := false;
      unlinked := false;
    }

    /** The fixed shape of the segments: every control field is present, positions fit 32 bits. */
    predicate Layout() {
      && control.Length >= DESC_AT + 4
      && buffer.Length < U32_LIMIT
      && control != buffer
    }

    ghost predicate Valid()
      reads mem, control, if reg == null then {} else {reg.control}
    {
      && Layout() && mem.Valid() && Owns(mem, control)
      && (nested <==> reg != null)
      && (reg != null ==>
            && reg.Layout() && reg.mem == mem && reg.reg == null && !reg.nested
            && reg.control != control && reg.control != buffer
            && reg.buffer != control && reg.buffer != buffer
            && Owns(mem, reg.control))
    }

    /**
     * The register `reg` has recorded the name n: if its local state `view` was consistent
     * with its channel `before` when it pulled, it now publishes the set it pulled with n
     * added, its channel moved forward from `before`, and it is synced with it.
     */
    static ghost predicate Recorded(reg: SharedObject, before: Chan, view: View, n: Name)
      reads reg, reg.mem, reg.control, reg.buffer
      requires reg.Layout()
    {
      Consistent(before, view) ==>
        && Published(before).Some? && Apply(Published(before).value, Add(Str(n))) == Some(reg.data)
        && Advance(before, reg.Channel()) && Synced(reg.Channel(), reg.Local())
    }

    /**
     * The container named n, promoted from the plain container m, is bound to its
     * segments and publishes a state: m itself when m is of a kind that is never nested
     * (its items then stay as they are) and holds no duplicate.
     */
    static ghost predicate Hosts(segs: map<Name, Segment>, n: Name, m: Mirror)
      reads if Bound(segs, n).Some? then {Bound(segs, n).value.0, Bound(segs, n).value.1} else {}
    {
      && Bound(segs, n).Some?
      && var (c, l) := Bound(segs, n).value;
      && c.Length >= DESC_AT + 4 && Published(ChanOf(segs, c, l)).Some?
      && ((!EffectiveNested(m.kind, true) || Flat(m)) && WellFormed(m) ==> Published(ChanOf(segs, c, l)) == Some(m))
    }

    /**
     * The register `reg` is still consistent with its channel if it was before: the
     * steps of a mutation change the register only by recording a name, after which it
     * is synced, and publish nothing else through its control block.
     */
    static twostate predicate RegSteady(reg: SharedObject?)
      reads reg, if reg == null then {} else {reg.mem, reg.control, reg.buffer}
    {
      reg != null && reg.Layout() && old(Consistent(reg.Channel(), reg.Local())) ==>
        Consistent(reg.Channel(), reg.Local())
    }

    /** The register's state, which a mutation on a nested handle may change. */
    function Regs(): set<object> {
      RegFrame(reg)
    }

    /** The control blocks a mutation may publish through: its own and its register's. */
    function Writers(): set<array<byte>> {
      {control} + RegCtrl(reg)
    }

    /** The container's shared bytes as this handle reaches them. */
    function Channel(): Chan
      reads mem, control, buffer
      requires Layout()
    {
      Chan(control[..], buffer[..], SnapBytes(mem.segs, control[..]))
    }

    /** The handle's replication state. */
    function Local(): View
      reads this
    {
      View(pos, counter, data)
    }

    // ------------------------------------------------------------ pulling

    /**
     * `_load_full_object(force)`: load the snapshot the control block names, unless no
     * newer one was published and the load is not forced.
     */
    method LoadFull(force: bool) returns (r: Outcome)
      requires Layout()
      modifies this`pos, this`counter, this`data
      ensures !force && old(counter) >= old(RCount(control[..])) ==> r == Fail(NoNewSnapshot)
      ensures r.Pass? <==>
        (force || old(counter) < old(RCount(control[..]))) && old(Loadable(mem.segs, control[..])).Some?
      ensures r.Pass? ==> Local() == View(0, old(RCount(control[..])), old(Loadable(mem.segs, control[..])).value)
      ensures r.Fail? ==> Local() == old(Local())
    {
      var rc := RCount(control[..]);
      if !(force || counter < rc) {
        return Fail(NoNewSnapshot);
      }
      var n := SnapName(control[..]);
      if n !in mem.segs || !mem.segs[n].Snapshot? {
        return Fail(NotFound);
      }
      var m := DecodeSnapshot(mem.segs[n].bytes);
      if m.None? {
        return Fail(Corrupt);
      }
      data := m.value;
      counter := rc;
      pos := 0;
      return Pass;
    }

    /**
     * The loop of `apply_changes`: read the length of the record at the cursor, decode
     * the record, apply it to the mirror, move the cursor past it; until the cursor
     * reaches `end`. It replays exactly what `Resume` replays.
     */
    method ReplayTo(end: nat) returns (r: Outcome)
      requires Layout()
      modifies this`pos, this`data
      ensures r.Pass? <==> old(Resume(buffer[..], pos, end, data)).Some?
      ensures r.Pass? ==> pos == (if old(pos) < end then end else old(pos))
      ensures r.Pass? ==> data == old(Resume(buffer[..], pos, end, data)).value
    {
      ghost var log := buffer[..];
      ghost var goal := Resume(log, pos, end, data);
      if end <= pos {
        assert Records(log, pos, end) == Some([]);
        return Pass;
      }
      while pos < end
        invariant pos <= end
        invariant Resume(log, pos, end, data) == goal
        decreases end - pos
      {
        if end > buffer.Length || pos + 4 > end {
          ResumeShort(log, pos, end, data);
          return Fail(Corrupt);
        }
        var q := pos + 4 + FromLe4(buffer[pos..pos + 4]);
        if q > end {
          ResumeOverrun(log, pos, q, end, data);
          return Fail(Corrupt);
        }
        var op := DecodeOp(buffer[pos + 4..q]);
        if op.None? {
          ResumeUndecodable(log, pos, q, end, data);
          return Fail(Corrupt);
        }
        ResumeNext(log, pos, q, end, data, op.value);
        var res := ApplyOp(data, op.value);
        if res.Err? {
          return Fail(res.error);
        }
        data := res.value.0;
        pos := q;
      }
      ResumeDone(log, end, data);
      return Pass;
    }

    /**
     * `apply_changes`: load the newer snapshot if there is one, then replay the log
     * records from the handle's cursor up to the published cursor. On success the
     * handle holds exactly what `Catch` computes from the channel.
     */
    method Pull() returns (r: Outcome)
      requires Layout()
      modifies this`pos, this`counter, this`data
      ensures old(closed) ==> r == Fail(HandleClosed) && Local() == old(Local())
      ensures !old(closed) ==> (r.Pass? <==> Catch(old(Channel()), old(Local())).Some?)
      ensures r.Pass? ==> Local() == Catch(old(Channel()), old(Local())).value
      ensures r.Pass? && old(Consistent(Channel(), Local())) ==>
        Published(Channel()).Some? && Synced(Channel(), Local())
    {
      if closed {
        return Fail(HandleClosed);
      }
      ghost var c, v := Channel(), Local();
      var rc := RCount(control[..]);
      if counter < rc {
        BaseIsLoadable(mem.segs, control[..], buffer[..]);
        r := LoadFull(true);
        if r.Fail? {
          return;
        }
      }
      var end := RPos(control[..]);
      r := ReplayTo(end);
      if r.Pass? && Consistent(c, v) {
        CatchSynced(c, v);
      }
    }

    // ------------------------------------------------------------ writing

    /**
     * `_write_changes`: encode the operation; if its frame fits between the published
     * cursor and the end of the log, append it and move both cursors past it; otherwise
     * dump a snapshot of the mirror instead and log nothing. A writer that was synced
     * at `prior` before applying `op` to get its mirror is synced again afterwards.
     */
    method WriteChanges(op: Op, ghost prior: Mirror) returns (r: Outcome, ghost n: Name)
      requires Valid()
      modifies this`pos, this`counter, this`data, control, buffer, mem
      ensures Valid() && Moves(mem, {control})
      ensures old(closed) ==> r == Fail(HandleClosed) && Local() == old(Local())
      ensures !old(closed) && old(AppendEnd(Channel(), EncOp(op))) <= buffer.Length ==>
        && r == Pass
        && Channel() == AppendChan(old(Channel()), EncOp(op))
        && Local() == View(old(AppendEnd(Channel(), EncOp(op))), old(counter), old(data))
      ensures !old(closed) && old(AppendEnd(Channel(), EncOp(op))) > buffer.Length && r.Pass? ==>
        && ValidName(n) && old(RCount(control[..])) + 1 < U32_LIMIT && |EncMirror(data)| < U32_LIMIT
        && Channel() == DumpChan(old(Channel()), data, n)
      ensures r.Pass? && old(Synced(Channel(), View(pos, counter, prior))) && Apply(prior, op) == Some(old(data)) ==>
        Advance(old(Channel()), Channel()) && Synced(Channel(), Local()) && data == old(data)
    {
      n := [];
      if closed {
        return Fail(HandleClosed), n;
      }
      if RPos(control[..]) + 4 + |EncOp(op)| <= buffer.Length {
        AppendChanges(op, prior);
        r := Pass;
      } else {
        r, n := DumpChanges(prior, op);
      }
    }

    /** The append branch of `_write_changes`. */
    method AppendChanges(op: Op, ghost prior: Mirror)
      requires Valid() && AppendEnd(Channel(), EncOp(op)) <= buffer.Length
      modifies this`pos, control, buffer
      ensures Valid() && unchanged(mem)
      ensures Channel() == AppendChan(old(Channel()), EncOp(op))
      ensures Local() == View(old(AppendEnd(Channel(), EncOp(op))), old(counter), old(data))
      ensures old(Synced(Channel(), View(pos, counter, prior))) && Apply(prior, op) == Some(old(data)) ==>
        Advance(old(Channel()), Channel()) && Synced(Channel(), Local())
    {
      ghost var c, v := Channel(), View(pos, counter, prior);
      var e := EncOp(op);
      var end := RPos(control[..]) + 4 + |e|;
      AppendRecord(mem, control, buffer, e);
      pos := end;
      assert Channel() == AppendChan(c, e) && end == AppendEnd(c, e);
      if Synced(c, v) && Apply(prior, op) == Some(data) {
        AppendSynced(c, v, op, data);
      }
    }

    /** The dump branch of `_write_changes`. */
    method DumpChanges(ghost prior: Mirror, ghost op: Op) returns (r: Outcome, ghost n: Name)
      requires Valid()
      modifies this`pos, this`counter, this`data, control, mem
      ensures Valid() && Moves(mem, {control})
      ensures r.Pass? ==>
        && ValidName(n) && old(RCount(control[..])) + 1 < U32_LIMIT && |EncMirror(data)| < U32_LIMIT
        && Channel() == DumpChan(old(Channel()), data, n)
      ensures old(Synced(Channel(), View(pos, counter, prior))) && Apply(prior, op) == Some(old(data)) ==>
        r.Pass? ==> Advance(old(Channel()), Channel()) && Synced(Channel(), Local()) && data == old(data)
    {
      ghost var c, v, d0 := Channel(), View(pos, counter, prior), data;
      ghost var synced := Synced(c, v) && Apply(prior, op) == Some(data);
      if synced {
        CatchAtCursor(c, Local());
      }
      r, n := Redump();
      if r.Pass? && synced {
        assert Local() == View(0, v.counter + 1, d0) && Channel() == DumpChan(c, d0, n);
        DumpSynced(c, v, d0, n);
      }
    }

    /**
     * A mutating method on a handle (the `apply_changes_dec` and `write_changes_dec`
     * wrappers around the mirror's method): pull; on a nested handle, promote a
     * container item to a new shared child; apply the operation to the mirror; publish
     * it. A handle consistent with the channel publishes exactly the operation it
     * applied, on top of what the channel published before, and ends synced with it.
     */
    method Mutate(op: Op) returns (r: Result<Value>, ghost applied: Op)
      requires Valid()
      modifies this`pos, this`counter, this`data, control, buffer, mem, Regs()
      ensures Valid() && Moves(mem, Writers())
      ensures old(closed) ==> r == Err(HandleClosed)
      ensures r.Ok? ==> PromotedTo(nested, op, applied) && RegSteady(reg)
      ensures r.Ok? && old(Consistent(Channel(), Local())) ==>
        && old(Published(Channel())).Some?
        && ApplyOp(old(Published(Channel())).value, applied) == Ok((data, r.value))
        && Advance(old(Channel()), Channel()) && Synced(Channel(), Local())
      decreases ItemOf(op), 10
    {
      ghost var s0, o0 := mem.segs, mem.snapOf;
      var q := Prepare(op);
      if q.Err? {
        return Err(q.error), op;
      }
      var o := q.value;
      applied := o;
      ghost var s1, o1 := mem.segs, mem.snapOf;
      ghost var n;
      r, n := Commit(o);
      EvolvesTransitive(s0, o0, s1, o1, mem.segs, mem.snapOf, RegCtrl(reg), {control});
    }

    /**
     * What a mutating method does before it applies the operation: the pull, then, on a
     * nested handle, the promotion of a container item. The channel is left as it was;
     * a handle consistent with it ends synced with it.
     */
    method Prepare(op: Op) returns (r: Result<Op>)
      requires Valid()
      modifies this`pos, this`counter, this`data, mem, Regs()
      ensures Valid() && Moves(mem, RegCtrl(reg)) && Channel() == old(Channel())
      ensures old(closed) ==> r == Err(HandleClosed)
      ensures r.Ok? ==> PromotedTo(nested, op, r.value) && RegSteady(reg)
      ensures r.Ok? && old(Consistent(Channel(), Local())) ==>
        Published(Channel()).Some? && Synced(Channel(), Local())
      decreases ItemOf(op), 9
    {
      ghost var s0, o0 := mem.segs, mem.snapOf;
      var p := Pull();
      if p.Fail? {
        ExtendsEvolves(s0, mem.segs, o0, RegCtrl(reg));
        return Err(p.error);
      }
      r := PromoteItem(op);
    }

    /**
     * The first step of `write_changes_dec`: on a nested handle, an operation whose item
     * is a plain container is promoted; any other operation is applied as given. The
     * handle's own channel and local state are untouched.
     */
    method PromoteItem(op: Op) returns (r: Result<Op>)
      requires Valid()
      modifies mem, Regs()
      ensures Valid() && Moves(mem, RegCtrl(reg)) && Channel() == old(Channel()) && Local() == old(Local())
      ensures r.Ok? ==> PromotedTo(nested, op, r.value) && RegSteady(reg)
      decreases ItemOf(op), 8
    {
      if nested && Promotes(op) {
        assert this != reg;
        ghost var before, view;
        r, before, view := Promote(op);
      } else {
        ExtendsEvolves(mem.segs, mem.segs, mem.snapOf, RegCtrl(reg));
        r := Ok(op);
      }
    }

    /**
     * The promotion in `write_changes_dec`: the container item becomes a new nested
     * shared container of the same log size, sharing this handle's register, and its
     * name is added to the register; the operation then carries a handle on it. The
     * handle's own channel is untouched. The handle names a container that did not exist
     * before and whose control and log segments are now bound; `before` and `view` are
     * the register's channel and local state just before the name is added (the
     * population of the new container may itself have promoted items through it). A
     * register consistent with its channel on entry is so then, and ends synced.
     */
    method Promote(op: Op) returns (r: Result<Op>, ghost before: Chan, ghost view: View)
      requires Valid() && nested && Promotes(op)
      modifies mem, Regs()
      ensures Valid() && Moves(mem, RegCtrl(reg)) && Channel() == old(Channel())
      ensures r.Ok? ==> PromotedTo(true, op, r.value)
      ensures r.Ok? ==> var n := Slot(r.value).value.name;
        && n !in old(mem.segs) && Bound(mem.segs, n).Some?
        && Recorded(reg, before, view, n) && Hosts(mem.segs, n, Slot(op).value.m)
      ensures r.Ok? && old(Consistent(reg.Channel(), reg.Local())) ==> Consistent(before, view)
      ensures r.Ok? ==> RegSteady(reg)
      decreases ItemOf(op), 7
    {
      ghost var s0, o0 := mem.segs, mem.snapOf;
      ghost var ctl, log := control[..], buffer[..];
      ghost var steady := Consistent(reg.Channel(), reg.Local());
      var child;
      child, before, view := Spawn(mem, Slot(op).value.m, buffer.Length, reg, steady);
      SnapKept(s0, o0, mem.segs, mem.snapOf, RegCtrl(reg), control, ctl);
      assert control[..] == ctl && buffer[..] == log;
      if child.Err? {
        return Err(child.error), before, view;
      }
      var n := child.value;
      WithItemOnly(op, Handle(n), Handle(n));
      r := Ok(WithItem(op, Handle(n)));
    }

    /**
     * The child a promotion creates: a nested container holding `m`, with a fresh name,
     * a log of `size` bytes and the default control block, sharing the register `reg`,
     * its name then added to the register. The namespace moves for the register alone.
     * The child's name was free and now binds its control and log segments. `before` and
     * `view` are the register's channel and local state when the name is added: a
     * register consistent with its channel then publishes the set with the name added.
     * `steady` vouches that the register is consistent on entry; it then stays so.
     */
    static method Spawn(mem: Memory, m: Mirror, size: nat, reg: SharedObject, ghost steady: bool)
      returns (r: Result<Name>, ghost before: Chan, ghost view: View)
      requires mem.Valid() && reg.Valid() && reg.mem == mem && !reg.nested
      requires steady ==> Consistent(reg.Channel(), reg.Local())
      modifies mem, RegFrame(reg)
      ensures mem.Valid() && Moves(mem, RegCtrl(reg)) && reg.Valid()
      ensures r.Ok? ==> r.value !in old(mem.segs) && Bound(mem.segs, r.value).Some?
      ensures r.Ok? ==> Recorded(reg, before, view, r.value) && Hosts(mem.segs, r.value, m)
      ensures r.Ok? && steady ==> Consistent(before, view) && Consistent(reg.Channel(), reg.Local())
      decreases m, 7
    {
      ghost var s0, o0 := mem.segs, mem.snapOf;
      var child := Child(mem, m, size, reg, steady);
      if child.Err? {
        return Err(child.error), reg.Channel(), reg.Local();
      }
      r, before, view := Adopt(mem, reg, child.value, m, steady, s0, o0);
    }

    /**
     * The second half of `Spawn`: the child h, populated and bound since the namespace
     * was s0, has its name added to the register, and stays bound and published.
     * `before` and `view` are the register's channel and local state on entry.
     */
    static method Adopt(mem: Memory, reg: SharedObject, h: SharedObject, ghost m: Mirror, ghost steady: bool,
                        ghost s0: map<Name, Segment>, ghost o0: map<Name, array<byte>>)
      returns (r: Result<Name>, ghost before: Chan, ghost view: View)
      requires mem.Valid() && reg.Valid() && reg.mem == mem && !reg.nested
      requires Evolves(s0, o0, mem.segs, mem.snapOf, RegCtrl(reg)) && h.name !in s0
      requires steady ==> Consistent(reg.Channel(), reg.Local())
      requires h.Layout() && Owns(mem, h.control) && Bound(mem.segs, h.name) == Some((h.control, h.buffer))
      requires h.control != reg.control && h.control != reg.buffer && h.buffer != reg.control && h.buffer != reg.buffer
      requires Published(ChanOf(mem.segs, h.control, h.buffer)) == Some(h.data)
      requires (!EffectiveNested(m.kind, true) || Flat(m)) && WellFormed(m) ==> h.data == m
      modifies mem, RegFrame(reg)
      ensures mem.Valid() && Evolves(s0, o0, mem.segs, mem.snapOf, RegCtrl(reg)) && reg.Valid()
      ensures r.Ok? ==> r.value !in s0 && Bound(mem.segs, r.value).Some?
      ensures before == old(reg.Channel()) && view == old(reg.Local())
      ensures r.Ok? ==> r.value == h.name && Bound(mem.segs, h.name) == Some((h.control, h.buffer))
      ensures r.Ok? ==> Published(ChanOf(mem.segs, h.control, h.buffer)) == Some(h.data)
      ensures r.Ok? ==> Recorded(reg, before, view, r.value) && Hosts(mem.segs, r.value, m)
      ensures r.Ok? && steady ==> Consistent(before, view) && Consistent(reg.Channel(), reg.Local())
    {
      ghost var s1, o1 := mem.segs, mem.snapOf;
      ghost var c1 := ChanOf(s1, h.control, h.buffer);
      var rec;
      rec, before, view := reg.Enlist(h.name, steady);
      ChildKept(s1, o1, mem.segs, mem.snapOf, RegCtrl(reg), h.name, h.control, h.buffer, c1);
      EvolvesTransitive(s0, o0, s1, o1, mem.segs, mem.snapOf, RegCtrl(reg), RegCtrl(reg));
      if rec.Pass? && steady {
        SyncedIsFixed(reg.Channel(), reg.Local());
      }
      r := if rec.Pass? then Ok(h.name) else Err(rec.error);
    }

    /**
     * `SharedObject(item, is_nested=True, size=..., register=...)` as a promotion creates
     * it: a fresh name bound to fresh segments, publishing the item as `CreateFrom` says.
     * A register consistent with its channel on entry (`steady`) is still so.
     */
    static method Child(mem: Memory, m: Mirror, size: nat, reg: SharedObject, ghost steady: bool)
      returns (r: Result<SharedObject>)
      requires mem.Valid() && reg.Valid() && reg.mem == mem && !reg.nested
      requires steady ==> Consistent(reg.Channel(), reg.Local())
      modifies mem, RegFrame(reg)
      ensures mem.Valid() && Moves(mem, RegCtrl(reg)) && reg.Valid()
      ensures r.Ok? ==> var h := r.value;
        && fresh(h.control) && fresh(h.buffer) && h.Layout() && Owns(mem, h.control)
        && h.name !in old(mem.segs) && Bound(mem.segs, h.name) == Some((h.control, h.buffer))
        && Published(ChanOf(mem.segs, h.control, h.buffer)) == Some(h.data)
        && ((!EffectiveNested(m.kind, true) || Flat(m)) && WellFormed(m) ==> h.data == m)
      ensures r.Ok? && steady ==> Consistent(reg.Channel(), reg.Local())
      decreases m, 6
    {
      r := CreateFrom(mem, m, None, size, DEFAULT_CONTROL_SIZE, true, reg);
    }

    /** `Record` on the register of a promotion; `before` and `view` are its state on entry. */
    method Enlist(n: Name, ghost steady: bool) returns (r: Outcome, ghost before: Chan, ghost view: View)
      requires Valid() && !nested && (steady ==> Consistent(Channel(), Local()))
      modifies this`pos, this`counter, this`data, control, buffer, mem
      ensures Valid() && Moves(mem, {control})
      ensures before == old(Channel()) && view == old(Local())
      ensures r.Pass? ==> Recorded(this, before, view, n)
      ensures steady ==> Consistent(before, view)
    {
      before, view := Channel(), Local();
      r := Record(n);
    }

    /**
     * `self._shm_register.add(item.name)` on the register, a plain set container: pull,
     * add the name, publish. A register consistent with its channel publishes the set
     * with the name added and ends synced with it.
     */
    method Record(n: Name) returns (r: Outcome)
      requires Valid() && !nested
      modifies this`pos, this`counter, this`data, control, buffer, mem
      ensures Valid() && Moves(mem, {control})
      ensures r.Pass? && old(Consistent(Channel(), Local())) ==>
        && old(Published(Channel())).Some?
        && Apply(old(Published(Channel())).value, Add(Str(n))) == Some(data)
        && Advance(old(Channel()), Channel()) && Synced(Channel(), Local())
    {
      ghost var c0, v0 := Channel(), Local();
      r := Pull();
      if r.Fail? {
        return;
      }
      if Consistent(c0, v0) {
        CatchSynced(c0, v0);
      }
      var res, _ := Commit(Add(Str(n)));
      r := if res.Ok? then Pass else Fail(res.error);
    }

    // ------------------------------------------------------------ bulk mutations

    /**
     * The loop of `extend`, `extendleft` and `update`: one mutation per element of
     * `other`, in order, stopping at the first that fails. A handle synced when the
     * loop starts publishes every operation it applied and ends synced.
     */
    method Feed(b: Mode, other: Mirror) returns (r: Outcome, ghost applied: seq<Op>)
      requires Valid() && (b.Sets? ==> other.Mapping?)
      modifies this`pos, this`counter, this`data, control, buffer, mem, Regs()
      ensures Valid() && Moves(mem, Writers())
      ensures r.Pass? ==> PromotedAll(nested, BulkOps(b, other), applied) && RegSteady(reg)
      ensures r.Pass? && old(Synced(Channel(), Local())) ==>
        && ApplyAll(old(data), applied) == Some(data)
        && Advance(old(Channel()), Channel()) && Synced(Channel(), Local())
      decreases other, 1
    {
      applied := [];
      ghost var c0, d0 := Channel(), data;
      ghost var synced := Synced(c0, Local());
      ghost var s0, o0 := mem.segs, mem.snapOf;
      ghost var steady := reg != null && Consistent(reg.Channel(), reg.Local());
      if synced {
        AdvanceReflexive(c0, Local());
      }
      for i := 0 to Length(other)
        invariant Valid() && Evolves(s0, o0, mem.segs, mem.snapOf, Writers())
        invariant |applied| == i && forall j :: 0 <= j < i ==> PromotedTo(nested, BulkOp(b, other, j), applied[j])
        invariant synced ==> Advance(c0, Channel()) && Synced(Channel(), Local()) && ApplyAll(d0, applied) == Some(data)
        invariant steady ==> reg != null && Consistent(reg.Channel(), reg.Local())
      {
        var res, a := FeedNext(b, other, i, s0, o0, c0, d0, applied, synced);
        if res.Err? {
          return Fail(res.error), applied;
        }
        applied := applied + [a];
      }
      r := Pass;
    }

    /**
     * One turn of the bulk loop: the mutation for element i of `other`. The namespace
     * keeps moving only for this handle's writers since (s0, o0); the operations applied
     * for the elements so far are extended by this one; and a handle that is synced, has
     * advanced from `c0` and holds `d0` with `applied` replayed onto it stays so.
     */
    method FeedNext(b: Mode, other: Mirror, i: nat,
                    ghost s0: map<Name, Segment>, ghost o0: map<Name, array<byte>>,
                    ghost c0: Chan, ghost d0: Mirror, ghost applied: seq<Op>, ghost synced: bool)
      returns (r: Result<Value>, ghost a: Op)
      requires Valid() && i < Length(other) && (b.Sets? ==> other.Mapping?)
      requires Evolves(s0, o0, mem.segs, mem.snapOf, Writers())
      requires |applied| == i && forall j :: 0 <= j < i ==> PromotedTo(nested, BulkOp(b, other, j), applied[j])
      requires synced ==> Advance(c0, Channel()) && Synced(Channel(), Local()) && ApplyAll(d0, applied) == Some(data)
      modifies this`pos, this`counter, this`data, control, buffer, mem, Regs()
      ensures Valid() && Evolves(s0, o0, mem.segs, mem.snapOf, Writers())
      ensures r.Ok? ==> forall j :: 0 <= j < i + 1 ==> PromotedTo(nested, BulkOp(b, other, j), (applied + [a])[j])
      ensures r.Ok? ==> RegSteady(reg)
      ensures r.Ok? && synced ==>
        Advance(c0, Channel()) && Synced(Channel(), Local()) && ApplyAll(d0, applied + [a]) == Some(data)
      decreases other, 0
    {
      ghost var c1, v1 := Channel(), Local();
      ghost var s1, o1 := mem.segs, mem.snapOf;
      BulkItemSmaller(b, other, i);
      r, a := Mutate(BulkOp(b, other, i));
      EvolvesTransitive(s0, o0, s1, o1, mem.segs, mem.snapOf, Writers(), Writers());
      if r.Ok? {
        PromotedNext(nested, b, other, applied, a, i);
        if synced {
          FeedStep(c0, c1, Channel(), v1, Local(), d0, applied, a, r.value);
        }
      }
    }

    /**
     * `extend` (with `Appends`) and `extendleft` (with `AppendLefts`): pull, then the
     * loop. A handle consistent with the channel publishes every element, in order, on
     * top of what the channel published before.
     */
    method Extend(b: Mode, other: Mirror) returns (r: Outcome, ghost applied: seq<Op>)
      requires Valid() && (b.Appends? || b.AppendLefts?)
      modifies this`pos, this`counter, this`data, control, buffer, mem, Regs()
      ensures Valid() && Moves(mem, Writers())
      ensures old(closed) ==> r == Fail(HandleClosed)
      ensures r.Pass? ==> PromotedAll(nested, BulkOps(b, other), applied) && RegSteady(reg)
      ensures r.Pass? && old(Consistent(Channel(), Local())) ==>
        && old(Published(Channel())).Some?
        && ApplyAll(old(Published(Channel())).value, applied) == Some(data)
        && Advance(old(Channel()), Channel()) && Synced(Channel(), Local())
      decreases other, 2
    {
      applied := [];
      ghost var c0, v0 := Channel(), Local();
      r := Pull();
      if r.Fail? {
        return;
      }
      if Consistent(c0, v0) {
        CatchSynced(c0, v0);
      }
      r, applied := Feed(b, other);
    }

    /**
     * `update`: pull; on a mapping, `self[key] = item` for each entry of `other` (which
     * must be a mapping: other values have no `items()`); otherwise `self.add(item)` for
     * each element. `b` is the loop the pulled mirror selects.
     */
    method Update(other: Mirror) returns (r: Outcome, ghost applied: seq<Op>, ghost b: Mode)
      requires Valid()
      modifies this`pos, this`counter, this`data, control, buffer, mem, Regs()
      ensures Valid() && Moves(mem, Writers())
      ensures old(closed) ==> r == Fail(HandleClosed)
      ensures r.Pass? ==> (b.Sets? || b.Adds?) && (b.Sets? ==> other.Mapping?)
      ensures r.Pass? ==> PromotedAll(nested, BulkOps(b, other), applied) && RegSteady(reg)
      ensures r.Pass? && old(Consistent(Channel(), Local())) ==>
        && old(Published(Channel())).Some?
        && (b.Sets? <==> old(Published(Channel())).value.Mapping?)
        && ApplyAll(old(Published(Channel())).value, applied) == Some(data)
        && Advance(old(Channel()), Channel()) && Synced(Channel(), Local())
      decreases other, 2
    {
      var mode := Adds;
      applied, b := [], mode;
      ghost var c0, v0 := Channel(), Local();
      r := Pull();
      if r.Fail? {
        return;
      }
      if Consistent(c0, v0) {
        CatchSynced(c0, v0);
      }
      if data.Mapping? {
        if !other.Mapping? {
          return Fail(AttributeError), applied, b;
        }
        mode := Sets;
        b := mode;
      }
      r, applied := Feed(mode, other);
    }

    // ------------------------------------------------------------ creating

    /**
     * `__init__` with `create=True` for a container of kind `k`, up to population: the
     * two segments and the control block, and, for a nested container that was handed
     * no register, a new register: an empty set container `<name>_register` with the
     * default sizes (populating an empty set only pulls, which changes nothing on a
     * fresh channel). The handle starts empty, with nothing published.
     */
    static method Allocate(mem: Memory, k: Kind, name: Option<Name>, size: nat, controlSize: nat,
                           nested: bool, reg: SharedObject?) returns (r: Result<SharedObject>)
      requires mem.Valid()
      requires reg != null ==> reg.Valid() && reg.mem == mem && !reg.nested
      modifies mem
      ensures mem.Valid() && Extends(old(mem.segs), mem.segs) && mem.snapOf == old(mem.snapOf)
      ensures reg != null ==> reg.Valid() && reg.Channel() == old(reg.Channel())
      ensures controlSize == 0 ==> r == Err(InvalidSize)
      ensures controlSize > 0 && name.Some? && name.value in old(mem.segs) ==> r == Err(AlreadyExists)
      ensures !DescFits(controlSize, |EncKind(k)|) ==> r.Err?
      ensures r.Ok? ==> var h := r.value;
        && fresh(h) && fresh(h.control) && fresh(h.buffer)
        && (h.reg != null && h.reg != reg ==> fresh(h.reg) && fresh(h.reg.control) && fresh(h.reg.buffer))
        && h.mem == mem && h.kind == k && h.nested == EffectiveNested(k, nested)
        && (h.nested && reg != null ==> h.reg == reg)
        && (name.Some? ==> h.name == name.value) && h.name !in old(mem.segs)
        && h.name in mem.segs && mem.segs[h.name] == Live(h.control)
        && LogName(h.name) in mem.segs && mem.segs[LogName(h.name)] == Live(h.buffer)
        && h.buffer.Length == size && Created(h.control[..], k, EffectiveNested(k, nested))
        && h.Valid() && h.Local() == View(0, 0, Empty(k)) && !h.closed && !h.unlinked
    {
      ghost var s0, o0 := mem.segs, mem.snapOf;
      ghost var rch: Chan;
      if reg != null {
        rch := ChanOf(s0, reg.control, reg.buffer);
      }
      var seg := AllocateControl(mem, k, name, size, controlSize, nested);
      if reg != null {
        ExtendsEvolves(s0, mem.segs, o0, {});
        ChanKept(s0, o0, mem.segs, o0, {}, reg.control, reg.buffer, rch);
      }
      if seg.Err? {
        return Err(seg.error);
      }
      var (n, control, buffer) := seg.value;
      ghost var bytes := control[..];
      var register: SharedObject? := null;
      if EffectiveNested(k, nested) {
        if reg != null {
          register := reg;
        } else {
          var rr := NewRegister(mem, n);
          if rr.Err? {
            return Err(rr.error);
          }
          register := rr.value;
        }
      }
      var h := new SharedObject.Init(mem, n, control, buffer, k, EffectiveNested(k, nested), register);
      assert control[..] == bytes;
      r := Ok(h);
    }

    /**
     * `SharedObject(obj=set(), create=True, name=f'{name}_register', is_nested=False)`:
     * the register of the nested container `name`, an empty set container with the
     * default sizes (populating an empty set only pulls, which changes nothing on a
     * fresh channel).
     */
    static method NewRegister(mem: Memory, n: Name) returns (r: Result<SharedObject>)
      requires mem.Valid()
      modifies mem
      ensures mem.Valid() && Extends(old(mem.segs), mem.segs) && mem.snapOf == old(mem.snapOf)
      ensures r.Ok? ==> var h := r.value;
        && fresh(h) && fresh(h.control) && fresh(h.buffer)
        && h.mem == mem && h.kind == Set && !h.nested && h.name == RegisterName(n)
        && h.Valid() && h.Local() == View(0, 0, Empty(Set))
    {
      var seg := CreateSegments(mem, Some(RegisterName(n)), 10_000, DEFAULT_CONTROL_SIZE);
      if seg.Err? {
        return Err(seg.error);
      }
      var (rn, control, buffer) := seg.value;
      assert EncKind(Set) == [2];
      WriteHeader(control, Set, false);
      assert Created(control[..], Set, EffectiveNested(Set, false));
      var h := new SharedObject.Init(mem, rn, control, buffer, Set, false, null);
      r := Ok(h);
    }

    /**
     * `__init__` with `create=True` for the container value `m`: allocate, then populate
     * (see `Populate` for what the new handle then holds). The new handle is synced with
     * its channel, and the namespace moved only through the register.
     */
    static method CreateFrom(mem: Memory, m: Mirror, name: Option<Name>, size: nat, controlSize: nat,
                             nested: bool, reg: SharedObject?) returns (r: Result<SharedObject>)
      requires mem.Valid()
      requires reg != null ==> reg.Valid() && reg.mem == mem && !reg.nested
      modifies mem, RegFrame(reg)
      ensures mem.Valid() && Moves(mem, RegCtrl(reg))
      ensures reg != null ==> reg.Valid()
      ensures controlSize == 0 ==> r == Err(InvalidSize)
      ensures controlSize > 0 && name.Some? && name.value in old(mem.segs) ==> r == Err(AlreadyExists)
      ensures !DescFits(controlSize, |EncKind(m.kind)|) ==> r.Err?
      ensures r.Ok? ==> var h := r.value;
        && fresh(h) && h.Valid() && h.mem == mem && h.kind == m.kind
        && h.nested == EffectiveNested(m.kind, nested)
        && (h.nested && reg != null ==> h.reg == reg)
        && fresh(h.control) && fresh(h.buffer)
        && h.name !in old(mem.segs) && Bound(mem.segs, h.name) == Some((h.control, h.buffer))
        && Synced(h.Channel(), h.Local())
        && ((!h.nested || Flat(m)) && WellFormed(m) ==> h.data == m)
      ensures r.Ok? ==> RegSteady(reg)
      decreases m, 5
    {
      ghost var s0, o0 := mem.segs, mem.snapOf;
      ghost var steady := reg != null && Consistent(reg.Channel(), reg.Local());
      var a := Allocate(mem, m.kind, name, size, controlSize, nested, reg);
      if a.Err? {
        ExtendsEvolves(s0, mem.segs, o0, RegCtrl(reg));
        return Err(a.error);
      }
      var h := a.value;
      forall n | n in o0
        ensures o0[n] !in h.Writers() - RegCtrl(reg)
      {
      }
      ghost var s1 := mem.segs;
      ghost var o1 := mem.snapOf;
      assert steady ==> Consistent(reg.Channel(), reg.Local());
      var p := h.Fill(m, EffectiveNested(m.kind, nested), reg);
      assert LiveKept(s1, mem.segs, h.name) && LiveKept(s1, mem.segs, LogName(h.name));
      CreationEvolves(s0, o0, s1, mem.segs, mem.snapOf, h.Writers(), RegCtrl(reg));
      if p.Fail? {
        return Err(p.error);
      }
      r := Ok(h);
    }

    /**
     * `SharedObject(obj, create=True, ...)`: a value is required and must be a container
     * of a supported kind; then the container is created from it (see `CreateFrom`).
     */
    static method Create(mem: Memory, obj: Option<Value>, name: Option<Name>, size: nat, controlSize: nat,
                         nested: bool, reg: SharedObject?) returns (r: Result<SharedObject>)
      requires mem.Valid()
      requires reg != null ==> reg.Valid() && reg.mem == mem && !reg.nested
      modifies mem, RegFrame(reg)
      ensures mem.Valid() && Moves(mem, RegCtrl(reg))
      ensures obj.None? ==> r == Err(MissingValue) && mem.segs == old(mem.segs)
      ensures obj.Some? && !obj.value.Inline? ==> r == Err(UnsupportedKind) && mem.segs == old(mem.segs)
      ensures obj.Some? && obj.value.Inline? && controlSize == 0 ==> r == Err(InvalidSize)
      ensures obj.Some? && obj.value.Inline? && controlSize > 0 && name.Some? && name.value in old(mem.segs) ==>
        r == Err(AlreadyExists)
      ensures obj.Some? && obj.value.Inline? && !DescFits(controlSize, |EncKind(obj.value.m.kind)|) ==> r.Err?
      ensures r.Ok? ==> var h := r.value;
        && obj.Some? && obj.value.Inline? && fresh(h) && h.Valid() && h.mem == mem && h.kind == obj.value.m.kind
        && h.nested == EffectiveNested(h.kind, nested)
        && (h.nested && reg != null ==> h.reg == reg)
        && fresh(h.control) && fresh(h.buffer)
        && h.name !in old(mem.segs) && Bound(mem.segs, h.name) == Some((h.control, h.buffer))
        && Synced(h.Channel(), h.Local())
        && ((!h.nested || Flat(obj.value.m)) && WellFormed(obj.value.m) ==> h.data == obj.value.m)
    {
      if obj.None? {
        ExtendsEvolves(mem.segs, mem.segs, mem.snapOf, RegCtrl(reg));
        return Err(MissingValue);
      }
      if !obj.value.Inline? {
        ExtendsEvolves(mem.segs, mem.segs, mem.snapOf, RegCtrl(reg));
        return Err(UnsupportedKind);
      }
      r := CreateFrom(mem, obj.value.m, name, size, controlSize, nested, reg);
    }

    /**
     * `Populate` as `CreateFrom` uses it: the handle ends synced, holding a plain value as
     * given. `outer` is the register the creator was handed: this handle's own register
     * when it is nested, otherwise one it never writes to.
     */
    method Fill(m: Mirror, ghost flag: bool, ghost outer: SharedObject?) returns (r: Outcome)
      requires Valid() && kind == m.kind && nested == flag
      requires Local() == View(0, 0, Empty(m.kind)) && Created(control[..], m.kind, flag)
      requires outer != null ==> outer.Valid() && outer.mem == mem && !outer.nested
      requires outer != null && outer != reg ==>
        && reg == null && outer.control != control && outer.control != buffer
        && outer.buffer != control && outer.buffer != buffer
      modifies this`pos, this`counter, this`data, control, buffer, mem, Regs()
      ensures Valid() && Moves(mem, Writers())
      ensures outer != null ==> outer.Valid()
      ensures r.Pass? ==> Synced(Channel(), Local()) && ((!flag || Flat(m)) && WellFormed(m) ==> data == m)
      ensures r.Pass? ==> RegSteady(outer)
      decreases m, 4
    {
      ghost var s0, o0 := mem.segs, mem.snapOf;
      ghost var ob := if outer != null then outer.control[..] else [];
      ghost var applied;
      r, applied := Populate(m, flag);
      if outer != null && outer != reg {
        SnapKept(s0, o0, mem.segs, mem.snapOf, Writers(), outer.control, ob);
      }
    }

    /**
     * The population step of `__init__`: `extend(obj)` for a list or deque,
     * `update(obj)` for the other kinds, on a handle that was just created empty.
     */
    method Populate(m: Mirror, ghost flag: bool) returns (r: Outcome, ghost applied: seq<Op>)
      requires Valid() && kind == m.kind && nested == flag
      requires Local() == View(0, 0, Empty(m.kind)) && Created(control[..], m.kind, flag)
      modifies this`pos, this`counter, this`data, control, buffer, mem, Regs()
      ensures Valid() && Moves(mem, Writers())
      ensures r.Pass? ==> RegSteady(reg)
      ensures r.Pass? ==>
        && Synced(Channel(), Local())
        && (PopulateMode(m.kind).Sets? ==> m.Mapping?)
        && PromotedAll(nested, BulkOps(PopulateMode(m.kind), m), applied)
        && ApplyAll(Empty(m.kind), applied) == Some(data)
      ensures r.Pass? && (!flag || Flat(m)) && WellFormed(m) ==> data == m
      decreases m, 3
    {
      CreatedSynced(Channel(), kind);
      SyncedIsFixed(Channel(), Local());
      if m.kind.List? || m.kind.Deque? {
        r, applied := Extend(Appends, m);
      } else {
        ghost var b;
        r, applied, b := Update(m);
      }
      if r.Pass? && (!flag || Flat(m)) && WellFormed(m) {
        if flag {
          FlatAppliesAsGiven(flag, PopulateMode(m.kind), m, applied);
        } else {
          PlainAppliesAsGiven(BulkOps(PopulateMode(m.kind), m), applied);
        }
        PopulateRebuilds(m);
      }
    }

    /**
     * The body of a mutating method once the pull is done: apply the operation to the
     * mirror, then `_write_changes`. A handle synced with the channel publishes exactly
     * the operation applied to what the channel published, and stays synced. An
     * operation that fails changes neither the mirror nor the channel.
     */
    method Commit(op: Op) returns (r: Result<Value>, ghost n: Name)
      requires Valid()
      modifies this`pos, this`counter, this`data, control, buffer, mem
      ensures Valid() && Moves(mem, {control})
      ensures reg != null ==> reg.Channel() == old(reg.Channel())
      ensures old(closed) ==> r.Err?
      ensures r.Ok? && old(Synced(Channel(), Local())) ==>
        && old(Published(Channel())).Some?
        && ApplyOp(old(Published(Channel())).value, op) == Ok((data, r.value))
        && Advance(old(Channel()), Channel()) && Synced(Channel(), Local())
      ensures ApplyOp(old(data), op).Err? ==>
        r == Err(ApplyOp(old(data), op).error) && Local() == old(Local()) && Channel() == old(Channel())
    {
      n := [];
      ghost var prior := data;
      var res := ApplyOp(data, op);
      if res.Err? {
        return Err(res.error), n;
      }
      data := res.value.0;
      assert Apply(prior, op) == Some(data);
      var wr;
      ghost var s0, o0 := mem.segs, mem.snapOf;
      ghost var rch: Chan;
      if reg != null {
        rch := ChanOf(s0, reg.control, reg.buffer);
      }
      wr, n := WriteChanges(op, prior);
      if reg != null {
        ChanKept(s0, o0, mem.segs, mem.snapOf, {control}, reg.control, reg.buffer, rch);
      }
      if wr.Fail? {
        return Err(wr.error), n;
      }
      r := Ok(res.value.1);
    }

    /**
     * `dump_full_object`: pull, then serialise the mirror into a new anonymous segment,
     * name it in the control block, move both counters on by one and both cursors to 0,
     * and unlink the snapshot named before. On success the channel is `DumpChan` of the
     * channel before, for the mirror the pull produced.
     */
    method Dump() returns (r: Outcome, ghost n: Name)
      requires Valid()
      modifies this`pos, this`counter, this`data, control, mem
      ensures Valid() && Moves(mem, {control})
      ensures r.Fail? ==> control[..] == old(control[..]) && mem.segs == old(mem.segs)
      ensures r.Pass? ==> !old(closed) && Catch(old(Channel()), old(Local())).Some?
      ensures r.Pass? ==>
        && ValidName(n) && old(RCount(control[..])) + 1 < U32_LIMIT && |EncMirror(data)| < U32_LIMIT
        && Channel() == DumpChan(old(Channel()), data, n)
      ensures r.Pass? ==> var v := Catch(old(Channel()), old(Local())).value;
        Local() == View(0, v.counter + 1, v.data)
    {
      n := [];
      r := Pull();
      if r.Fail? {
        return;
      }
      r, n := WriteSnapshot();
    }

    /** `dump_full_object` as `_write_changes` calls it, on a handle that may already be synced. */
    method Redump() returns (r: Outcome, ghost n: Name)
      requires Valid()
      modifies this`pos, this`counter, this`data, control, mem
      ensures Valid() && Moves(mem, {control})
      ensures r.Pass? ==>
        && ValidName(n) && old(RCount(control[..])) + 1 < U32_LIMIT && |EncMirror(data)| < U32_LIMIT
        && Channel() == DumpChan(old(Channel()), data, n)
      ensures r.Pass? && old(Catch(Channel(), Local())) == Some(old(Local())) ==>
        Local() == View(0, old(counter) + 1, old(data))
    {
      r, n := Dump();
    }

    /**
     * `dump_full_object` after its pull: publish the mirror as a new snapshot and move
     * the local counter on by one and the local cursor to 0.
     */
    method WriteSnapshot() returns (r: Outcome, ghost n: Name)
      requires Valid()
      modifies this`pos, this`counter, control, mem
      ensures Valid() && Moves(mem, {control})
      ensures r.Fail? ==> control[..] == old(control[..]) && mem.segs == old(mem.segs)
      ensures r.Pass? ==>
        && ValidName(n) && old(RCount(control[..])) + 1 < U32_LIMIT && |EncMirror(data)| < U32_LIMIT
        && Channel() == DumpChan(old(Channel()), data, n)
        && pos == 0 && counter == old(counter) + 1
    {
      var other := if reg == null then control else reg.control;
      r, n := DumpMirror(mem, control, buffer, data, reg != null, other, other[..]);
      if r.Fail? {
        return;
      }
      counter, pos := counter + 1, 0;
    }

    // ------------------------------------------------------------ attaching

    /** What every handle keeps: the layout of its segments and a register exactly when nested. */
    predicate Shape() {
      && Layout() && (nested <==> reg != null)
      && (reg != null ==> reg.Layout() && reg.reg == null && !reg.nested)
    }

    /**
     * The first steps of `__init__` with `create=False`: attach the control segment
     * `name` and the log segment `<name>_memory`, then read the descriptor.
     */
    static method Bind(mem: Memory, name: Name) returns (r: Result<(array<byte>, array<byte>, Kind)>)
      ensures Bound(mem.segs, name).None? ==> r == Err(NotFound)
      ensures Bound(mem.segs, name).Some? ==> var (c, l) := Bound(mem.segs, name).value;
        && (Readable(c, l).None? ==> r == Err(Corrupt))
        && (Readable(c, l).Some? ==> r == Ok((c, l, Readable(c, l).value)))
    {
      var c := mem.Open(name);
      if c.Err? {
        return Err(c.error);
      }
      var l := mem.Open(LogName(name));
      if l.Err? {
        return Err(l.error);
      }
      var control, buffer := c.value, l.value;
      if !(control.Length >= DESC_AT + 4 && buffer.Length < U32_LIMIT && control != buffer) {
        return Err(Corrupt);
      }
      var k := ReadDescriptor(control[..]);
      if k.None? {
        return Err(Corrupt);
      }
      r := Ok((control, buffer, k.value));
    }

    /**
     * The last steps of `__init__` with `create=False`: a handle at cursor 0 and counter
     * 0 holding the empty container, then `apply_changes`. It succeeds exactly when the
     * channel publishes a state, and the handle then holds that state.
     */
    static method Connect(mem: Memory, name: Name, c: array<byte>, l: array<byte>, k: Kind,
                          nested: bool, rg: SharedObject?) returns (r: Result<SharedObject>)
      requires Readable(c, l) == Some(k)
      requires nested <==> rg != null
      requires rg != null ==> rg.Layout() && rg.reg == null && !rg.nested
      ensures r.Ok? <==> Published(ChanOf(mem.segs, c, l)).Some?
      ensures r.Ok? ==> var h := r.value;
        && fresh(h) && h.mem == mem && h.name == name && h.control == c && h.buffer == l
        && h.kind == k && h.nested == nested && h.reg == rg && h.Shape()
        && !h.closed && !h.unlinked
        && Synced(h.Channel(), h.Local())
    {
      var h := new SharedObject.Init(mem, name, c, l, k, nested, rg);
      AttachCatches(h.Channel(), k);
      var p := h.Pull();
      if p.Fail? {
        return Err(p.error);
      }
      r := Ok(h);
    }

    /**
     * `SharedObject(create=False, name=f'{name}_register')`: attach the register of a
     * nested container. A register is never nested itself; one whose flag says so is
     * refused as corrupt.
     */
    static method AttachRegister(mem: Memory, name: Name) returns (r: Result<SharedObject>)
      ensures Bound(mem.segs, name).None? ==> r == Err(NotFound)
      ensures r.Ok? ==> var h := r.value;
        && fresh(h) && h.mem == mem && h.name == name && Bound(mem.segs, name) == Some((h.control, h.buffer))
        && !h.nested && h.reg == null && h.Shape() && !h.closed && !h.unlinked
        && Synced(h.Channel(), h.Local())
    {
      var b := Bind(mem, name);
      if b.Err? {
        return Err(b.error);
      }
      var (c, l, k) := b.value;
      if NestedFlag(c[..]) {
        return Err(Corrupt);
      }
      r := Connect(mem, name, c, l, k, false, null);
    }

    /**
     * `__init__` with `create=False` and no value: attach both segments, reconstruct
     * the kind from the descriptor and the nesting from the flag, take the register
     * that was handed over or attach `<name>_register`, then pull. The new handle holds
     * exactly the state the channel publishes.
     */
    static method Attach(mem: Memory, name: Name, reg: SharedObject?) returns (r: Result<SharedObject>)
      requires reg != null ==> reg.Layout() && reg.reg == null && !reg.nested
      ensures Bound(mem.segs, name).None? ==> r == Err(NotFound)
      ensures Bound(mem.segs, name).Some? && Readable(Bound(mem.segs, name).value.0, Bound(mem.segs, name).value.1).None? ==>
        r == Err(Corrupt)
      ensures r.Ok? ==> var h := r.value;
        && fresh(h) && h.mem == mem && h.name == name && Bound(mem.segs, name) == Some((h.control, h.buffer))
        && Readable(h.control, h.buffer) == Some(h.kind) && h.nested == NestedFlag(h.control[..])
        && (h.nested && reg != null ==> h.reg == reg)
        && (h.nested && reg == null ==> fresh(h.reg) && h.reg.name == RegisterName(name))
        && h.Shape() && !h.closed && !h.unlinked
        && Synced(h.Channel(), h.Local())
      ensures Bound(mem.segs, name).Some? ==> var (c, l) := Bound(mem.segs, name).value;
        Readable(c, l).Some? && !NestedFlag(c[..]) ==> (r.Ok? <==> Published(ChanOf(mem.segs, c, l)).Some?)
    {
      var b := Bind(mem, name);
      if b.Err? {
        return Err(b.error);
      }
      var (c, l, k) := b.value;
      var nested := NestedFlag(c[..]);
      var rg: SharedObject? := null;
      if nested {
        if reg != null {
          rg := reg;
        } else {
          var a := AttachRegister(mem, RegisterName(name));
          if a.Err? {
            return Err(a.error);
          }
          rg := a.value;
        }
      }
      r := Connect(mem, name, c, l, k, nested, rg);
    }

    /** `Attach` as the unlinking steps use it: only where the handle's segments come from. */
    static method Reopen(mem: Memory, name: Name, reg: SharedObject?) returns (r: Result<SharedObject>)
      requires reg != null ==> reg.Layout() && reg.reg == null && !reg.nested
      ensures Bound(mem.segs, name).None? ==> r == Err(NotFound)
      ensures r.Ok? ==> var h := r.value;
        && fresh(h) && Bound(mem.segs, name) == Some((h.control, h.buffer)) && Readable(h.control, h.buffer).Some?
    {
      r := Attach(mem, name, reg);
    }

    // ------------------------------------------------------------ reading

    /**
     * A reading method under `apply_changes_dec` (`__getitem__`, `__contains__`,
     * `__len__`, `get`, `keys`, `count`, `index`, the set algebra, `__eq__`): pull,
     * then answer from the mirror. A handle consistent with the channel answers from
     * exactly the state the channel publishes.
     */
    method Query(q: Query) returns (r: Result<Value>)
      requires Layout()
      modifies this`pos, this`counter, this`data
      ensures old(closed) ==> r == Err(HandleClosed)
      ensures !old(closed) && Catch(old(Channel()), old(Local())).None? ==> r.Err?
      ensures !old(closed) && Catch(old(Channel()), old(Local())).Some? ==>
        Local() == Catch(old(Channel()), old(Local())).value && r == Eval(data, q)
      ensures !old(closed) && Catch(old(Channel()), old(Local())).Some? && old(Consistent(Channel(), Local())) ==>
        Published(Channel()) == Some(data) && r == Eval(Published(Channel()).value, q)
    {
      var p := Pull();
      if p.Fail? {
        return Err(p.error);
      }
      r := Eval(data, q);
    }

    /**
     * `copy`: pull, then copy the mirror; a nested container copies every child through
     * the child's own `copy`, which `copyOf` stands for.
     */
    method CopyOut(copyOf: Name -> Result<Mirror>) returns (r: Result<Mirror>)
      requires Layout()
      modifies this`pos, this`counter, this`data
      ensures old(closed) ==> r == Err(HandleClosed)
      ensures !old(closed) && Catch(old(Channel()), old(Local())).Some? ==>
        Local() == Catch(old(Channel()), old(Local())).value && r == Copy(data, nested, copyOf)
      ensures !old(closed) && Catch(old(Channel()), old(Local())).Some? && old(Consistent(Channel(), Local())) ==>
        Published(Channel()) == Some(data) && r == Copy(Published(Channel()).value, nested, copyOf)
    {
      var p := Pull();
      if p.Fail? {
        return Err(p.error);
      }
      r := Copy(data, nested, copyOf);
    }

    // ------------------------------------------------------------ closing and unlinking

    /**
     * `close`: detach from the segments and mark the handle closed; closing a closed
     * handle changes nothing. Every later pull then fails.
     */
    method Close() returns (r: bool)
      modifies this`closed
      ensures r && closed
    {
      if closed {
        return true;
      }
      closed := true;
      return true;
    }

    /**
     * `unlink_shm_by_name`: remove the segment `n` from the namespace; whether it was
     * there is the result.
     */
    static method UnlinkByName(mem: Memory, n: Name) returns (found: bool)
      requires mem.Valid()
      modifies mem
      ensures mem.Valid()
      ensures found == (n in old(mem.segs))
      ensures mem.segs == old(mem.segs) - {n}
    {
      found := mem.Unlink(n);
    }

    /**
     * `_unlink_shm_object_by_name`: attach the container `name` (which pulls), unlink
     * its control and log segments and, once a snapshot was published, the snapshot
     * its control block names; then close the attached handle. When the attach fails
     * nothing is unlinked.
     */
    static method UnlinkObjectByName(mem: Memory, name: Name, reg: SharedObject?) returns (r: Outcome)
      requires mem.Valid()
      requires reg != null ==> reg.Layout() && reg.reg == null && !reg.nested
      modifies mem
      ensures mem.Valid()
      ensures Bound(old(mem.segs), name).None? ==> r == Fail(NotFound)
      ensures r.Fail? ==> mem.segs == old(mem.segs)
      ensures r.Pass? ==> Bound(old(mem.segs), name).Some? && var (c, l) := Bound(old(mem.segs), name).value;
        && Readable(c, l).Some?
        && mem.segs == old(mem.segs) - ObjectSegments(name, c[..])
    {
      var a := Reopen(mem, name, reg);
      if a.Err? {
        return Fail(a.error);
      }
      var h := a.value;
      var _ := mem.Unlink(name);
      var _ := mem.Unlink(LogName(name));
      if RCount(h.control[..]) > 0 {
        var _ := UnlinkByName(mem, SnapName(h.control[..]));
      }
      var _ := h.Close();
      r := Pass;
    }

    /** `_unlink_shm_object_by_name` as `unlink` uses it: the two segments of `n` are gone. */
    static method UnlinkNamed(mem: Memory, n: Name, reg: SharedObject?) returns (r: Outcome)
      requires mem.Valid()
      requires reg != null ==> reg.Layout() && reg.reg == null && !reg.nested
      modifies mem
      ensures mem.Valid() && mem.segs.Keys <= old(mem.segs.Keys)
      ensures r.Pass? ==> n !in mem.segs && LogName(n) !in mem.segs
    {
      r := UnlinkObjectByName(mem, n, reg);
    }

    /** `len(self)`: pull, then the length of the pulled mirror. */
    method Size() returns (r: Result<nat>)
      requires Layout()
      modifies this`pos, this`counter, this`data
      ensures old(closed) ==> r == Err(HandleClosed)
      ensures !old(closed) && Catch(old(Channel()), old(Local())).None? ==> r.Err?
      ensures r.Ok? ==>
        && !old(closed) && Catch(old(Channel()), old(Local())).Some?
        && Local() == Catch(old(Channel()), old(Local())).value && r.value == Length(data)
      ensures r.Ok? && old(Consistent(Channel(), Local())) ==> Published(Channel()) == Some(data)
    {
      var p := Pull();
      if p.Fail? {
        return Err(p.error);
      }
      r := Ok(Length(data));
    }

    /**
     * The loop of `_unlink_all_shm_objects` over the register's names: unlink each
     * child, attached with the register; a name that is not a string stops it.
     */
    static method UnlinkChildren(mem: Memory, children: seq<Value>, reg: SharedObject) returns (r: Outcome)
      requires mem.Valid() && reg.Layout() && reg.reg == null && !reg.nested
      modifies mem
      ensures mem.Valid() && mem.segs.Keys <= old(mem.segs.Keys)
      ensures r.Pass? ==> forall v :: v in children ==> v.Str? && v.s !in mem.segs && LogName(v.s) !in mem.segs
    {
      for i := 0 to |children|
        invariant mem.Valid() && mem.segs.Keys <= old(mem.segs.Keys)
        invariant forall j :: 0 <= j < i ==>
          children[j].Str? && children[j].s !in mem.segs && LogName(children[j].s) !in mem.segs
      {
        if !children[i].Str? {
          return Fail(TypeError);
        }
        var u := UnlinkNamed(mem, children[i].s, reg);
        if u.Fail? {
          return u;
        }
      }
      return Pass;
    }

    /**
     * The nested part of `_unlink_all_shm_objects`: pull the register (its `len`
     * pulls); when it names children, unlink each of them, attached with the same
     * register; then close the register and unlink the register container itself.
     * The children unlinked are the register's pulled set, which is the published
     * set when the register was consistent.
     */
    static method UnlinkRegistered(mem: Memory, name: Name, reg: SharedObject) returns (r: Outcome)
      requires mem.Valid() && reg.Layout() && reg.reg == null && !reg.nested
      modifies mem, reg
      ensures mem.Valid() && mem.segs.Keys <= old(mem.segs.Keys)
      ensures r.Pass? ==>
        && RegisterName(name) !in mem.segs && LogName(RegisterName(name)) !in mem.segs
        && reg.closed
        && Catch(old(reg.Channel()), old(reg.Local())).Some?
        && reg.Local() == Catch(old(reg.Channel()), old(reg.Local())).value
        && forall v :: v in Iterate(reg.data) ==> v.Str? && v.s !in mem.segs && LogName(v.s) !in mem.segs
      ensures r.Pass? && old(Consistent(reg.Channel(), reg.Local())) ==> old(Published(reg.Channel())) == Some(reg.data)
    {
      var n := reg.Size();
      if n.Err? {
        return Fail(n.error);
      }
      if n.value > 0 {
        r := UnlinkChildren(mem, Iterate(reg.data), reg);
        if r.Fail? {
          return;
        }
      }
      var _ := reg.Close();
      r := UnlinkNamed(mem, RegisterName(name), null);
    }

    /**
     * `unlink`: unlink the container's own segments; for a nested container, pull the
     * register (its `len` pulls), unlink every child it names, close it and unlink the
     * register's own segments. Unlinking twice unlinks once. The namespace only loses
     * names.
     */
    method Unlink() returns (r: Outcome)
      requires Shape() && mem.Valid()
      modifies this`unlinked, mem, if reg == null then {} else {reg}
      ensures mem.Valid() && mem.segs.Keys <= old(mem.segs.Keys)
      ensures old(unlinked) ==> r == Pass && mem.segs == old(mem.segs) && (reg != null ==> unchanged(reg))
      ensures unlinked == (old(unlinked) || r.Pass?)
      ensures r.Pass? && !old(unlinked) ==> name !in mem.segs && LogName(name) !in mem.segs
      ensures r.Pass? && !old(unlinked) && nested ==>
        && RegisterName(name) !in mem.segs && LogName(RegisterName(name)) !in mem.segs
        && reg.closed
        && forall v :: v in Iterate(reg.data) ==> v.Str? && v.s !in mem.segs && LogName(v.s) !in mem.segs
      ensures r.Pass? && !old(unlinked) && nested && old(Valid()) && old(Bound(mem.segs, name)) == Some((control, buffer)) ==>
        && Catch(old(reg.Channel()), old(reg.Local())).Some?
        && reg.Local() == Catch(old(reg.Channel()), old(reg.Local())).value
        && (old(Consistent(reg.Channel(), reg.Local())) ==> old(Published(reg.Channel())) == Some(reg.data))
    {
      if unlinked {
        return Pass;
      }
      ghost var valid := Valid() && Bound(mem.segs, name) == Some((control, buffer));
      ghost var segs0, snapOf0, ctl0 := mem.segs, mem.snapOf, control[..];
      ghost var regCtl := if reg == null then [] else reg.control[..];
      r := UnlinkObjectByName(mem, name, reg);
      if r.Fail? {
        return;
      }
      if nested {
        if valid {
          OtherSnapKept(segs0, snapOf0, name, control, ctl0, reg.control, regCtl);
        }
        r := UnlinkRegistered(mem, name, reg);
        if r.Fail? {
          return;
        }
      }
      unlinked := true;
    }
  }
}
