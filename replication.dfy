/**
 * What the formats and the channel functions guarantee: records and snapshots read
 * back as written, a reader that pulls reaches the published state, and every write
 * of the writer moves the channel forward without breaking any reader.
 */
module Replication {
  import opened Basics
  import opened LittleEndian
  import opened Values
  import opened Containers
  import opened Codec
  import opened ControlBlock
  import opened OpLog
  import opened Protocol

  // ---------------------------------------------------------------- framing

  /** The length field of a written frame reads back as the payload's length. */
  lemma {:induction false} FrameHeader(log: seq<byte>, p: nat, e: seq<byte>)
    requires |e| < U32_LIMIT && p + 4 + |e| <= |log|
    requires log[p..p + 4 + |e|] == Frame(e)
    ensures FromLe4(log[p..p + 4]) == |e|
    ensures log[p + 4..p + 4 + |e|] == e
  {
    var f := Frame(e);
    assert log[p..p + 4] == f[..4];
    assert f[..4] == Le4(|e|);
    FromLe4Le4(|e|);
    assert log[p + 4..p + 4 + |e|] == f[4..];
  }

  /** A frame written at p reads back, alone, as its payload. */
  lemma {:induction false} FrameAt(log: seq<byte>, p: nat, e: seq<byte>)
    requires |e| < U32_LIMIT && p + 4 + |e| <= |log|
    requires log[p..p + 4 + |e|] == Frame(e)
    ensures Frames(log, p, p + 4 + |e|) == Some([e])
  {
    var q := p + 4 + |e|;
    FrameHeader(log, p, e);
    assert Frames(log, q, q) == Some([]);
    assert [e] + [] == [e];
  }

  /** A range that splits into frames and is not empty starts with a whole frame. */
  lemma {:induction false} FramesHead(log: seq<byte>, p: nat, end: nat) returns (q: nat)
    requires p < end && Frames(log, p, end).Some?
    ensures end <= |log| && p + 4 <= end
    ensures q == p + 4 + FromLe4(log[p..p + 4]) && q <= end
    ensures Frames(log, q, end).Some?
    ensures Frames(log, p, end).value == [log[p + 4..q]] + Frames(log, q, end).value
  {
    q := p + 4 + FromLe4(log[p..p + 4]);
  }

  /** Reading up to e passes through every frame boundary m that a shorter read reaches. */
  lemma {:induction false} FramesSplit(log: seq<byte>, p: nat, m: nat, e: nat)
    requires p <= m <= e <= |log|
    requires Frames(log, p, m).Some?
    ensures Frames(log, p, e) ==
      match Frames(log, m, e)
      case Some(b) => Some(Frames(log, p, m).value + b)
      case None => None
    decreases m - p
  {
    if p < m {
      var q := FramesHead(log, p, m);
      var head := log[p + 4..q];
      var rest := Frames(log, q, m).value;
      FramesSplit(log, q, m, e);
      match Frames(log, m, e)
      case Some(b) =>
        assert Frames(log, q, e) == Some(rest + b);
        assert [head] + (rest + b) == ([head] + rest) + b;
      case None =>
        assert Frames(log, q, e) == None;
    } else {
      match Frames(log, m, e)
      case Some(b) => assert [] + b == b;
      case None =>
    }
  }

  /** Reading frames looks only at the bytes before `end`. */
  lemma {:induction false} FramesAgree(l0: seq<byte>, l1: seq<byte>, p: nat, end: nat)
    requires end <= |l0| && end <= |l1| && l0[..end] == l1[..end]
    ensures Frames(l0, p, end) == Frames(l1, p, end)
    decreases end - p
  {
    if p < end && p + 4 <= end {
      PrefixSlice(l0, l1, end, p, p + 4);
      var q := p + 4 + FromLe4(l0[p..p + 4]);
      if q <= end {
        PrefixSlice(l0, l1, end, p + 4, q);
        FramesAgree(l0, l1, q, end);
      }
    }
  }

  /** Two buffers with a common prefix agree on every slice inside it. */
  lemma {:induction false} PrefixSlice(l0: seq<byte>, l1: seq<byte>, end: nat, i: nat, j: nat)
    requires end <= |l0| && end <= |l1| && l0[..end] == l1[..end] && i <= j <= end
    ensures l0[i..j] == l1[i..j]
  {
    assert l0[i..j] == l0[..end][i..j];
    assert l1[i..j] == l1[..end][i..j];
  }

  // ---------------------------------------------------------------- records

  /** Decoding payloads one after the other decodes their concatenation. */
  lemma {:induction false} DecodeOpsAppend(a: seq<seq<byte>>, b: seq<seq<byte>>)
    requires DecodeOps(a).Some?
    ensures DecodeOps(a + b) ==
      match DecodeOps(b)
      case Some(y) => Some(DecodeOps(a).value + y)
      case None => None
    decreases |a|
  {
    if a == [] {
      assert a + b == b;
      match DecodeOps(b)
      case Some(y) => assert [] + y == y;
      case None =>
    } else {
      assert (a + b)[0] == a[0];
      assert (a + b)[1..] == a[1..] + b;
      DecodeOpsAppend(a[1..], b);
      match DecodeOps(b)
      case Some(y) =>
        var x := DecodeOps(a[1..]).value;
        assert [DecodeOp(a[0]).value] + (x + y) == ([DecodeOp(a[0]).value] + x) + y;
      case None =>
    }
  }

  /** One payload that decodes to op reads as the one-record log [op]. */
  lemma {:induction false} DecodeOne(e: seq<byte>, op: Op)
    requires DecodeOp(e) == Some(op)
    ensures DecodeOps([e]) == Some([op])
  {
    assert [e][1..] == [];
    assert [op] + [] == [op];
  }

  /** The records up to e are the records up to any boundary m, then those from m to e. */
  lemma {:induction false} RecordsSplit(log: seq<byte>, p: nat, m: nat, e: nat)
    requires p <= m <= e <= |log|
    requires Records(log, p, m).Some?
    ensures Records(log, p, e) ==
      match Records(log, m, e)
      case Some(b) => Some(Records(log, p, m).value + b)
      case None => None
  {
    FramesSplit(log, p, m, e);
    match Frames(log, m, e)
    case Some(fb) => DecodeOpsAppend(Frames(log, p, m).value, fb);
    case None =>
  }

  /** The records up to `end` depend only on the bytes before `end`. */
  lemma {:induction false} RecordsAgree(l0: seq<byte>, l1: seq<byte>, p: nat, end: nat)
    requires end <= |l0| && end <= |l1| && l0[..end] == l1[..end]
    ensures Records(l0, p, end) == Records(l1, p, end)
  {
    FramesAgree(l0, l1, p, end);
  }

  lemma {:induction false} SnapshotRoundTrip(m: Mirror)
    requires |EncMirror(m)| < U32_LIMIT
    ensures DecodeSnapshot(SnapshotBytes(m)) == Some(m)
  {
    var b := SnapshotBytes(m);
    assert b[..4] == Le4(|EncMirror(m)|);
    FromLe4Le4(|EncMirror(m)|);
    assert b[4..4 + |EncMirror(m)|] == EncMirror(m);
    DecodeEncodeMirror(m);
  }

  // ---------------------------------------------------------------- readers

  /** A consistent handle that pulls ends with the published state at the published cursor. */
  lemma {:induction false} CatchUp(c: Chan, v: View)
    requires Consistent(c, v) && Published(c).Some?
    ensures Catch(c, v) == Some(View(RPos(c.control), RCount(c.control), Published(c).value))
  {
    var rc, end := RCount(c.control), RPos(c.control);
    var base := Base(c).value;
    var all := Records(c.log, 0, end).value;
    if v.counter < rc {
      if 0 < end {
        assert Resume(c.log, 0, end, base) == Published(c);
      } else {
        assert all == [];
      }
    } else {
      var pre := Records(c.log, 0, v.pos).value;
      if v.pos < end {
        RecordsSplit(c.log, 0, v.pos, end);
        var post := Records(c.log, v.pos, end).value;
        assert all == pre + post;
        ApplyAllAppend(base, pre, post);
      }
    }
  }

  /** Replaying from the end of the range replays nothing. */
  lemma {:induction false} ResumeDone(log: seq<byte>, end: nat, d: Mirror)
    ensures Resume(log, end, end, d) == Some(d)
  {
    assert Records(log, end, end) == Some([]);
  }

  /** Replay fails when the length prefix of the next record is not there. */
  lemma {:induction false} ResumeShort(log: seq<byte>, p: nat, end: nat, d: Mirror)
    requires p < end && (end > |log| || p + 4 > end)
    ensures Resume(log, p, end, d) == None
  {
  }

  /** Replay fails when the next record runs past the end. */
  lemma {:induction false} ResumeOverrun(log: seq<byte>, p: nat, q: nat, end: nat, d: Mirror)
    requires p + 4 <= end <= |log| && q == p + 4 + FromLe4(log[p..p + 4]) && q > end
    ensures Resume(log, p, end, d) == None
  {
  }

  /** Replay fails when the next record does not decode. */
  lemma {:induction false} ResumeUndecodable(log: seq<byte>, p: nat, q: nat, end: nat, d: Mirror)
    requires p + 4 <= end <= |log| && q == p + 4 + FromLe4(log[p..p + 4]) && q <= end
    requires DecodeOp(log[p + 4..q]).None?
    ensures Resume(log, p, end, d) == None
  {
    match Frames(log, q, end)
    case None =>
    case Some(rest) =>
      assert Frames(log, p, end) == Some([log[p + 4..q]] + rest);
  }

  /** The records from `p` are the record at `p` followed by the records from the next one. */
  lemma {:induction false} RecordsNext(log: seq<byte>, p: nat, q: nat, end: nat, op: Op)
    requires p + 4 <= end <= |log| && q == p + 4 + FromLe4(log[p..p + 4]) && q <= end
    requires DecodeOp(log[p + 4..q]) == Some(op)
    ensures Records(log, q, end).None? ==> Records(log, p, end).None?
    ensures Records(log, q, end).Some? ==> Records(log, p, end) == Some([op] + Records(log, q, end).value)
  {
    var pl := log[p + 4..q];
    match Frames(log, q, end)
    case None =>
    case Some(rest) =>
      assert Frames(log, p, end) == Some([pl] + rest);
      assert ([pl] + rest)[1..] == rest;
      match DecodeOps(rest)
      case None =>
      case Some(ops) =>
        assert DecodeOps([pl] + rest) == Some([op] + ops);
  }

  /**
   * Replaying from `p` is applying the record at `p`, then replaying from the next
   * record on; it fails when applying the record fails.
   */
  lemma {:induction false} ResumeNext(log: seq<byte>, p: nat, q: nat, end: nat, d: Mirror, op: Op)
    requires p + 4 <= end <= |log| && q == p + 4 + FromLe4(log[p..p + 4]) && q <= end
    requires DecodeOp(log[p + 4..q]) == Some(op)
    ensures Apply(d, op).None? ==> Resume(log, p, end, d) == None
    ensures Apply(d, op).Some? ==> Resume(log, p, end, d) == Resume(log, q, end, Apply(d, op).value)
  {
    RecordsNext(log, p, q, end, op);
    match Records(log, q, end)
    case None =>
    case Some(ops) =>
      ApplyAllCons(d, op, ops);
  }

  /** A synced view is consistent, and pulling leaves it as it is. */
  lemma {:induction false} SyncedIsFixed(c: Chan, v: View)
    requires Synced(c, v)
    ensures Consistent(c, v) && Catch(c, v) == Some(v)
  {
    CatchUp(c, v);
  }

  // ---------------------------------------------------------------- the writer

  lemma {:induction false} AdvanceTransitive(c0: Chan, c1: Chan, c2: Chan)
    requires Advance(c0, c1) && Advance(c1, c2)
    ensures Advance(c0, c2)
  {
    if RCount(c2.control) == RCount(c0.control) {
      var p := RPos(c0.control);
      assert c0.log[..p] == c1.log[..RPos(c1.control)][..p] == c2.log[..p];
    }
  }

  /** Whatever the writer does that advances the channel keeps every reader consistent. */
  lemma {:induction false} AdvanceKeepsConsistent(c0: Chan, c1: Chan, v: View)
    requires Consistent(c0, v) && Advance(c0, c1)
    ensures Consistent(c1, v)
  {
    if v.counter == RCount(c1.control) {
      var p := RPos(c0.control);
      assert c0.log[..v.pos] == c0.log[..p][..v.pos] == c1.log[..v.pos];
      RecordsAgree(c0.log, c1.log, 0, v.pos);
    }
  }

  /** An append leaves the control block's counter, name and descriptor, so the base, as they were. */
  lemma {:induction false} AppendKeepsBase(c: Chan, e: seq<byte>)
    requires Sized(c.control) && AppendEnd(c, e) <= |c.log| < U32_LIMIT
    ensures RCount(AppendChan(c, e).control) == RCount(c.control)
    ensures RPos(AppendChan(c, e).control) == AppendEnd(c, e)
    ensures Base(AppendChan(c, e)) == Base(c)
  {
    SetRPosFields(c.control, AppendEnd(c, e));
    SameBase(c, AppendChan(c, e));
  }

  /** The base depends only on the counter, the descriptor and the snapshot. */
  lemma {:induction false} SameBase(c0: Chan, c1: Chan)
    requires Sized(c0.control) && Sized(c1.control)
    requires RCount(c0.control) == RCount(c1.control) && c0.snap == c1.snap
    requires ReadDescriptorBytes(c0.control) == ReadDescriptorBytes(c1.control)
    ensures Base(c0) == Base(c1)
  {
  }

  /** After an append the log reads as the old records followed by the new one. */
  lemma {:induction false} AppendRecords(c: Chan, e: seq<byte>, op: Op)
    requires Sized(c.control) && AppendEnd(c, e) <= |c.log| < U32_LIMIT
    requires DecodeOp(e) == Some(op)
    requires Records(c.log, 0, RPos(c.control)).Some?
    ensures c.log[..RPos(c.control)] == AppendChan(c, e).log[..RPos(c.control)]
    ensures Records(AppendChan(c, e).log, 0, AppendEnd(c, e))
         == Some(Records(c.log, 0, RPos(c.control)).value + [op])
  {
    assert AppendChan(c, e).log == Splice(c.log, RPos(c.control), Frame(e));
    SpliceParses(c.log, RPos(c.control), e, op);
  }

  /** Writing the frame of a payload that decodes to op at the end of the records adds op. */
  lemma {:induction false} SpliceParses(log: seq<byte>, start: nat, e: seq<byte>, op: Op)
    requires |e| < U32_LIMIT && start + 4 + |e| <= |log|
    requires DecodeOp(e) == Some(op)
    requires Records(log, 0, start).Some?
    ensures log[..start] == Splice(log, start, Frame(e))[..start]
    ensures Records(Splice(log, start, Frame(e)), 0, start + 4 + |e|)
         == Some(Records(log, 0, start).value + [op])
  {
    var log1 := Splice(log, start, Frame(e));
    var end := start + 4 + |e|;
    SpliceOutside(log, start, Frame(e), 0, start);
    RecordsAgree(log, log1, 0, start);
    SpliceInside(log, start, Frame(e), start, end);
    FrameAt(log1, start, e);
    DecodeOne(e, op);
    assert Records(log1, start, end) == Some([op]);
    RecordsSplit(log1, 0, start, end);
  }

  /**
   * Appending the frame of a payload that decodes to op moves the channel forward and
   * publishes op applied to the old state.
   */
  lemma {:induction false} AppendPublishes(c: Chan, e: seq<byte>, op: Op)
    requires Sized(c.control) && AppendEnd(c, e) <= |c.log| < U32_LIMIT
    requires DecodeOp(e) == Some(op)
    requires Published(c).Some?
    ensures Advance(c, AppendChan(c, e))
    ensures RPos(AppendChan(c, e).control) == AppendEnd(c, e)
    ensures RCount(AppendChan(c, e).control) == RCount(c.control)
    ensures Published(AppendChan(c, e)) == Apply(Published(c).value, op)
  {
    AppendKeepsBase(c, e);
    AppendRecords(c, e, op);
    PublishedStep(c, AppendChan(c, e), op);
  }

  /** A channel whose base is unchanged and whose records gained op publishes op applied. */
  lemma {:induction false} PublishedStep(c0: Chan, c1: Chan, op: Op)
    requires Sized(c0.control) && Sized(c1.control) && Base(c1) == Base(c0)
    requires Published(c0).Some?
    requires Records(c1.log, 0, RPos(c1.control))
          == Some(Records(c0.log, 0, RPos(c0.control)).value + [op])
    ensures Published(c1) == Apply(Published(c0).value, op)
  {
    ApplyAllAppend(Base(c0).value, Records(c0.log, 0, RPos(c0.control)).value, [op]);
  }

  /** A dump writes the control fields and the snapshot segment, and leaves the log alone. */
  lemma {:induction false} DumpFields(c: Chan, m: Mirror, name: Name)
    requires Sized(c.control) && ValidName(name)
    requires RCount(c.control) + 1 < U32_LIMIT && |EncMirror(m)| < U32_LIMIT
    ensures RCount(DumpChan(c, m, name).control) == RCount(c.control) + 1
    ensures RPos(DumpChan(c, m, name).control) == 0
    ensures SnapName(DumpChan(c, m, name).control) == name
    ensures ReadDescriptorBytes(DumpChan(c, m, name).control) == ReadDescriptorBytes(c.control)
    ensures DumpChan(c, m, name).snap == Some(SnapshotBytes(m))
  {
    var c1 := DumpChan(c, m, name);
    assert c1.control == PublishSnapshot(c.control, name, RCount(c.control) + 1);
    PublishSnapshotFields(c.control, name, RCount(c.control) + 1);
  }

  /** A dump moves the channel forward and publishes exactly the dumped mirror. */
  lemma {:induction false} DumpPublishes(c: Chan, m: Mirror, name: Name)
    requires Sized(c.control) && ValidName(name)
    requires RCount(c.control) + 1 < U32_LIMIT && |EncMirror(m)| < U32_LIMIT
    ensures Advance(c, DumpChan(c, m, name))
    ensures RCount(DumpChan(c, m, name).control) == RCount(c.control) + 1
    ensures RPos(DumpChan(c, m, name).control) == 0
    ensures SnapName(DumpChan(c, m, name).control) == name
    ensures Published(DumpChan(c, m, name)) == Some(m)
  {
    DumpFields(c, m, name);
    DumpBase(c, m, name);
    PublishedAtZero(DumpChan(c, m, name), m);
  }

  /** With the cursor at 0 nothing is replayed: the published state is the base. */
  lemma {:induction false} PublishedAtZero(d: Chan, m: Mirror)
    requires Sized(d.control) && RPos(d.control) == 0 && Base(d) == Some(m)
    ensures Published(d) == Some(m)
  {
    assert Records(d.log, 0, 0) == Some([]);
  }

  /** After a dump the base is the dumped mirror. */
  lemma {:induction false} DumpBase(c: Chan, m: Mirror, name: Name)
    requires Sized(c.control) && ValidName(name)
    requires RCount(c.control) + 1 < U32_LIMIT && |EncMirror(m)| < U32_LIMIT
    ensures Base(DumpChan(c, m, name)) == Some(m)
  {
    DumpFields(c, m, name);
    SnapshotRoundTrip(m);
    SnapshotBase(DumpChan(c, m, name), SnapshotBytes(m));
  }

  /** Once a snapshot was published, the base is what the snapshot segment decodes to. */
  lemma {:induction false} SnapshotBase(d: Chan, b: seq<byte>)
    requires Sized(d.control) && RCount(d.control) != 0 && d.snap == Some(b)
    ensures Base(d) == DecodeSnapshot(b)
  {
  }
  // ---------------------------------------------------------------- pulling twice

  /** A pulled view has the published counter and has read at least to the published cursor. */
  lemma {:induction false} CatchReachesCursor(c: Chan, v: View)
    requires Sized(c.control) && Catch(c, v).Some?
    ensures Catch(c, v).value.counter >= RCount(c.control)
    ensures Catch(c, v).value.pos >= RPos(c.control)
  {
  }

  /** A view already at the published cursor and counter has nothing to pull. */
  lemma {:induction false} CatchAtCursor(c: Chan, v: View)
    requires Sized(c.control) && v.counter == RCount(c.control) && v.pos == RPos(c.control)
    ensures Catch(c, v) == Some(v)
  {
  }

  /** Pulling twice is pulling once: a second pull finds nothing new. */
  lemma {:induction false} CatchIdempotent(c: Chan, v: View)
    requires Sized(c.control) && Catch(c, v).Some?
    ensures Catch(c, Catch(c, v).value) == Catch(c, v)
  {
    CatchReachesCursor(c, v);
  }

  /** A consistent view that pulls successfully ends synced with the channel. */
  lemma {:induction false} CatchSynced(c: Chan, v: View)
    requires Consistent(c, v) && Catch(c, v).Some?
    ensures Published(c).Some? && Synced(c, Catch(c, v).value)
  {
    var rc, end := RCount(c.control), RPos(c.control);
    if v.counter == rc && v.pos < end {
      var pre := Records(c.log, 0, v.pos).value;
      RecordsSplit(c.log, 0, v.pos, end);
      var post := Records(c.log, v.pos, end).value;
      ApplyAllAppend(Base(c).value, pre, post);
    }
    CatchUp(c, v);
  }

  // ---------------------------------------------------------------- one mutation

  /**
   * The writer's append of one applied operation: the channel moves forward and the
   * writer stays synced, now with the mirror the operation produced.
   */
  lemma {:induction false} AppendSynced(c: Chan, v: View, op: Op, m: Mirror)
    requires Synced(c, v) && Apply(v.data, op) == Some(m)
    requires AppendEnd(c, EncOp(op)) <= |c.log| < U32_LIMIT
    ensures Advance(c, AppendChan(c, EncOp(op)))
    ensures Synced(AppendChan(c, EncOp(op)), View(AppendEnd(c, EncOp(op)), v.counter, m))
  {
    DecodeEncodeOp(op);
    AppendPublishes(c, EncOp(op), op);
  }

  /** The writer's dump of the mirror m: the channel moves forward and publishes exactly m. */
  lemma {:induction false} DumpSynced(c: Chan, v: View, m: Mirror, name: Name)
    requires Sized(c.control) && v.counter == RCount(c.control) && ValidName(name)
    requires RCount(c.control) + 1 < U32_LIMIT && |EncMirror(m)| < U32_LIMIT
    ensures Advance(c, DumpChan(c, m, name))
    ensures Synced(DumpChan(c, m, name), View(0, v.counter + 1, m))
  {
    DumpPublishes(c, m, name);
  }

  /**
   * One mutation by a consistent writer: it pulls to `w`, applies `op` to get `m`, then
   * either appends the record (`c1` is `AppendChan`) or, when the record does not fit,
   * pulls again and dumps (`c1` is `DumpChan`). Either way the channel moves forward, the
   * writer ends synced at `v1`, and the channel publishes exactly `m`.
   */
  lemma {:induction false} MutationPublishes(c0: Chan, v0: View, w: View, op: Op, m: Mirror,
                                             c1: Chan, v1: View, name: Name)
    requires Consistent(c0, v0) && Catch(c0, v0) == Some(w) && Apply(w.data, op) == Some(m)
    requires |c0.log| < U32_LIMIT
    requires AppendEnd(c0, EncOp(op)) <= |c0.log| ==>
      c1 == AppendChan(c0, EncOp(op)) && v1 == View(AppendEnd(c0, EncOp(op)), w.counter, m)
    requires AppendEnd(c0, EncOp(op)) > |c0.log| ==>
      && ValidName(name) && RCount(c0.control) + 1 < U32_LIMIT && |EncMirror(m)| < U32_LIMIT
      && Catch(c0, View(w.pos, w.counter, m)).Some?
      && c1 == DumpChan(c0, m, name)
      && v1 == View(0, Catch(c0, View(w.pos, w.counter, m)).value.counter + 1,
                    Catch(c0, View(w.pos, w.counter, m)).value.data)
    ensures Published(c0) == Some(w.data)
    ensures Advance(c0, c1) && Synced(c1, v1) && Published(c1) == Some(m)
  {
    CatchSynced(c0, v0);
    if AppendEnd(c0, EncOp(op)) <= |c0.log| {
      AppendSynced(c0, w, op, m);
    } else {
      assert Catch(c0, View(w.pos, w.counter, m)) == Some(View(w.pos, w.counter, m));
      DumpSynced(c0, w, m, name);
    }
  }

  /**
   * A reader that was consistent with the channel before the writer moved it forward
   * reaches, by pulling, exactly the view the writer is synced at.
   */
  lemma {:induction false} ReaderSeesWriter(c0: Chan, c1: Chan, reader: View, writer: View)
    requires Consistent(c0, reader) && Advance(c0, c1) && Synced(c1, writer)
    ensures Catch(c1, reader) == Some(writer)
  {
    AdvanceKeepsConsistent(c0, c1, reader);
    CatchUp(c1, reader);
  }
  /** A container just created holds its empty kind and is synced at cursor 0, counter 0. */
  lemma {:induction false} CreatedSynced(c: Chan, k: Kind)
    requires Sized(c.control) && RPos(c.control) == 0 && RCount(c.control) == 0
    requires ReadDescriptor(c.control) == Some(k)
    ensures Synced(c, View(0, 0, Empty(k)))
  {
    assert Records(c.log, 0, 0) == Some([]);
  }
  /**
   * One step of a loop of mutations (`extend`, `update`): a synced writer that applies
   * one more operation stays synced, the channel keeps advancing, and the writer's
   * mirror is the operations applied so far replayed onto where the loop started.
   */
  lemma {:induction false} FeedStep(c0: Chan, c1: Chan, c2: Chan, v1: View, v2: View,
                                    p0: Mirror, applied: seq<Op>, a: Op, res: Value)
    requires Synced(c1, v1) && Advance(c0, c1) && ApplyAll(p0, applied) == Some(v1.data)
    requires Consistent(c1, v1) ==>
      && Published(c1).Some?
      && ApplyOp(Published(c1).value, a) == Ok((v2.data, res))
      && Advance(c1, c2) && Synced(c2, v2)
    ensures Synced(c2, v2) && Advance(c0, c2) && ApplyAll(p0, applied + [a]) == Some(v2.data)
  {
    SyncedIsFixed(c1, v1);
    AdvanceTransitive(c0, c1, c2);
    ApplyAllSnoc(p0, applied, a);
  }

  /** A channel that publishes a state has advanced to itself. */
  lemma {:induction false} AdvanceReflexive(c: Chan, v: View)
    requires Synced(c, v)
    ensures Advance(c, c)
  {
    assert Frames(c.log, 0, RPos(c.control)).Some?;
  }

  /**
   * A handle that has just attached holds the empty container of the kind the descriptor
   * names, at cursor 0 and counter 0. Its first pull succeeds exactly when the channel
   * publishes a state, and it then holds that state at the published cursor and counter.
   */
  lemma {:induction false} AttachCatches(c: Chan, k: Kind)
    requires Sized(c.control) && ReadDescriptor(c.control) == Some(k)
    ensures Catch(c, View(0, 0, Empty(k))).Some? <==> Published(c).Some?
    ensures Published(c).Some? ==>
      Catch(c, View(0, 0, Empty(k))) == Some(View(RPos(c.control), RCount(c.control), Published(c).value))
  {
    var v := View(0, 0, Empty(k));
    assert Records(c.log, 0, 0) == Some([]);
    assert Consistent(c, v);
    if Catch(c, v).Some? {
      CatchSynced(c, v);
    }
  }
}
