/**
 * The byte formats of the operation log and of snapshot segments.
 *
 * Both are framed the same way, `[len:4 LE][payload]`. The log buffer holds such
 * frames back to back from offset 0, each payload one encoded operation; a snapshot
 * segment holds one frame whose payload is the encoded container.
 */
module OpLog {
  import opened Basics
  import opened LittleEndian
  import opened Values
  import opened Containers
  import opened Codec

  /** `[len:4 LE][payload]`, one frame. */
  function Frame(payload: seq<byte>): (r: seq<byte>)
    requires |payload| < U32_LIMIT
    ensures |r| == 4 + |payload|
    ensures r[4..] == payload
  {
    Le4(|payload|) + payload
  }

  /**
   * The payloads of the frames between positions p and end of a log, in order. A
   * frame must end at or before `end`; a range that does not split into whole frames
   * reads as None.
   */
  function Frames(log: seq<byte>, p: nat, end: nat): (r: Option<seq<seq<byte>>>)
    ensures r.Some? && p < end ==> end <= |log| && |r.value| > 0
    decreases end - p
  {
    if p >= end then Some([])
    else if end > |log| || p + 4 > end then None
    else
      var q := p + 4 + FromLe4(log[p..p + 4]);
      if q > end then None
      else
        match Frames(log, q, end)
        case None => None
        case Some(rest) => Some([log[p + 4..q]] + rest)
  }

  /** The operations the payloads encode; None as soon as one does not decode. */
  function DecodeOps(payloads: seq<seq<byte>>): (r: Option<seq<Op>>)
    ensures r.Some? ==> |r.value| == |payloads|
  {
    if payloads == [] then Some([])
    else
      match DecodeOp(payloads[0])
      case None => None
      case Some(op) =>
        match DecodeOps(payloads[1..])
        case None => None
        case Some(rest) => Some([op] + rest)
  }

  /** The operations logged between positions p and end. */
  function Records(log: seq<byte>, p: nat, end: nat): Option<seq<Op>> {
    match Frames(log, p, end)
    case None => None
    case Some(payloads) => DecodeOps(payloads)
  }

  // ---------------------------------------------------------------- snapshots

  /** The contents of a snapshot segment. */
  function SnapshotBytes(m: Mirror): (r: seq<byte>)
    requires |EncMirror(m)| < U32_LIMIT
    ensures |r| == 4 + |EncMirror(m)|
  {
    Frame(EncMirror(m))
  }

  /** `loads(buf[4:4+length])` after reading the length from `buf[:4]`. */
  function DecodeSnapshot(b: seq<byte>): Option<Mirror> {
    if |b| < 4 then None
    else
      var len := FromLe4(b[..4]);
      DecodeMirror(if 4 + len <= |b| then b[4..4 + len] else b[4..])
  }

}
