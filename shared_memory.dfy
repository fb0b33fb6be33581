/**
 * The operating system's shared-memory namespace: named, fixed-size byte segments.
 *
 * A segment is an array; every handle that attaches to a name holds that same array,
 * so a write through one handle is seen through all of them. Unlinking removes the
 * name only: a handle that already holds the array keeps using it, as a process keeps
 * its mapping of an unlinked POSIX segment.
 */
module SharedMemory {
  import opened Basics
  import opened LittleEndian
  import opened Values
  import opened ControlBlock

  // ---------------------------------------------------------------- segment names

  /** `f'{name}_memory'`, the segment that holds a container's operation log. */
  function LogName(n: Name): Name {
    n + ['_' as byte, 'm' as byte, 'e' as byte, 'm' as byte, 'o' as byte, 'r' as byte, 'y' as byte]
  }

  /** `f'{name}_register'`, the container that records a nested container's children. */
  function RegisterName(n: Name): Name {
    n + ['_' as byte, 'r' as byte, 'e' as byte, 'g' as byte, 'i' as byte, 's' as byte,
         't' as byte, 'e' as byte, 'r' as byte]
  }

  /** How many names the allocator can draw from: eight hex digits. */
  const NAME_SPACE: nat := 0x1_0000_0000

  function HexDigit(d: nat): (b: byte)
    requires d < 16
    ensures 0x30 <= b <= 0x39 || 0x61 <= b <= 0x66
  {
    if d < 10 then 0x30 + d else 0x61 + (d - 10)
  }

  /** The n low-order hexadecimal digits of k, most significant first. */
  function HexDigits(k: nat, n: nat): (r: seq<byte>)
    ensures |r| == n
    ensures forall i :: 0 <= i < n ==> 0x30 <= r[i] <= 0x66
  {
    if n == 0 then [] else HexDigits(k / 16, n - 1) + [HexDigit(k % 16)]
  }

  /** `'psm_' + secrets.token_hex(4)`, the k-th name an anonymous segment can get. */
  function PsmName(k: nat): (n: Name)
    ensures ValidName(n) && |n| == 12
  {
    var r := ['p' as byte, 's' as byte, 'm' as byte, '_' as byte] + HexDigits(k, 8);
    assert forall i :: 4 <= i < 12 ==> r[i] == HexDigits(k, 8)[i - 4];
    r
  }

  // ---------------------------------------------------------------- in-place writes

  /** Slice assignment `buf[at:at+len(b)] = b` on a segment. */
  method WriteBytes(a: array<byte>, at: nat, b: seq<byte>)
    requires at + |b| <= a.Length
    modifies a
    ensures a[..] == Splice(old(a[..]), at, b)
  {
    forall i | at <= i < at + |b| {
      a[i] := b[i - at];
    }
    assert forall i :: 0 <= i < a.Length ==> a[..][i] == Splice(old(a[..]), at, b)[i];
  }

  // ---------------------------------------------------------------- the namespace

  /**
   * A segment of the namespace. A control block or a log is written in place through
   * every handle that attached it, so it is an array; a snapshot is written once, when
   * it is created, and only read afterwards, so its bytes are a value.
   */
  datatype Segment = Live(a: array<byte>) | Snapshot(bytes: seq<byte>)

  /** Every snapshot with a recorded publisher is a snapshot segment of the namespace. */
  ghost predicate SnapshotsListed(segs: map<Name, Segment>, snapOf: map<Name, array<byte>>) {
    forall n :: n in snapOf ==> n in segs && segs[n].Snapshot?
  }

  class Memory {
    /** The segments that can currently be attached, by name. */
    var segs: map<Name, Segment>
    /** For each live snapshot, the control block that published it. */
    ghost var snapOf: map<Name, array<byte>>

    ghost predicate Valid()
      reads this
    {
      SnapshotsListed(segs, snapOf)
    }

    constructor ()
      ensures Valid() && segs == map[] && snapOf == map[]
    {
      segs := map[];
      snapOf := map[];
    }

    /**
     * `SharedMemory(create=True, name=n, size=size)`: a zero-filled segment under a
     * name that must be free.
     */
    method Create(n: Name, size: nat) returns (r: Result<array<byte>>)
      requires Valid()
      modifies this
      ensures Valid() && snapOf == old(snapOf)
      ensures size == 0 ==> r == Err(InvalidSize)
      ensures size > 0 && n in old(segs) ==> r == Err(AlreadyExists)
      ensures r.Ok? <==> size > 0 && n !in old(segs)
      ensures r.Ok? ==> fresh(r.value) && r.value[..] == Zeros(size) && segs == old(segs)[n := Live(r.value)]
      ensures r.Err? ==> segs == old(segs)
    {
      if size == 0 {
        return Err(InvalidSize);
      }
      if n in segs {
        return Err(AlreadyExists);
      }
      var a := new byte[size](_ => 0);
      segs := segs[n := Live(a)];
      return Ok(a);
    }

    /** The first name the allocator can still hand out, if any. */
    method FreeName() returns (r: Result<Name>)
      ensures r.Ok? ==> r.value !in segs && ValidName(r.value)
      ensures r.Err? ==> r.error == StorageExhausted && forall k :: 0 <= k < NAME_SPACE ==> PsmName(k) in segs
    {
      var k := 0;
      while k < NAME_SPACE && PsmName(k) in segs
        invariant k <= NAME_SPACE
        invariant forall j :: 0 <= j < k ==> PsmName(j) in segs
        decreases NAME_SPACE - k
      {
        k := k + 1;
      }
      if k == NAME_SPACE {
        return Err(StorageExhausted);
      }
      return Ok(PsmName(k));
    }

    /**
     * `SharedMemory(create=True, size=|content|)` with no name, then the writes that fill
     * it with `content`: a snapshot under a name no segment has, published by `owner`.
     */
    method CreateSnapshot(content: seq<byte>, ghost owner: array<byte>) returns (r: Result<Name>)
      requires Valid()
      modifies this
      ensures Valid()
      ensures |content| == 0 ==> r == Err(InvalidSize)
      ensures r.Err? ==> r.error == InvalidSize || r.error == StorageExhausted
      ensures r.Err? ==> segs == old(segs) && snapOf == old(snapOf)
      ensures r.Ok? ==>
        && r.value !in old(segs) && ValidName(r.value)
        && segs == old(segs)[r.value := Snapshot(content)]
        && snapOf == old(snapOf)[r.value := owner]
    {
      if |content| == 0 {
        return Err(InvalidSize);
      }
      var name := FreeName();
      if name.Err? {
        return Err(StorageExhausted);
      }
      var n := name.value;
      segs := segs[n := Snapshot(content)];
      snapOf := snapOf[n := owner];
      return Ok(n);
    }

    /** `SharedMemory(name=n).unlink()`: the name goes, the segment stays with its holders. */
    method Unlink(n: Name) returns (found: bool)
      requires Valid()
      modifies this
      ensures Valid()
      ensures found == (n in old(segs))
      ensures segs == old(segs) - {n} && snapOf == old(snapOf) - {n}
    {
      found := n in segs;
      segs := segs - {n};
      snapOf := snapOf - {n};
    }

    /**
     * `SharedMemory(create=False, name=n)` for a segment written in place: the array the
     * name is bound to, or `FileNotFoundError` when no such segment exists.
     */
    method Open(n: Name) returns (r: Result<array<byte>>)
      ensures r.Ok? <==> n in segs && segs[n].Live?
      ensures r.Ok? ==> r.value == segs[n].a
      ensures r.Err? ==> r.error == NotFound
    {
      if n in segs && segs[n].Live? {
        return Ok(segs[n].a);
      }
      return Err(NotFound);
    }
  }

  // ---------------------------------------------------------------- how the namespace moves

  /**
   * Between two states of the namespace, every control block and log is still there,
   * and every snapshot whose publisher is not among `actors` is still there, under the
   * same name, with the same publisher.
   */
  ghost predicate Evolves(s0: map<Name, Segment>, o0: map<Name, array<byte>>,
                          s1: map<Name, Segment>, o1: map<Name, array<byte>>,
                          actors: set<array<byte>>)
  {
    && (forall n :: LiveKept(s0, s1, n))
    && (forall n :: n in o0 && n in s0 && o0[n] !in actors ==>
          n in s1 && s1[n] == s0[n] && n in o1 && o1[n] == o0[n])
  }

  /** If `n` names a control block or a log, it still names the same one. */
  predicate LiveKept(s0: map<Name, Segment>, s1: map<Name, Segment>, n: Name) {
    n in s0 && s0[n].Live? ==> n in s1 && s1[n] == s0[n]
  }

  /** Between two states of the namespace, segments were only added. */
  predicate Extends(s0: map<Name, Segment>, s1: map<Name, Segment>) {
    forall n :: n in s0 ==> n in s1 && s1[n] == s0[n]
  }

  /** A namespace that only grew moved for nobody. */
  lemma {:induction false} ExtendsEvolves(s0: map<Name, Segment>, s1: map<Name, Segment>, o: map<Name, array<byte>>,
                                         actors: set<array<byte>>)
    requires Extends(s0, s1)
    ensures Evolves(s0, o, s1, o, actors)
  {
  }

  /**
   * A creation: segments were only added, then the namespace moved for `writers`, of
   * which only `actors` published anything before; so it moved for `actors` alone.
   */
  lemma {:induction false} CreationEvolves(
    s0: map<Name, Segment>, o0: map<Name, array<byte>>, s1: map<Name, Segment>,
    s2: map<Name, Segment>, o2: map<Name, array<byte>>,
    writers: set<array<byte>>, actors: set<array<byte>>)
    requires Extends(s0, s1) && Evolves(s1, o0, s2, o2, writers)
    requires forall n :: n in o0 ==> o0[n] !in writers - actors
    ensures Evolves(s0, o0, s2, o2, actors)
  {
    forall n | n in o0 && n in s0 && o0[n] !in actors
      ensures n in s2 && s2[n] == s0[n] && n in o2 && o2[n] == o0[n]
    {
      assert o0[n] !in writers;
    }
    forall n ensures LiveKept(s0, s2, n) {
      assert LiveKept(s1, s2, n);
    }
  }

  lemma {:induction false} EvolvesTransitive(
    s0: map<Name, Segment>, o0: map<Name, array<byte>>,
    s1: map<Name, Segment>, o1: map<Name, array<byte>>,
    s2: map<Name, Segment>, o2: map<Name, array<byte>>,
    a1: set<array<byte>>, a2: set<array<byte>>)
    requires Evolves(s0, o0, s1, o1, a1) && Evolves(s1, o1, s2, o2, a2)
    ensures Evolves(s0, o0, s2, o2, a1 + a2)
  {
    forall n ensures LiveKept(s0, s2, n) {
      assert LiveKept(s0, s1, n) && LiveKept(s1, s2, n);
    }
  }
}
