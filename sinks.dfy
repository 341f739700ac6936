/** The output side of sinks.py: the multicast telemetry sender with its
    wrapping sequence counter, the per-day point-file writer with its
    per-second accumulation and day rollover, and the fan-out to several
    sinks in order. */
module Sinks {
  import opened Common
  import opened Util
  import opened PointFiles

  // ---------------------------------------------------------------------
  // The multicast datagram

  /** `b"GEIG"` */
  const MAGIC: seq<byte> := [0x47, 0x45, 0x49, 0x47]
  const PACKET_SIZE: nat := 22
  /** The counter value that is replaced by 0 before it is ever sent. */
  const SEQ_RESET: nat := 0xFFFF_FFFF

  predicate FitsU16(x: int) { 0 <= x < 0x1_0000 }

  predicate FitsU32(x: int) { 0 <= x < 0x1_0000_0000 }

  /** Every integer field of the reading fits the width `!IHIIf` gives it. */
  predicate Packable(s: Reading<F32>)
  {
    FitsU16(s.cps) && FitsU32(s.cpm) && FitsU32(s.cph)
  }

  function Zeros(n: nat): (z: seq<byte>)
    ensures |z| == n && forall i :: 0 <= i < n ==> z[i] == 0
  {
    seq(n, _ => 0)
  }

  /** The 18 bytes `pack_into("!IHIIf", packet, 4, seq, cps, cpm, cph, usvh)`
      leaves at offsets 4 to 21: they are zero-filled first, then the fields
      are packed in order until one does not fit its width. */
  function PackFields(seqNo: u32, s: Reading<F32>): (b: seq<byte>)
    ensures |b| == 18 && b[..4] == BE32(seqNo)
    ensures !FitsU16(s.cps) ==> b[4..] == Zeros(14)
    ensures FitsU16(s.cps) && !FitsU32(s.cpm) ==> b[4..6] == BE16(s.cps) && b[6..] == Zeros(12)
    ensures FitsU16(s.cps) && FitsU32(s.cpm) && !FitsU32(s.cph) ==>
              b[4..6] == BE16(s.cps) && b[6..10] == BE32(s.cpm) && b[10..] == Zeros(8)
    ensures Packable(s) ==>
              && b[4..6] == BE16(s.cps) && b[6..10] == BE32(s.cpm) && b[10..14] == BE32(s.cph)
              && b[14..] == BE32(s.usvh.bits)
  {
    if !FitsU16(s.cps) then BE32(seqNo) + Zeros(14)
    else if !FitsU32(s.cpm) then BE32(seqNo) + BE16(s.cps) + Zeros(12)
    else if !FitsU32(s.cph) then BE32(seqNo) + BE16(s.cps) + BE32(s.cpm) + Zeros(8)
    else BE32(seqNo) + BE16(s.cps) + BE32(s.cpm) + BE32(s.cph) + BE32(s.usvh.bits)
  }

  /** The datagram sent for reading `s` under sequence number `seqNo`. */
  function Encode(seqNo: u32, s: Reading<F32>): (d: seq<byte>)
    requires Packable(s)
    ensures |d| == PACKET_SIZE && d[..4] == MAGIC
    ensures d[4..8] == BE32(seqNo) && d[8..10] == BE16(s.cps) && d[10..14] == BE32(s.cpm)
    ensures d[14..18] == BE32(s.cph) && d[18..22] == BE32(s.usvh.bits)
  {
    MAGIC + PackFields(seqNo, s)
  }

  /** Two readings are sent as the same datagram only when they are the
      same reading under the same sequence number. */
  lemma {:induction false} EncodeInjective(n1: u32, s1: Reading<F32>, n2: u32, s2: Reading<F32>)
    requires Packable(s1) && Packable(s2)
    requires Encode(n1, s1) == Encode(n2, s2)
    ensures n1 == n2 && s1 == s2
  {
    var d := Encode(n1, s1);
    BE32RoundTrip(n1); BE32RoundTrip(n2);
    BE16RoundTrip(s1.cps); BE16RoundTrip(s2.cps);
    BE32RoundTrip(s1.cpm); BE32RoundTrip(s2.cpm);
    BE32RoundTrip(s1.cph); BE32RoundTrip(s2.cph);
    BE32RoundTrip(s1.usvh.bits); BE32RoundTrip(s2.usvh.bits);
    assert d[4..8] == BE32(n1) == BE32(n2);
    assert d[8..10] == BE16(s1.cps) == BE16(s2.cps);
    assert d[10..14] == BE32(s1.cpm) == BE32(s2.cpm);
    assert d[14..18] == BE32(s1.cph) == BE32(s2.cph);
    assert d[18..22] == BE32(s1.usvh.bits) == BE32(s2.usvh.bits);
  }

  /** `count += 1`, then back to 0 on reaching 0xFFFFFFFF. */
  function NextSeq(c: nat): (n: nat)
    requires c < SEQ_RESET
    ensures n < SEQ_RESET && n == (c + 1) % SEQ_RESET
  {
    if c + 1 == SEQ_RESET then 0 else c + 1
  }

  /** The counter after `n` datagrams, advanced once, is the counter after
      `n + 1`. */
  lemma CounterStep(n: nat)
    ensures NextSeq(n % SEQ_RESET) == (n + 1) % SEQ_RESET
  {
  }

  class MulticastSink {
    /** The reusable 22-byte datagram buffer. */
    const packet: array<byte>
    /** The sequence number of the next datagram. */
    var count: nat
    /** Whether the socket is still held. */
    var connected: bool
    /** Every datagram sent, in order. */
    var sent: seq<seq<byte>>
    /** The reading behind each datagram sent. */
    ghost var readings: seq<Reading<F32>>
    /** Every reading handed to `emit`, sent or not. */
    ghost var offered: seq<Reading<F32>>

    /** The `i`-th datagram ever sent carries sequence number
        `i % 0xFFFFFFFF`, and the buffer always starts with the magic. */
    ghost predicate Valid()
      reads this, packet
    {
      && packet.Length == PACKET_SIZE && packet[..4] == MAGIC
      && count == |sent| % SEQ_RESET
      && |readings| == |sent|
      && forall i :: 0 <= i < |sent| ==>
           Packable(readings[i]) && sent[i] == Encode(i % SEQ_RESET, readings[i])
    }

    /** The socket is opened and connected; the buffer is 22 zero bytes with
        the magic written over the first four. */
    constructor ()
      ensures Valid() && fresh(packet)
      ensures count == 0 && connected && sent == [] && offered == []
    {
      packet := new byte[PACKET_SIZE](i requires 0 <= i => if i < 4 then MAGIC[i] else 0);
      count := 0;
      connected := true;
      sent := [];
      readings := [];
      offered := [];
    }

    /** Pack the reading after the magic, send the buffer, and advance the
        counter, which never takes the value 0xFFFFFFFF. */
    method Emit(s: Reading<F32>) returns (r: Outcome)
      requires Valid()
      modifies this, packet
      ensures Valid()
      ensures packet[..] == MAGIC + PackFields(old(count), s)
      ensures connected == old(connected) && offered == old(offered) + [s]
      ensures !Packable(s) ==>
                r == Fail(FieldOutOfRange) && count == old(count) && sent == old(sent)
      ensures Packable(s) && !connected ==>
                r == Fail(SocketClosed) && count == old(count) && sent == old(sent)
      ensures Packable(s) && connected ==>
                && r == Pass && count == NextSeq(old(count))
                && sent == old(sent) + [Encode(old(count), s)] && readings == old(readings) + [s]
    {
      offered := offered + [s];
      var fields := PackFields(count, s);
      forall i | 4 <= i < PACKET_SIZE {
        packet[i] := fields[i - 4];
      }
      assert packet[..] == MAGIC + fields;
      assert packet[..4] == MAGIC;
      if !Packable(s) {
        return Fail(FieldOutOfRange);
      }
      if !connected {
        return Fail(SocketClosed);
      }
      ghost var n := |sent|;
      assert packet[..] == Encode(n % SEQ_RESET, s);
      CounterStep(n);
      sent := sent + [packet[..]];
      readings := readings + [s];
      count := NextSeq(count);
      r := Pass;
    }

    /** Close the socket; a second call returns at once. */
    method Close()
      modifies this
      ensures !connected && count == old(count) && sent == old(sent)
      ensures readings == old(readings) && offered == old(offered)
    {
      if !connected {
        return;
      }
      connected := false;
    }
  }

  // ---------------------------------------------------------------------
  // The point-file sink

  /** The UTC day of a Unix time, as days since the epoch. */
  function Day(ts: int): (d: int)
    ensures d * SECONDS_PER_DAY <= ts < d * SECONDS_PER_DAY + SECONDS_PER_DAY
  {
    ts / SECONDS_PER_DAY
  }

  /** Within one day two seconds share a byte of the day file exactly when
      they form an even-odd pair. */
  lemma {:induction false} SharedByteIff(t1: int, t2: int)
    requires Day(t1) == Day(t2)
    ensures Offset(t1) == Offset(t2) <==> t1 / 2 == t2 / 2
  {
    var d := Day(t1);
    assert t1 % SECONDS_PER_DAY == t1 - d * SECONDS_PER_DAY;
    assert t2 % SECONDS_PER_DAY == t2 - d * SECONDS_PER_DAY;
    assert t1 / 2 == d * (SECONDS_PER_DAY / 2) + Offset(t1);
    assert t2 / 2 == d * (SECONDS_PER_DAY / 2) + Offset(t2);
  }

  /** `__last_v` after `emit` at `ts`: a running total within one second,
      restarted on a new second. */
  function Accumulate(lastTs: int, lastV: int, ts: int, cps: int): (v: int)
    ensures ts == lastTs ==> v - lastV == cps
    ensures ts != lastTs ==> v == cps
  {
    if ts == lastTs then lastV + cps else cps
  }

  /** `__last_v` after emitting the counts `cpss` in order, all at `ts`. */
  function EmitsAt(lastTs: int, lastV: int, ts: int, cpss: seq<int>): int
    decreases |cpss|
  {
    if cpss == [] then lastV
    else EmitsAt(ts, Accumulate(lastTs, lastV, ts, cpss[0]), ts, cpss[1..])
  }

  lemma {:induction false} EmitsWithinSecond(v: int, ts: int, cpss: seq<int>)
    ensures EmitsAt(ts, v, ts, cpss) == v + Sum(cpss)
    decreases |cpss|
  {
    if cpss != [] {
      EmitsWithinSecond(v + cpss[0], ts, cpss[1..]);
    }
  }

  /** The point written for a second is the sum of every count emitted in
      that second, whatever second was emitted before. */
  lemma {:induction false} PointIsSecondTotal(lastTs: int, lastV: int, ts: int, cpss: seq<int>)
    requires cpss != [] && ts != lastTs
    ensures EmitsAt(lastTs, lastV, ts, cpss) == Sum(cpss)
  {
    EmitsWithinSecond(cpss[0], ts, cpss[1..]);
  }

  /** The contents of day file `d` once `PointFile` has opened it: what is
      on disk, cut or zero-padded to the map size. */
  function Opened(files: map<int, seq<byte>>, d: int): (m: seq<byte>)
    ensures |m| == MAP_SIZE
    ensures d in files && |files[d]| == MAP_SIZE ==> m == files[d]
  {
    Resized(if d in files then files[d] else [])
  }

  /** The map after `add_point(ts, v)`: the stored point, or the map as it
      was when the value is rejected. */
  function Written(m: seq<byte>, ts: int, v: int): (w: seq<byte>)
    requires |m| == MAP_SIZE
    ensures |w| == MAP_SIZE
  {
    if v >= 0 then Store(m, ts, v).value else m
  }

  class PointFileSink {
    /** The day files in the directory, by UTC day, as last closed. */
    var disk: map<int, seq<byte>>
    var lastTs: int
    var lastV: int
    var lastF: PointFile?
    var lastD: Option<int>
    /** Every reading handed to `emit`, and the clock at each call. */
    ghost var offered: seq<Reading<F32>>
    ghost var clock: seq<int>

    /** The open file and its map. */
    ghost function Handles(): set<object>
      reads this
    {
      if lastF == null then {} else {lastF, lastF.m}
    }

    /** The open file is live and belongs to the last day seen. */
    ghost predicate FileOpen()
      reads this, Handles()
    {
      lastF != null ==> lastF.Valid() && lastF.mapped && lastF.fdOpen && lastD.Some?
    }

    /** Besides `FileOpen`, the pending point belongs to the open file's
        day and is already stored in it. */
    ghost predicate Valid()
      reads this, Handles()
    {
      && FileOpen()
      && (lastF != null && lastTs != -1 ==> lastD == Some(Day(lastTs)))
      && (lastF != null && lastTs != -1 && lastV >= 0 ==>
            Store(lastF.m[..], lastTs, lastV).value == lastF.m[..])
    }

    /** Every day file as it now stands: the disk, with the open file's live
        map over its day. */
    ghost function Files(): map<int, seq<byte>>
      reads this, Handles()
    {
      if lastF != null && lastD.Some? then disk[lastD.value := lastF.m[..]] else disk
    }

    /** A sink over a directory whose day files are `disk`. */
    constructor (disk: map<int, seq<byte>>)
      ensures Valid() && this.disk == disk && offered == [] && clock == []
      ensures lastTs == -1 && lastV == 0 && lastF == null && lastD == None
    {
      this.disk := disk;
      lastTs := -1;
      lastV := 0;
      lastF := null;
      lastD := None;
      offered := [];
      clock := [];
    }

    /** `__get_file(ts)`: on a day other than the last one, close the open
        file and open (creating or truncating) the file of the new day. */
    method GetFile(ts: int) returns (f: PointFile?)
      requires FileOpen()
      modifies this, Handles()
      ensures FileOpen() && f == lastF
      ensures fresh(Handles() - old(Handles()))
      ensures lastTs == old(lastTs) && lastV == old(lastV)
      ensures offered == old(offered) && clock == old(clock)
      ensures old(lastD) == Some(Day(ts)) ==>
                lastF == old(lastF) && lastD == old(lastD) && disk == old(disk)
                && (lastF != null ==> lastF.m[..] == old(lastF.m[..]))
      ensures old(lastD) != Some(Day(ts)) ==>
                && lastD == Some(Day(ts)) && lastF != null && fresh(lastF) && fresh(lastF.m)
                && disk == old(Files()) && lastF.m[..] == Opened(old(Files()), Day(ts))
                && (old(lastF) != null ==> !old(lastF).mapped && !old(lastF).fdOpen)
    {
      var d := Day(ts);
      if lastD != Some(d) {
        if lastF != null {
          lastF.Close();
          disk := disk[lastD.value := lastF.m[..]];
        }
        lastF := new PointFile(if d in disk then disk[d] else []);
        lastD := Some(d);
      }
      f := lastF;
    }

    /** `__write_point(ts, v)`: store `v` as the point of `ts` in the file
        of its day, which is opened first when the day is a new one. */
    method WritePoint(ts: int, v: int) returns (r: Outcome)
      requires FileOpen()
      modifies this, Handles()
      ensures FileOpen() && fresh(Handles() - old(Handles()))
      ensures lastTs == old(lastTs) && lastV == old(lastV)
      ensures offered == old(offered) && clock == old(clock)
      ensures old(lastD) == Some(Day(ts)) && old(lastF) == null ==>
                r == Fail(NoFile) && lastF == null && lastD == old(lastD) && disk == old(disk)
      ensures !(old(lastD) == Some(Day(ts)) && old(lastF) == null) ==>
                && lastF != null && lastD == Some(Day(ts))
                && (r.Pass? <==> v >= 0) && (r.Fail? ==> r.error == NegativeValue)
                && Files() == old(Files())[Day(ts) := Written(Opened(old(Files()), Day(ts)), ts, v)]
                && (r.Pass? ==> Store(lastF.m[..], ts, v).value == lastF.m[..])
      ensures old(lastD) == Some(Day(ts)) ==> lastF == old(lastF) && disk == old(disk)
      ensures old(lastD) != Some(Day(ts)) ==>
                && lastF != null && fresh(lastF) && fresh(lastF.m)
                && (old(lastF) != null ==> !old(lastF).mapped && !old(lastF).fdOpen)
    {
      ghost var before := Files();
      ghost var d := Day(ts);
      var f := GetFile(ts);
      if f == null {
        return Fail(NoFile);
      }
      ghost var m0 := f.m[..];
      assert m0 == Opened(before, d);
      r := f.AddPoint(ts, v);
      assert f.m[..] == Written(m0, ts, v);
      assert before[d := m0] == disk[d := m0];
      if r.Pass? {
        StoreIdempotent(m0, ts, v);
      }
    }

    /** `emit`: add `cps` to the running total of the second `ts` and write
        that total as the point of `ts` into the file of its day. */
    method Emit(ts: int, s: Reading<F32>) returns (r: Outcome)
      requires Valid()
      modifies this, Handles()
      ensures Valid()
      ensures lastTs == ts && lastV == Accumulate(old(lastTs), old(lastV), ts, s.cps)
      ensures offered == old(offered) + [s] && clock == old(clock) + [ts]
      ensures fresh(Handles() - old(Handles()))
      ensures old(lastD) == Some(Day(ts)) && old(lastF) == null ==>
                r == Fail(NoFile) && lastF == null && lastD == old(lastD) && disk == old(disk)
      ensures !(old(lastD) == Some(Day(ts)) && old(lastF) == null) ==>
                && lastF != null && lastD == Some(Day(ts))
                && (r.Pass? <==> lastV >= 0) && (r.Fail? ==> r.error == NegativeValue)
                && Files() == old(Files())[Day(ts) := Written(Opened(old(Files()), Day(ts)), ts, lastV)]
      ensures old(lastD) == Some(Day(ts)) ==> lastF == old(lastF)
      ensures old(lastD) != Some(Day(ts)) ==>
                && lastF != null && fresh(lastF) && fresh(lastF.m)
                && (old(lastF) != null ==> !old(lastF).mapped && !old(lastF).fdOpen)
    {
      offered := offered + [s];
      clock := clock + [ts];
      if ts == lastTs {
        lastV := lastV + s.cps;
      } else {
        lastTs := ts;
        lastV := s.cps;
      }
      r := WritePoint(ts, lastV);
    }

    /** `close`: write the pending point once more, forget it, and close the
        file; nothing happens when no file is open. The day is kept. */
    method Close() returns (r: Outcome)
      requires Valid()
      modifies this, Handles()
      ensures Valid() && offered == old(offered) && clock == old(clock)
      ensures Handles() <= old(Handles())
      ensures old(lastF) == null ==>
                r == Pass && lastF == null && lastTs == old(lastTs) && lastV == old(lastV)
                && lastD == old(lastD) && disk == old(disk)
      ensures old(lastF) != null && old(lastTs) != -1 && old(lastV) < 0 ==>
                r == Fail(NegativeValue) && lastF == old(lastF) && lastTs == old(lastTs)
                && lastV == old(lastV) && lastD == old(lastD) && disk == old(disk)
                && Files() == old(Files())
      ensures old(lastF) != null && !(old(lastTs) != -1 && old(lastV) < 0) ==>
                && r == Pass && lastF == null && lastTs == -1 && lastV == old(lastV)
                && lastD == old(lastD) && disk == old(Files())
                && !old(lastF).mapped && !old(lastF).fdOpen
    {
      if lastF == null {
        return Pass;
      }
      if lastTs != -1 {
        r := WritePoint(lastTs, lastV);
        if r.Fail? {
          return;
        }
        lastTs := -1;
      }
      lastF.Close();
      disk := disk[lastD.value := lastF.m[..]];
      lastF := null;
      r := Pass;
    }
  }

  // ---------------------------------------------------------------------
  // Fan-out

  /** One of the sinks a `MultiSink` forwards to. */
  datatype Target = ToMulticast(m: MulticastSink) | ToPoints(p: PointFileSink)

  /** The objects a sink owns. */
  ghost function TargetRepr(t: Target): set<object>
    reads if t.ToPoints? then {t.p} else {}
  {
    match t
    case ToMulticast(m) => {m, m.packet}
    case ToPoints(p) => {p} + p.Handles()
  }

  ghost predicate TargetValid(t: Target)
    reads if t.ToPoints? then {t.p} else {}, TargetRepr(t)
  {
    match t
    case ToMulticast(m) => m.Valid()
    case ToPoints(p) => p.Valid()
  }

  /** Every reading the sink has been handed. */
  ghost function Offered(t: Target): seq<Reading<F32>>
    reads if t.ToPoints? then {t.p} else {t.m}
  {
    match t
    case ToMulticast(m) => m.offered
    case ToPoints(p) => p.offered
  }

  /** The sink no longer holds its socket or file. */
  ghost predicate Closed(t: Target)
    reads if t.ToPoints? then {t.p} else {t.m}
  {
    match t
    case ToMulticast(m) => !m.connected
    case ToPoints(p) => p.lastF == null
  }

  /** What decides whether a sink's next `emit` or `close` fails. */
  datatype SinkState =
    | MulticastState(connected: bool)
    | PointsState(lastTs: int, lastV: int, hasFile: bool, lastD: Option<int>)

  ghost function StateOf(t: Target): (st: SinkState)
    reads if t.ToPoints? then {t.p} else {t.m}
    ensures t.ToMulticast? <==> st.MulticastState?
  {
    match t
    case ToMulticast(m) => MulticastState(m.connected)
    case ToPoints(p) => PointsState(p.lastTs, p.lastV, p.lastF != null, p.lastD)
  }

  /** `emit` raises: a field too wide or a closed socket for the multicast
      sink; no file on a day already seen, or a negative running total, for
      the point-file sink. */
  predicate EmitFails(st: SinkState, ts: int, s: Reading<F32>)
  {
    match st
    case MulticastState(connected) => !Packable(s) || !connected
    case PointsState(lastTs, lastV, hasFile, lastD) =>
      (lastD == Some(Day(ts)) && !hasFile) || Accumulate(lastTs, lastV, ts, s.cps) < 0
  }

  /** The error `emit` raises when `EmitFails`. */
  function EmitError(st: SinkState, ts: int, s: Reading<F32>): (e: Error)
    ensures st.MulticastState? ==> (e == FieldOutOfRange <==> !Packable(s))
    ensures st.PointsState? ==> (e == NoFile <==> st.lastD == Some(Day(ts)) && !st.hasFile)
    ensures st.MulticastState? && Packable(s) ==> e == SocketClosed
    ensures st.PointsState? && !(st.lastD == Some(Day(ts)) && !st.hasFile) ==> e == NegativeValue
  {
    match st
    case MulticastState(_) => if !Packable(s) then FieldOutOfRange else SocketClosed
    case PointsState(_, _, hasFile, lastD) =>
      if lastD == Some(Day(ts)) && !hasFile then NoFile else NegativeValue
  }

  /** `close` raises only for a point-file sink whose pending point is
      negative. */
  predicate CloseFails(st: SinkState)
  {
    st.PointsState? && st.hasFile && st.lastTs != -1 && st.lastV < 0
  }

  /** Everything the fan-out observes of one sink. */
  datatype SinkView = SinkView(repr: set<object>, offered: seq<Reading<F32>>, state: SinkState, closed: bool)

  ghost function ViewOf(t: Target): SinkView
    reads if t.ToPoints? then {t.p} else {t.m}
  {
    SinkView(TargetRepr(t), Offered(t), StateOf(t), Closed(t))
  }

  /** A sink none of whose objects changed is as it was. */
  twostate lemma Untouched(t: Target)
    requires old(TargetValid(t)) && unchanged(old(TargetRepr(t)))
    ensures TargetValid(t) && ViewOf(t) == old(ViewOf(t))
  {
  }

  /** `sink.emit(...)` on one sink; the point-file sink reads the clock `ts`. */
  method EmitTo(t: Target, ts: int, s: Reading<F32>) returns (r: Outcome)
    requires TargetValid(t)
    modifies TargetRepr(t)
    ensures TargetValid(t) && Offered(t) == old(Offered(t)) + [s]
    ensures fresh(TargetRepr(t) - old(TargetRepr(t)))
    ensures r.Fail? <==> EmitFails(old(StateOf(t)), ts, s)
    ensures r.Fail? ==> r.error == EmitError(old(StateOf(t)), ts, s)
  {
    match t
    case ToMulticast(m) =>
      r := m.Emit(s);
    case ToPoints(p) =>
      r := p.Emit(ts, s);
  }

  /** `sink.close()` on one sink. */
  method CloseTarget(t: Target) returns (r: Outcome)
    requires TargetValid(t)
    modifies TargetRepr(t)
    ensures TargetValid(t) && Offered(t) == old(Offered(t))
    ensures TargetRepr(t) <= old(TargetRepr(t))
    ensures r.Pass? ==> Closed(t)
    ensures r.Fail? <==> CloseFails(old(StateOf(t)))
    ensures r.Fail? ==> r.error == NegativeValue && StateOf(t) == old(StateOf(t))
  {
    match t
    case ToMulticast(m) =>
      m.Close();
      r := Pass;
    case ToPoints(p) =>
      r := p.Close();
  }

  class MultiSink {
    const sinks: seq<Target>

    /** The sinks, each valid, owning pairwise disjoint objects. */
    ghost predicate Valid()
      reads this, Owners(), Repr()
    {
      && (forall i :: 0 <= i < |sinks| ==> TargetValid(sinks[i]))
      && (forall i, j :: 0 <= i < j < |sinks| ==> TargetRepr(sinks[i]) !! TargetRepr(sinks[j]))
    }

    /** The sinks themselves, whose fields say what else they own. */
    ghost function Owners(): set<object>
      reads this
    {
      set i | 0 <= i < |sinks| :: if sinks[i].ToPoints? then sinks[i].p as object else sinks[i].m as object
    }

    ghost function Repr(): set<object>
      reads this, Owners()
    {
      set i, o | 0 <= i < |sinks| && o in TargetRepr(sinks[i]) :: o
    }

    constructor (sinks: seq<Target>)
      requires forall i :: 0 <= i < |sinks| ==> TargetValid(sinks[i])
      requires forall i, j :: 0 <= i < j < |sinks| ==> TargetRepr(sinks[i]) !! TargetRepr(sinks[j])
      ensures Valid() && this.sinks == sinks
    {
      this.sinks := sinks;
    }

    /** Every sink but the `i`-th owns what it owned and was handed nothing. */
    twostate predicate OthersUntouched(i: nat)
      reads this, Owners()
    {
      forall j :: 0 <= j < |sinks| && j != i ==> ViewOf(sinks[j]) == old(ViewOf(sinks[j]))
    }

    /** After a call that changed only what the `i`-th sink owned, and left
        that sink valid and owning only what it owned or what is new, the
        fan-out is still valid and no other sink changed. */
    twostate lemma OnlyOneChanged(i: nat)
      requires i < |sinks| && old(Valid())
      requires forall j :: 0 <= j < |sinks| && j != i ==> unchanged(old(TargetRepr(sinks[j])))
      requires TargetValid(sinks[i]) && fresh(TargetRepr(sinks[i]) - old(TargetRepr(sinks[i])))
      ensures Valid() && OthersUntouched(i)
    {
      forall j | 0 <= j < |sinks| && j != i
        ensures TargetValid(sinks[j]) && ViewOf(sinks[j]) == old(ViewOf(sinks[j]))
      {
        Untouched(sinks[j]);
      }
      forall j, k | 0 <= j < k < |sinks|
        ensures TargetRepr(sinks[j]) !! TargetRepr(sinks[k])
      {
        if j == i || k == i {
          var other := if j == i then k else j;
          forall o | o in TargetRepr(sinks[i])
            ensures o !in TargetRepr(sinks[other])
          {
            if o !in old(TargetRepr(sinks[i])) {
              assert fresh(o);
            }
          }
        }
      }
    }

    /** What the fan-out observes, sink by sink. */
    ghost function Views(): (vs: seq<SinkView>)
      reads this, Owners()
      ensures |vs| == |sinks| && forall j :: 0 <= j < |sinks| ==> vs[j] == ViewOf(sinks[j])
    {
      seq(|sinks|, j requires 0 <= j < |sinks| reads this, Owners() => ViewOf(sinks[j]))
    }

    /** `sink.emit(...)` on the `i`-th sink alone. */
    method EmitOne(i: nat, ts: int, s: Reading<F32>) returns (r: Outcome)
      requires i < |sinks| && Valid()
      modifies TargetRepr(sinks[i])
      ensures Valid() && OthersUntouched(i)
      ensures fresh(TargetRepr(sinks[i]) - old(TargetRepr(sinks[i])))
      ensures Offered(sinks[i]) == old(Offered(sinks[i])) + [s]
      ensures r.Fail? <==> EmitFails(old(StateOf(sinks[i])), ts, s)
      ensures r.Fail? ==> r.error == EmitError(old(StateOf(sinks[i])), ts, s)
    {
      label before:
      r := EmitTo(sinks[i], ts, s);
      assert forall j :: 0 <= j < |sinks| && j != i ==> unchanged@before(old@before(TargetRepr(sinks[j])));
      OnlyOneChanged@before(i);
    }

    /** `sink.close()` on the `i`-th sink alone. */
    method CloseOne(i: nat) returns (r: Outcome)
      requires i < |sinks| && Valid()
      modifies TargetRepr(sinks[i])
      ensures Valid() && OthersUntouched(i)
      ensures TargetRepr(sinks[i]) <= old(TargetRepr(sinks[i]))
      ensures Offered(sinks[i]) == old(Offered(sinks[i]))
      ensures r.Pass? ==> Closed(sinks[i])
      ensures r.Fail? <==> CloseFails(old(StateOf(sinks[i])))
      ensures r.Fail? ==> r.error == NegativeValue && StateOf(sinks[i]) == old(StateOf(sinks[i]))
    {
      label before:
      r := CloseTarget(sinks[i]);
      assert forall j :: 0 <= j < |sinks| && j != i ==> unchanged@before(old@before(TargetRepr(sinks[j])));
      OnlyOneChanged@before(i);
    }

    /** Forward the reading to every sink in list order; the first sink that
        fails stops the delivery, and the sinks after it are not called.
        `reached` counts the sinks called. */
    method Emit(ts: int, s: Reading<F32>) returns (r: Outcome, ghost reached: nat)
      requires Valid()
      modifies Repr()
      ensures Valid()
      ensures reached <= |sinks|
      ensures r.Pass? ==> reached == |sinks|
      ensures r.Fail? ==> reached >= 1
      ensures r.Fail? ==> && EmitFails(old(StateOf(sinks[reached - 1])), ts, s)
                          && r.error == EmitError(old(StateOf(sinks[reached - 1])), ts, s)
      ensures forall i :: 0 <= i < |sinks| && (r.Pass? || i < reached - 1) ==>
                !EmitFails(old(StateOf(sinks[i])), ts, s)
      ensures forall i :: 0 <= i < |sinks| ==>
                Offered(sinks[i]) == old(Offered(sinks[i])) + (if i < reached then [s] else [])
    {
      ghost var pre := Views();
      var i := 0;
      while i < |sinks|
        invariant 0 <= i <= |sinks| && Valid()
        invariant forall j :: 0 <= j < i ==>
                    Offered(sinks[j]) == pre[j].offered + [s] && !EmitFails(pre[j].state, ts, s)
        invariant forall j :: i <= j < |sinks| ==> ViewOf(sinks[j]) == pre[j]
      {
        r := EmitOne(i, ts, s);
        if r.Fail? {
          return r, i + 1;
        }
        i := i + 1;
      }
      r, reached := Pass, |sinks|;
    }

    /** Close every sink in list order; a sink that fails to close stops
        the rest. */
    method Close() returns (r: Outcome, ghost reached: nat)
      requires Valid()
      modifies Repr()
      ensures Valid()
      ensures reached <= |sinks|
      ensures r.Pass? ==> reached == |sinks|
      ensures r.Fail? ==> reached >= 1
      ensures r.Fail? ==> CloseFails(old(StateOf(sinks[reached - 1]))) && r.error == NegativeValue
      ensures forall i :: 0 <= i < |sinks| && i < reached && (r.Pass? || i < reached - 1) ==>
                Closed(sinks[i]) && !CloseFails(old(StateOf(sinks[i])))
      ensures forall i :: reached <= i < |sinks| ==> Closed(sinks[i]) == old(Closed(sinks[i]))
      ensures forall i :: 0 <= i < |sinks| ==> Offered(sinks[i]) == old(Offered(sinks[i]))
    {
      ghost var pre := Views();
      var i := 0;
      while i < |sinks|
        invariant 0 <= i <= |sinks| && Valid()
        invariant forall j :: 0 <= j < i ==>
                    Offered(sinks[j]) == pre[j].offered && Closed(sinks[j]) && !CloseFails(pre[j].state)
        invariant forall j :: i <= j < |sinks| ==> ViewOf(sinks[j]) == pre[j]
      {
        r := CloseOne(i);
        if r.Fail? {
          return r, i + 1;
        }
        i := i + 1;
      }
      r, reached := Pass, |sinks|;
    }
  }
}
