/** The input side of sources.py: the multicast receiver that checks and
    unpacks each telemetry datagram, and the idempotent `close` of both
    sources. */
module Sources {
  import opened Common
  import opened Gmc300EPlus
  import opened Sinks

  /** The receive buffer is one byte longer than a datagram, so that any
      longer datagram shows up as 23 bytes rather than 22. */
  const BUFFER_SIZE: nat := 23

  /** What `recv_into` reports for a datagram of `n` bytes: the datagram is
      cut to the buffer. */
  function Received(n: nat): (k: nat)
    ensures k <= BUFFER_SIZE && k <= n
    ensures k == PACKET_SIZE <==> n == PACKET_SIZE
  {
    Min(n, BUFFER_SIZE)
  }

  /** One datagram checked and unpacked as `!IHIIf` from offset 4, the
      sequence number dropped: `(cps, cpm, cph, usvh)`. */
  function Decode(d: seq<byte>): (r: Result<Reading<F32>>)
    ensures r.Ok? <==> |d| == PACKET_SIZE && d[..4] == MAGIC
    ensures r.Err? ==> r.error == InvalidDatagram
    ensures r.Ok? ==> Packable(r.value)
  {
    if Received(|d|) != PACKET_SIZE || d[..4] != MAGIC then Err(InvalidDatagram)
    else Ok(Reading(FromBE16(d[8..10]), FromBE32(d[10..14]), FromBE32(d[14..18]),
                    F32(FromBE32(d[18..22]))))
  }

  /** A datagram built by the multicast sink decodes to the reading it was
      built from, whatever its sequence number. */
  lemma {:induction false} DecodeEncode(n: u32, s: Reading<F32>)
    requires Packable(s)
    ensures Decode(Encode(n, s)) == Ok(s)
  {
    var d := Encode(n, s);
    BE16RoundTrip(s.cps);
    BE32RoundTrip(s.cpm);
    BE32RoundTrip(s.cph);
    BE32RoundTrip(s.usvh.bits);
  }

  /** Every datagram the receiver accepts is the one the sink would build
      for the decoded reading under the sequence number it carries. */
  lemma {:induction false} EncodeDecode(d: seq<byte>)
    requires Decode(d).Ok?
    ensures d == Encode(FromBE32(d[4..8]), Decode(d).value)
  {
    var s := Decode(d).value;
    var e := Encode(FromBE32(d[4..8]), s);
    FromBE32RoundTrip(d[4..8]);
    FromBE16RoundTrip(d[8..10]);
    FromBE32RoundTrip(d[10..14]);
    FromBE32RoundTrip(d[14..18]);
    FromBE32RoundTrip(d[18..22]);
    assert e[4..8] == d[4..8] && e[8..10] == d[8..10] && e[10..14] == d[10..14];
    assert e[14..18] == d[14..18] && e[18..22] == d[18..22];
    forall i | 0 <= i < PACKET_SIZE
      ensures e[i] == d[i]
    {
      if i < 4 {
        assert e[i] == e[..4][i];
      } else if i < 8 {
        assert e[i] == e[4..8][i - 4];
      } else if i < 10 {
        assert e[i] == e[8..10][i - 8];
      } else if i < 14 {
        assert e[i] == e[10..14][i - 10];
      } else if i < 18 {
        assert e[i] == e[14..18][i - 14];
      } else {
        assert e[i] == e[18..22][i - 18];
      }
    }
  }

  /** Two datagrams that differ only in their sequence numbers yield the
      same reading. */
  lemma {:induction false} SequenceNumberDropped(n1: u32, n2: u32, s: Reading<F32>)
    requires Packable(s)
    ensures Decode(Encode(n1, s)) == Decode(Encode(n2, s))
  {
    DecodeEncode(n1, s);
    DecodeEncode(n2, s);
  }

  /** Whatever a multicast sink has sent is received as the readings it was
      handed, in order. */
  lemma {:induction false} SentDecodesToReadings(sent: seq<seq<byte>>, readings: seq<Reading<F32>>)
    requires |readings| == |sent|
    requires forall i :: 0 <= i < |sent| ==>
               Packable(readings[i]) && sent[i] == Encode(i % SEQ_RESET, readings[i])
    ensures forall i :: 0 <= i < |sent| ==> Decode(sent[i]) == Ok(readings[i])
  {
    forall i | 0 <= i < |sent|
      ensures Decode(sent[i]) == Ok(readings[i])
    {
      DecodeEncode(i % SEQ_RESET, readings[i]);
    }
  }

  /** What one turn of a source's loop produces. */
  datatype Step = Yield(reading: Reading<F32>) | Blocked | Raised(error: Error)

  class MulticastSource {
    /** The reusable 23-byte receive buffer. */
    const buf: array<byte>
    /** The datagrams that will arrive, in order. */
    var pending: seq<seq<byte>>
    /** Whether the socket is still held. */
    var connected: bool
    /** Whether the generator has raised. */
    var finished: bool

    ghost predicate Valid()
      reads this
    {
      buf.Length == BUFFER_SIZE
    }

    /** A socket joined to the group, on which `pending` will arrive. */
    constructor (pending: seq<seq<byte>>)
      ensures Valid() && fresh(buf)
      ensures this.pending == pending && connected && !finished
    {
      buf := new byte[BUFFER_SIZE](_ => 0);
      this.pending := pending;
      connected := true;
      finished := false;
    }

    /** One turn of `__iter__`: receive the next datagram into the buffer,
        reject it unless it is exactly 22 bytes starting with the magic, and
        yield its fields. With nothing to receive the call waits. */
    method Next() returns (r: Step)
      requires Valid()
      modifies this, buf
      ensures Valid() && connected == old(connected)
      ensures old(finished) ==>
                r == Raised(Stopped) && finished && pending == old(pending)
      ensures !old(finished) && !old(connected) ==>
                r == Raised(SocketClosed) && finished && pending == old(pending)
      ensures !old(finished) && old(connected) && old(pending) == [] ==>
                r == Blocked && !finished && pending == []
      ensures !old(finished) && old(connected) && old(pending) != [] ==>
                var d := old(pending)[0];
                && pending == old(pending)[1..]
                && buf[..Received(|d|)] == d[..Received(|d|)]
                && match Decode(d)
                   case Err(e) => r == Raised(e) && finished
                   case Ok(v) => r == Yield(v) && !finished
    {
      if finished {
        return Raised(Stopped);
      }
      if !connected {
        finished := true;
        return Raised(SocketClosed);
      }
      if pending == [] {
        return Blocked;
      }
      var d := pending[0];
      pending := pending[1..];
      var n := Received(|d|);
      forall i | 0 <= i < n {
        buf[i] := d[i];
      }
      assert buf[..n] == d[..n];
      if n != PACKET_SIZE || buf[..4] != MAGIC {
        assert n == PACKET_SIZE ==> buf[..4] == d[..4];
        finished := true;
        return Raised(InvalidDatagram);
      }
      assert buf[..PACKET_SIZE] == d;
      r := Yield(Reading(FromBE16(buf[8..10]), FromBE32(buf[10..14]), FromBE32(buf[14..18]),
                         F32(FromBE32(buf[18..22]))));
    }

    /** Close the socket and drop it; a second call returns at once. */
    method Close()
      modifies this
      ensures !connected && pending == old(pending) && finished == old(finished)
    {
      if !connected {
        return;
      }
      connected := false;
    }
  }

  class GeigerSource {
    /** The device, until the source is closed. */
    var g: Device?

    constructor (g: Device)
      ensures this.g == g
    {
      this.g := g;
    }

    /** Close the device's link and drop the device; a second call returns
        at once. */
    method Close()
      modifies this, if g != null then {g.link} else {}
      ensures g == null
      ensures old(g) != null ==>
                && !old(g).link.isOpen
                && old(g).link.input == old(g.link.input) && old(g).link.frames == old(g.link.frames)
    {
      if g == null {
        return;
      }
      g.Close();
      g := null;
    }
  }
}
