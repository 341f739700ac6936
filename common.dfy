/** Shared vocabulary of the geigermon model: bytes, fixed-width big- and
    little-endian integers as the `struct` module packs them, error results,
    and the reading tuple that flows from the device to the sinks. */
module Common {

  newtype byte = x: int | 0 <= x < 256

  type u16 = x: int | 0 <= x < 0x1_0000
  type u32 = x: int | 0 <= x < 0x1_0000_0000

  /** The failures the source signals with exceptions. */
  datatype Error =
    | EndOfStream       // the serial link returned fewer bytes than asked ("EOF")
    | BadAck            // an acknowledged command was not answered with 0xAA ("bad data")
    | BadDateTime       // a date-time field does not fit an unsigned byte (struct.error)
    | ShortConfig       // the configuration blob is too short to unpack the calibration
    | DivisionByZero    // a zero divisor in the conversion or the scaled estimate
    | NegativeValue     // a negative sample handed to a point file
    | MapClosed         // a point written after the map was closed
    | LinkClosed        // I/O on a closed serial descriptor
    | FieldOutOfRange   // a telemetry field does not fit its packed width (struct.error)
    | SocketClosed      // a send or receive after the socket was closed
    | NoFile            // the point-file sink has no open file for the current day
    | InvalidDatagram   // a received datagram of the wrong length or magic
    | EmptyDeque        // a pop from an empty deque (a negative window capacity)
    | Stopped           // the generator has already finished

  datatype Result<T> = Ok(value: T) | Err(error: Error)

  datatype Outcome = Pass | Fail(error: Error)

  datatype Option<T> = None | Some(value: T)

  /** A 32-bit IEEE-754 value, kept as its bit pattern. */
  datatype F32 = F32(bits: u32)

  /** One reading `(cps, cpm, cph, usvh)`; the type of `usvh` depends on
      where in the pipeline the reading is. */
  datatype Reading<U> = Reading(cps: int, cpm: int, cph: int, usvh: U)

  function Min(a: int, b: int): int { if a <= b then a else b }

  function Max(a: int, b: int): int { if a >= b then a else b }

  /** Concatenation regrouped, proved once for any elements. */
  lemma AppendAssoc<T>(a: seq<T>, b: seq<T>, c: seq<T>)
    ensures (a + b) + c == a + (b + c)
  {
  }

  /** `struct.pack(">H", x)` */
  function BE16(x: u16): (r: seq<byte>)
    ensures |r| == 2
  {
    [(x / 0x100) as byte, (x % 0x100) as byte]
  }

  /** `struct.unpack(">H", b)` */
  function FromBE16(b: seq<byte>): (x: u16)
    requires |b| == 2
  {
    b[0] as int * 0x100 + b[1] as int
  }

  /** `struct.pack(">I", x)` */
  function BE32(x: u32): (r: seq<byte>)
    ensures |r| == 4
  {
    [(x / 0x100_0000) as byte, (x / 0x1_0000 % 0x100) as byte,
     (x / 0x100 % 0x100) as byte, (x % 0x100) as byte]
  }

  /** `struct.unpack(">I", b)` */
  function FromBE32(b: seq<byte>): (x: u32)
    requires |b| == 4
  {
    ((b[0] as int * 0x100 + b[1] as int) * 0x100 + b[2] as int) * 0x100 + b[3] as int
  }

  /** `struct.unpack("<I", b)`: the same four bytes read in the opposite order. */
  function FromLE32(b: seq<byte>): (x: u32)
    requires |b| == 4
  {
    FromBE32([b[3], b[2], b[1], b[0]])
  }

  lemma BE16RoundTrip(x: u16)
    ensures FromBE16(BE16(x)) == x
  {
  }

  lemma {:induction false} FromBE16RoundTrip(b: seq<byte>)
    requires |b| == 2
    ensures BE16(FromBE16(b)) == b
  {
    var x := FromBE16(b);
    assert x / 0x100 == b[0] as int && x % 0x100 == b[1] as int;
  }

  lemma {:induction false} BE32RoundTrip(x: u32)
    ensures FromBE32(BE32(x)) == x
  {
    var r := BE32(x);
    var hi := x / 0x1_0000;
    assert x / 0x100_0000 == hi / 0x100;
    assert x / 0x1_0000 % 0x100 == hi % 0x100;
    assert r[0] as int * 0x100 + r[1] as int == hi;
    var mid := x / 0x100;
    assert mid == hi * 0x100 + mid % 0x100;
    assert x == mid * 0x100 + x % 0x100;
  }

  lemma {:induction false} FromBE32RoundTrip(b: seq<byte>)
    requires |b| == 4
    ensures BE32(FromBE32(b)) == b
  {
    var x := FromBE32(b);
    var hi := b[0] as int * 0x100 + b[1] as int;
    var mid := hi * 0x100 + b[2] as int;
    ByteDigit(hi * 0x100 + b[2] as int, b[3] as int);
    ByteDigit(hi, b[2] as int);
    ByteDigit(b[0] as int, b[1] as int);
    DropBytes(x);
    assert x / 0x100 == mid && mid / 0x100 == hi && hi / 0x100 == b[0] as int;
  }

  /** Splitting off the lowest byte of `q * 256 + r`. */
  lemma ByteDigit(q: int, r: int)
    requires 0 <= r < 0x100
    ensures (q * 0x100 + r) / 0x100 == q && (q * 0x100 + r) % 0x100 == r
  {
  }

  /** Dropping one byte and then another is dropping two, or three. */
  lemma DropBytes(x: int)
    ensures x / 0x100 / 0x100 == x / 0x1_0000
    ensures x / 0x1_0000 / 0x100 == x / 0x100_0000
  {
  }
}
