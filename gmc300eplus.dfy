/** The GQ GMC-300E+ driver of gmc300eplus.py: calibration parsing and tier
    selection, the serial link as an input byte stream plus a log of written
    frames, the handshake and configuration reconciliation, and one step of
    the sample stream. */
module Gmc300EPlus {
  import opened Common
  import opened Util

  // ---------------------------------------------------------------------
  // Calibration

  const ADDRESS_CALIBRATE1_CPM: nat := 0x08
  const ADDRESS_CALIBRATE1_USVH: nat := 0x0a
  const ADDRESS_CALIBRATE2_CPM: nat := 0x0e
  const ADDRESS_CALIBRATE2_USVH: nat := 0x10
  const ADDRESS_CALIBRATE3_CPM: nat := 0x14
  const ADDRESS_CALIBRATE3_USVH: nat := 0x16

  /** One calibration point: a count-rate threshold and its dose scale. */
  datatype Tier = Tier(cpm: u16, usvh: F32)

  datatype Converter = Converter(c1: Tier, c2: Tier, c3: Tier)

  /** The unsigned 16-bit field at `i` in the given byte order. */
  function U16At(b: seq<byte>, i: nat, bigEndian: bool): u16
    requires i + 2 <= |b|
  {
    if bigEndian then FromBE16(b[i..i + 2]) else FromBE16([b[i + 1], b[i]])
  }

  /** The 32-bit field at `i` in the given byte order. */
  function U32At(b: seq<byte>, i: nat, bigEndian: bool): u32
    requires i + 4 <= |b|
  {
    if bigEndian then FromBE32(b[i..i + 4]) else FromLE32(b[i..i + 4])
  }

  /** `struct.unpack(fmt + "HfHfHf", b)` for an 18-byte `b`: fields at 0, 2,
      6, 8, 12 and 14, the floats kept as their bit patterns. */
  function UnpackHfHfHf(b: seq<byte>, bigEndian: bool): (u16, u32, u16, u32, u16, u32)
    requires |b| == 18
  {
    (U16At(b, 0, bigEndian), U32At(b, 2, bigEndian), U16At(b, 6, bigEndian),
     U32At(b, 8, bigEndian), U16At(b, 12, bigEndian), U32At(b, 14, bigEndian))
  }

  /** `Converter(cfg)`: the slice from the first threshold to the end of the
      last scale is unpacked twice, big-endian for the thresholds and
      little-endian for the scales. A short slice makes `struct.unpack` raise. */
  function ParseConverter(cfg: seq<byte>): (r: Result<Converter>)
    ensures r.Err? <==> |cfg| < 26
    ensures r.Err? ==> r.error == ShortConfig
    ensures r.Ok? ==>
      && r.value.c1.cpm == FromBE16(cfg[8..10])
      && r.value.c2.cpm == FromBE16(cfg[14..16])
      && r.value.c3.cpm == FromBE16(cfg[20..22])
    ensures r.Ok? ==>
      && r.value.c1.usvh == F32(FromLE32(cfg[10..14]))
      && r.value.c2.usvh == F32(FromLE32(cfg[16..20]))
      && r.value.c3.usvh == F32(FromLE32(cfg[22..26]))
  {
    var slice := cfg[Min(ADDRESS_CALIBRATE1_CPM, |cfg|)..Min(ADDRESS_CALIBRATE3_USVH + 4, |cfg|)];
    if |slice| != 18 then Err(ShortConfig)
    else
      var (c1Cpm, _, c2Cpm, _, c3Cpm, _) := UnpackHfHfHf(slice, true);
      var (_, c1Usvh, _, c2Usvh, _, c3Usvh) := UnpackHfHfHf(slice, false);
      assert slice[0..2] == cfg[8..10] && slice[6..8] == cfg[14..16] && slice[12..14] == cfg[20..22];
      assert slice[2..6] == cfg[10..14] && slice[8..12] == cfg[16..20] && slice[14..18] == cfg[22..26];
      Ok(Converter(Tier(c1Cpm, F32(c1Usvh)), Tier(c2Cpm, F32(c2Usvh)), Tier(c3Cpm, F32(c3Usvh))))
  }

  /** Which tier `convert` uses for a rate: the third above its threshold,
      else the second above its threshold, else the first. */
  function TierOf(c: Converter, rate: real): (k: int)
    ensures 1 <= k <= 3
    ensures k == 3 <==> rate > c.c3.cpm as real
    ensures k == 1 <==> !(rate > c.c3.cpm as real) && !(rate > c.c2.cpm as real)
  {
    if rate > c.c3.cpm as real then 3
    else if rate > c.c2.cpm as real then 2
    else 1
  }

  function TierAt(c: Converter, k: int): Tier
  {
    if k == 3 then c.c3 else if k == 2 then c.c2 else c.c1
  }

  /** With ascending thresholds the chosen tier is the highest one whose
      threshold lies strictly below the rate, and the first when none does. */
  lemma TierOfIsHighestExceeded(c: Converter, rate: real)
    requires c.c2.cpm <= c.c3.cpm
    ensures TierOf(c, rate) == 3 <==> rate > c.c3.cpm as real
    ensures TierOf(c, rate) == 2 <==> c.c2.cpm as real < rate <= c.c3.cpm as real
    ensures TierOf(c, rate) == 1 <==> rate <= c.c2.cpm as real
  {
  }

  /** A higher rate never selects a lower tier when the thresholds ascend. */
  lemma TierOfMonotone(c: Converter, lo: real, hi: real)
    requires c.c2.cpm <= c.c3.cpm && lo <= hi
    ensures TierOf(c, lo) <= TierOf(c, hi)
  {
  }

  /** The first threshold is never compared: only its scale is used. */
  lemma TierOfIgnoresFirstThreshold(c: Converter, t: u16, rate: real)
    ensures TierOf(c.(c1 := c.c1.(cpm := t)), rate) == TierOf(c, rate)
  {
  }

  /** `(rate * scale) / (threshold * 60)` for the tier that was chosen,
      kept symbolic because the scale is a float. */
  datatype Dose = Dose(rate: real, threshold: u16, scale: F32)

  /** `convert(rate)`; a zero threshold in the chosen tier divides by zero. */
  function Convert(c: Converter, rate: real): (r: Result<Dose>)
    ensures r.Err? <==> TierAt(c, TierOf(c, rate)).cpm == 0
    ensures r.Err? ==> r.error == DivisionByZero
    ensures r.Ok? ==> r.value.rate == rate
    ensures r.Ok? && rate > c.c3.cpm as real ==> r.value.threshold == c.c3.cpm && r.value.scale == c.c3.usvh
    ensures r.Ok? && !(rate > c.c3.cpm as real) && rate > c.c2.cpm as real ==>
              r.value.threshold == c.c2.cpm && r.value.scale == c.c2.usvh
    ensures r.Ok? && rate <= c.c3.cpm as real && rate <= c.c2.cpm as real ==>
              r.value.threshold == c.c1.cpm && r.value.scale == c.c1.usvh
  {
    var t := TierAt(c, TierOf(c, rate));
    if t.cpm == 0 then Err(DivisionByZero) else Ok(Dose(rate, t.cpm, t.usvh))
  }

  // ---------------------------------------------------------------------
  // The serial link

  /** The only line speed the driver opens the device at. */
  const BAUD: int := 57600

  class Link {
    /** The bytes the device will still deliver, in order; reading past the
        end is end of file. */
    var input: seq<byte>
    /** Every command written to the device, in order; `FrameBytes` gives
        the bytes of each. */
    var frames: seq<Command>
    var isOpen: bool
    const baud: int

    constructor (input: seq<byte>, baud: int)
      ensures this.input == input && frames == [] && isOpen && this.baud == baud
    {
      this.input := input;
      frames := [];
      isOpen := true;
      this.baud := baud;
    }

    /** Write the bytes of one command. */
    method Write(c: Command)
      requires isOpen
      modifies this
      ensures frames == old(frames) + [c] && input == old(input) && isOpen
    {
      frames := frames + [c];
    }

    /** Read up to `l` bytes, looping over short reads; stops early only at
        end of file. Each underlying read may return any non-empty part of
        what is asked for. */
    method Read(l: nat) returns (buf: seq<byte>)
      requires isOpen
      modifies this
      ensures buf == old(input)[..Min(l, |old(input)|)]
      ensures input == old(input)[|buf|..]
      ensures frames == old(frames) && isOpen
    {
      buf := [];
      var remaining := l;
      while remaining > 0
        invariant 0 <= remaining <= l && |buf| == l - remaining
        invariant |buf| <= |old(input)| && buf == old(input)[..|buf|]
        invariant input == old(input)[|buf|..]
        invariant frames == old(frames) && isOpen
      {
        if input == [] {
          return;
        }
        var n :| 1 <= n <= remaining && n <= |input|;
        buf := buf + input[..n];
        input := input[n..];
        remaining := remaining - n;
      }
    }

    /** Discard the `stale` bytes that arrived before the flush. */
    method Drain(stale: nat)
      requires isOpen
      modifies this
      ensures input == old(input)[Min(stale, |old(input)|)..]
      ensures frames == old(frames) && isOpen
    {
      input := input[Min(stale, |input|)..];
    }

    /** Close the descriptor; a second call returns at once. */
    method Close()
      modifies this
      ensures !isOpen && input == old(input) && frames == old(frames)
    {
      if !isOpen {
        return;
      }
      isOpen := false;
    }
  }

  // ---------------------------------------------------------------------
  // Command frames and the configuration the driver wants

  const ACK: byte := 0xAA
  const CONFIG_SIZE: nat := 256

  /** The commands the driver sends. */
  datatype Command =
    | Heartbeat0
    | Heartbeat1
    | SetDateTime(fields: seq<byte>)
    | GetCfg
    | PowerOn
    | Ecfg
    | Wcfg(pos: byte, value: byte)
    | CfgUpdate

  /** A bytes literal: one byte per character, each its character code. */
  function Ascii(s: string): (b: seq<byte>)
    requires forall i :: 0 <= i < |s| ==> s[i] as int < 128
    ensures |b| == |s|
    ensures forall i :: 0 <= i < |b| ==> b[i] as int == s[i] as int
  {
    seq(|s|, i requires 0 <= i < |s| => s[i] as int as byte)
  }

  /** The bytes written for a command: `<`, the command's name, its
      arguments as raw bytes, and `>>`. */
  function FrameBytes(c: Command): (r: seq<byte>)
    ensures |r| >= 4 && r[0] == 0x3C && r[|r| - 2..] == [0x3E, 0x3E]
    ensures c.Wcfg? ==> |r| == 9 && r[5..7] == [c.pos, c.value]
    ensures c.SetDateTime? ==> |r| == 14 + |c.fields| && r[12..12 + |c.fields|] == c.fields
  {
    match c
    case Heartbeat0 => Ascii("<HEARTBEAT0>>")
    case Heartbeat1 => Ascii("<HEARTBEAT1>>")
    case SetDateTime(fields) => Ascii("<SETDATETIME") + fields + Ascii(">>")
    case GetCfg => Ascii("<GETCFG>>")
    case PowerOn => Ascii("<POWERON>>")
    case Ecfg => Ascii("<ECFG>>")
    case Wcfg(pos, value) => Ascii("<WCFG") + [pos, value] + Ascii(">>")
    case CfgUpdate => Ascii("<CFGUPDATE>>")
  }

  /** The configuration the driver wants the device to hold (70 bytes). */
  const DESIRED_CONFIG: seq<byte> := [
    0x00, 0x01, 0x00, 0x00, 0x1f, 0x00, 0x00, 0x64, 0x00, 0x3c,
    0x14, 0xae, 0xc7, 0x3e, 0x00, 0xf0, 0x14, 0xae, 0xc7, 0x3f,
    0x03, 0xe8, 0x00, 0x00, 0xd0, 0x40, 0x03, 0x00, 0x00, 0x00,
    0x3f, 0x00, 0x01, 0x00, 0x00, 0x00, 0x00, 0x00, 0xff, 0xff,
    0xff, 0xff, 0xff, 0xff, 0x01, 0x01, 0x00, 0x78, 0x19, 0xff,
    0xff, 0x3c, 0x00, 0x08, 0xff, 0x01, 0x00, 0xfc, 0x0a, 0x00,
    0x01, 0x0a, 0x15, 0x09, 0x0c, 0x11, 0x2a, 0x24, 0xff, 0xff]

  /** Which offsets the driver compares: '1' compares, '0' skips (75 characters). */
  const BYTE_MASK: string := "011111011000000000000000001000011111110000001000100011101001000000000000000"

  /** The length of `zip(BYTE_MASK, cfg, DESIRED_CONFIG)`. */
  function ZipLen(cfg: seq<byte>): (n: nat)
    ensures n <= |cfg| && n <= |DESIRED_CONFIG| && n <= |BYTE_MASK|
    ensures n == |DESIRED_CONFIG| || n == |cfg|
  {
    Min(Min(|BYTE_MASK|, |cfg|), |DESIRED_CONFIG|)
  }

  /** Some compared offset of the zipped range holds a byte other than the desired one. */
  predicate UpdateNeeded(cfg: seq<byte>)
  {
    exists pos :: 0 <= pos < ZipLen(cfg) && BYTE_MASK[pos] != '0' && cfg[pos] != DESIRED_CONFIG[pos]
  }

  /** The scan over the zipped range that decides whether to rewrite the configuration. */
  method ConfigUpdateNeeded(cfg: seq<byte>) returns (needed: bool)
    ensures needed <==> UpdateNeeded(cfg)
  {
    needed := false;
    var pos := 0;
    while pos < ZipLen(cfg)
      invariant 0 <= pos <= ZipLen(cfg) && !needed
      invariant forall i :: 0 <= i < pos ==> BYTE_MASK[i] == '0' || cfg[i] == DESIRED_CONFIG[i]
    {
      if BYTE_MASK[pos] == '0' {
        pos := pos + 1;
        continue;
      }
      if cfg[pos] != DESIRED_CONFIG[pos] {
        needed := true;
        break;
      }
      pos := pos + 1;
    }
  }

  datatype DateTime = DateTime(year: int, month: int, day: int, hour: int, minute: int, second: int)

  function Fits(x: int): bool { 0 <= x < 256 }

  /** `struct.pack(">BBBBBB", year - 2000, month, day, hour, minute, second)`. */
  function DateTimeBytes(d: DateTime): (r: Result<seq<byte>>)
    ensures r.Ok? ==> |r.value| == 6 && r.value[0] as int == d.year - 2000
    ensures r.Ok? ==> r.value[1] as int == d.month && r.value[2] as int == d.day
                      && r.value[3] as int == d.hour && r.value[4] as int == d.minute
                      && r.value[5] as int == d.second
    ensures r.Err? <==> !(Fits(d.year - 2000) && Fits(d.month) && Fits(d.day)
                          && Fits(d.hour) && Fits(d.minute) && Fits(d.second))
  {
    if Fits(d.year - 2000) && Fits(d.month) && Fits(d.day)
       && Fits(d.hour) && Fits(d.minute) && Fits(d.second)
    then Ok([(d.year - 2000) as byte, d.month as byte, d.day as byte,
             d.hour as byte, d.minute as byte, d.second as byte])
    else Err(BadDateTime)
  }

  // ---------------------------------------------------------------------
  // The handshake as a function of the device's replies

  /** `rest` is what is left of `input` once some prefix has been read. */
  predicate Remains(rest: seq<byte>, input: seq<byte>)
  {
    |rest| <= |input| && rest == input[|input| - |rest|..]
  }

  /** The input left after `read(l)`. */
  function Consume(input: seq<byte>, l: nat): (rest: seq<byte>)
    ensures Remains(rest, input)
  {
    input[Min(l, |input|)..]
  }

  /** `read(1) == b"\xaa"` */
  predicate AckAt(input: seq<byte>, i: nat)
  {
    i < |input| && input[i] == ACK
  }

  /** The WCFG frames for positions `0 .. k-1`, each carrying the desired byte. */
  function WcfgFrames(k: nat): (fs: seq<Command>)
    requires k <= |DESIRED_CONFIG|
    ensures |fs| == k
  {
    seq(k, i requires 0 <= i < k => Wcfg(i as byte, DESIRED_CONFIG[i]))
  }

  /** The first of the positions `0 .. n-1` whose acknowledgement is missing
      or wrong, or `n` when all of them are `0xAA`. */
  function FirstBadAck(acks: seq<byte>, n: nat): (k: nat)
    ensures k <= n
    ensures forall i :: 0 <= i < k ==> AckAt(acks, i)
    ensures k < n ==> !AckAt(acks, k)
  {
    if n == 0 then 0
    else
      var k := FirstBadAck(acks, n - 1);
      if k < n - 1 || !AckAt(acks, n - 1) then k else n
  }

  lemma WcfgFramesSnoc(k: nat)
    requires k < |DESIRED_CONFIG|
    ensures WcfgFrames(k + 1) == WcfgFrames(k) + [Wcfg(k as byte, DESIRED_CONFIG[k])]
  {
  }

  /** The first bad acknowledgement is the position that the three
      properties of `FirstBadAck` single out. */
  lemma FirstBadAckUnique(acks: seq<byte>, n: nat, k: nat)
    requires k <= n
    requires forall i :: 0 <= i < k ==> AckAt(acks, i)
    requires k < n ==> !AckAt(acks, k)
    ensures FirstBadAck(acks, n) == k
  {
  }

  /** What was written, how it ended and what input is left. */
  datatype Trace = Trace(frames: seq<Command>, outcome: Result<Converter>, rest: seq<byte>)

  /** The configuration write-back: `<ECFG>>`, one `<WCFG pos desired>>` per
      zipped position with its acknowledgement, `<CFGUPDATE>>` with its
      acknowledgement and `<POWERON>>`; stops at the first bad acknowledgement. */
  function Rewrite(cfg: seq<byte>, input: seq<byte>): (w: (seq<Command>, Outcome, seq<byte>))
    ensures |w.0| >= 2 && w.0[0] == Ecfg
    ensures w.1.Fail? ==> w.1.error == BadAck
    ensures w.1.Pass? ==> w.0[|w.0| - 2..] == [CfgUpdate, PowerOn]
  {
    var n := ZipLen(cfg);
    var k := FirstBadAck(input, n);
    if k < n then ([Ecfg] + WcfgFrames(k + 1), Fail(BadAck), Consume(input, k + 1))
    else if !AckAt(input, n) then ([Ecfg] + WcfgFrames(n) + [CfgUpdate], Fail(BadAck), Consume(input, n + 1))
    else ([Ecfg] + WcfgFrames(n) + [CfgUpdate, PowerOn], Pass, input[n + 1..])
  }

  /** The end of the constructor, once the configuration has been parsed:
      a power-on when its first byte is non-zero, the rewrite when it is
      needed, and the closing heartbeat on success. */
  function Finish(cfg: seq<byte>, conv: Converter, input: seq<byte>): (t: Trace)
    requires |cfg| > 0
    ensures t.outcome.Ok? ==> t.outcome.value == conv && t.frames != [] && t.frames[|t.frames| - 1] == Heartbeat1
    ensures t.outcome.Err? ==> t.outcome.error == BadAck
  {
    var f := if cfg[0] != 0 then [PowerOn] else [];
    if !UpdateNeeded(cfg) then Trace(f + [Heartbeat1], Ok(conv), input)
    else
      var (w, o, rest) := Rewrite(cfg, input);
      if o.Fail? then Trace(f + w, Err(o.error), rest)
      else Trace(f + w + [Heartbeat1], Ok(conv), rest)
  }

  /** The configuration the device sends for `<GETCFG>>`: up to 256 bytes. */
  function FetchedConfig(input: seq<byte>): (cfg: seq<byte>)
  {
    input[..Min(CONFIG_SIZE, |input|)]
  }

  /** After the clock is set: `<GETCFG>>`, the read of up to 256 bytes,
      the calibration parse, then `Finish`. */
  function AfterClock(input: seq<byte>): (t: Trace)
    ensures t.frames != [] && t.frames[0] == GetCfg
    ensures t.outcome.Err? ==> t.outcome.error == ShortConfig || t.outcome.error == BadAck
  {
    var cfg := FetchedConfig(input);
    var rest := input[|cfg|..];
    match ParseConverter(cfg)
    case Err(e) => Trace([GetCfg], Err(e), rest)
    case Ok(conv) =>
      var t := Finish(cfg, conv, rest);
      Trace([GetCfg] + t.frames, t.outcome, t.rest)
  }

  /** The whole constructor: heartbeat, flush of `stale` bytes, clock set
      and its acknowledgement, then `AfterClock`. */
  function Handshake(now: DateTime, stale: nat, input: seq<byte>): (t: Trace)
    ensures t.frames != [] && t.frames[0] == Heartbeat0
    ensures t.outcome.Ok? ==> DateTimeBytes(now).Ok? && |t.frames| >= 4
                              && t.frames[1] == SetDateTime(DateTimeBytes(now).value)
                              && t.frames[2] == GetCfg && t.frames[|t.frames| - 1] == Heartbeat1
  {
    var input := Consume(input, stale);
    match DateTimeBytes(now)
    case Err(e) => Trace([Heartbeat0], Err(e), input)
    case Ok(df) =>
      var f := [Heartbeat0, SetDateTime(df)];
      if !AckAt(input, 0) then Trace(f, Err(BadAck), Consume(input, 1))
      else
        var t := AfterClock(input[1..]);
        Trace(f + t.frames, t.outcome, t.rest)
  }

  // ---------------------------------------------------------------------
  // The device object

  class Device {
    const link: Link
    const conv: Converter

    constructor (link: Link, conv: Converter)
      ensures this.link == link && this.conv == conv
    {
      this.link := link;
      this.conv := conv;
    }

    method Close()
      modifies link
      ensures !link.isOpen && link.input == old(link.input) && link.frames == old(link.frames)
    {
      link.Close();
    }
  }

  /** The loop of the write-back: one `<WCFG pos desired>>` per position of
      the zipped range, each followed by its acknowledgement; stops at the
      first bad one, after having sent its frame. */
  method WriteEveryPosition(link: Link, cfg: seq<byte>) returns (ok: bool)
    requires link.isOpen
    modifies link
    ensures var n := ZipLen(cfg);
            var k := FirstBadAck(old(link.input), n);
            var sent := if k < n then k + 1 else n;
            && ok == (k == n)
            && link.frames == old(link.frames) + WcfgFrames(sent)
            && link.input == Consume(old(link.input), sent)
    ensures link.isOpen
  {
    ghost var rest := link.input;
    ghost var before := link.frames;
    ghost var n := ZipLen(cfg);
    var pos := 0;
    while pos < ZipLen(cfg)
      invariant 0 <= pos <= n && pos <= |rest|
      invariant forall i :: 0 <= i < pos ==> AckAt(rest, i)
      invariant link.input == rest[pos..] && link.isOpen
      invariant link.frames == before + WcfgFrames(pos)
    {
      // The source also computes the byte it meant to send (the fetched
      // byte where the mask is '0'), but sends the desired byte.
      link.Write(Wcfg(pos as byte, DESIRED_CONFIG[pos]));
      WcfgFramesSnoc(pos);
      var ack := link.Read(1);
      if ack != [ACK] {
        assert !AckAt(rest, pos);
        FirstBadAckUnique(rest, n, pos);
        return false;
      }
      assert AckAt(rest, pos);
      pos := pos + 1;
    }
    FirstBadAckUnique(rest, n, n);
    ok := true;
  }

  /** The write-back: `<ECFG>>`, every position, then the commit and the power-on. */
  method WriteConfig(link: Link, cfg: seq<byte>) returns (o: Outcome)
    requires link.isOpen
    modifies link
    ensures var (w, o', rest) := Rewrite(cfg, old(link.input));
            link.frames == old(link.frames) + w && o == o' && link.input == rest
    ensures link.isOpen
  {
    ghost var input := link.input;
    ghost var before := link.frames;
    ghost var n := ZipLen(cfg);
    ghost var k := FirstBadAck(input, n);
    link.Write(Ecfg);
    var ok := WriteEveryPosition(link, cfg);
    if !ok {
      AppendAssoc(before, [Ecfg], WcfgFrames(k + 1));
      return Fail(BadAck);
    }
    assert k == n && link.input == input[n..];
    link.Write(CfgUpdate);
    var ack := link.Read(1);
    if ack != [ACK] {
      assert !AckAt(input, n);
      AppendAssoc(before, [Ecfg], WcfgFrames(n));
      AppendAssoc(before, [Ecfg] + WcfgFrames(n), [CfgUpdate]);
      return Fail(BadAck);
    }
    assert AckAt(input, n);
    link.Write(PowerOn);
    AppendAssoc(before, [Ecfg], WcfgFrames(n));
    AppendAssoc(before, [Ecfg] + WcfgFrames(n), [CfgUpdate]);
    AppendAssoc(before, [Ecfg] + WcfgFrames(n) + [CfgUpdate], [PowerOn]);
    assert [Ecfg] + WcfgFrames(n) + [CfgUpdate] + [PowerOn] == [Ecfg] + WcfgFrames(n) + [CfgUpdate, PowerOn];
    o := Pass;
  }

  /** The part of the constructor after the configuration was parsed. */
  method Configure(link: Link, cfg: seq<byte>, conv: Converter) returns (o: Outcome)
    requires link.isOpen && |cfg| > 0
    modifies link
    ensures var t := Finish(cfg, conv, old(link.input));
            && link.frames == old(link.frames) + t.frames && link.input == t.rest
            && (o.Pass? <==> t.outcome.Ok?) && (o.Fail? ==> t.outcome == Err(o.error))
    ensures link.isOpen
  {
    ghost var before := link.frames;
    ghost var sent: seq<Command> := [];
    ghost var t := Finish(cfg, conv, link.input);
    if cfg[0] != 0 {
      link.Write(PowerOn);
      sent := [PowerOn];
    }
    assert link.frames == before + sent;
    var needed := ConfigUpdateNeeded(cfg);
    if needed {
      ghost var rewrite := Rewrite(cfg, link.input);
      o := WriteConfig(link, cfg);
      AppendAssoc(before, sent, rewrite.0);
      sent := sent + rewrite.0;
      if o.Fail? {
        assert t == Trace(sent, Err(o.error), rewrite.2);
        return;
      }
      assert t == Trace(sent + [Heartbeat1], Ok(conv), rewrite.2);
    } else {
      assert t == Trace(sent + [Heartbeat1], Ok(conv), link.input);
    }
    link.Write(Heartbeat1);
    AppendAssoc(before, sent, [Heartbeat1]);
    o := Pass;
  }

  /** `AfterClock` split on the outcome of the parse. */
  lemma AfterClockParsed(input: seq<byte>)
    ensures var cfg := FetchedConfig(input);
            match ParseConverter(cfg)
            case Err(e) => AfterClock(input) == Trace([GetCfg], Err(e), input[|cfg|..])
            case Ok(conv) =>
              var t := Finish(cfg, conv, input[|cfg|..]);
              AfterClock(input) == Trace([GetCfg] + t.frames, t.outcome, t.rest)
  {
  }

  /** The part of the constructor after the clock was set. */
  method FetchAndConfigure(link: Link) returns (r: Result<Converter>)
    requires link.isOpen
    modifies link
    ensures var t := AfterClock(old(link.input));
            && link.frames == old(link.frames) + t.frames && link.input == t.rest
            && r == t.outcome
    ensures link.isOpen
  {
    ghost var input := link.input;
    ghost var before := link.frames;
    link.Write(GetCfg);
    var cfg := link.Read(CONFIG_SIZE);
    assert cfg == FetchedConfig(input) && link.input == input[|cfg|..];
    var conv := ParseConverter(cfg);
    AfterClockParsed(input);
    if conv.Err? {
      return Err(conv.error);
    }
    ghost var t := Finish(cfg, conv.value, link.input);
    var o := Configure(link, cfg, conv.value);
    AppendAssoc(before, [GetCfg], t.frames);
    if o.Fail? {
      return Err(o.error);
    }
    r := Ok(conv.value);
  }

  /** `GMC300EPlus(device, baud)`: opens the link at 57600 whatever `baud`
      says, and runs the handshake over the device's replies `input`. */
  method Connect(input: seq<byte>, baud: int, stale: nat, now: DateTime)
    returns (link: Link, r: Result<Device>)
    ensures fresh(link) && link.baud == BAUD && link.isOpen
    ensures var t := Handshake(now, stale, input);
            && link.frames == t.frames && link.input == t.rest
            && r.Ok? == t.outcome.Ok?
            && (r.Err? ==> r.error == t.outcome.error)
            && (r.Ok? ==> fresh(r.value) && r.value.link == link && r.value.conv == t.outcome.value)
  {
    link := new Link(input, BAUD);
    link.Write(Heartbeat0);
    link.Drain(stale);
    ghost var drained := link.input;
    assert drained == Consume(input, stale);
    var df := DateTimeBytes(now);
    if df.Err? {
      return link, Err(df.error);
    }
    link.Write(SetDateTime(df.value));
    ghost var greeting := link.frames;
    assert greeting == [Heartbeat0, SetDateTime(df.value)];
    var ack := link.Read(1);
    if ack != [ACK] {
      assert !AckAt(drained, 0);
      return link, Err(BadAck);
    }
    assert AckAt(drained, 0) && link.input == drained[1..];
    ghost var t := AfterClock(drained[1..]);
    assert Handshake(now, stale, input) == Trace(greeting + t.frames, t.outcome, t.rest);
    var conv := FetchAndConfigure(link);
    if conv.Err? {
      return link, Err(conv.error);
    }
    var dev := new Device(link, conv.value);
    r := Ok(dev);
  }

  // ---------------------------------------------------------------------
  // Properties of the handshake

  /** The configuration the handshake fetches from the drained input. */
  function ConfigOf(drained: seq<byte>): seq<byte>
  {
    if |drained| == 0 then [] else FetchedConfig(drained[1..])
  }

  /** The input left after the configuration was fetched. */
  function AfterConfig(drained: seq<byte>): seq<byte>
  {
    if |drained| == 0 then [] else drained[1..][|ConfigOf(drained)|..]
  }

  lemma {:induction false} FinishFramesOnSuccess(cfg: seq<byte>, conv: Converter, rest: seq<byte>)
    requires |cfg| > 0 && Finish(cfg, conv, rest).outcome.Ok?
    ensures Finish(cfg, conv, rest).frames
            == (if cfg[0] != 0 then [PowerOn] else [])
               + (if UpdateNeeded(cfg) then [Ecfg] + WcfgFrames(ZipLen(cfg)) + [CfgUpdate, PowerOn] else [])
               + [Heartbeat1]
  {
    if UpdateNeeded(cfg) {
      var n := ZipLen(cfg);
      assert FirstBadAck(rest, n) == n && AckAt(rest, n);
    }
  }

  /** On success the log is exactly: heartbeat, clock set, configuration
      request, a power-on when the first configuration byte is non-zero,
      the rewrite when and only when it is needed, and the closing heartbeat. */
  lemma {:induction false} HandshakeFramesOnSuccess(now: DateTime, stale: nat, input: seq<byte>)
    requires Handshake(now, stale, input).outcome.Ok?
    ensures var cfg := ConfigOf(Consume(input, stale));
            && DateTimeBytes(now).Ok? && |cfg| >= 26
            && Handshake(now, stale, input).frames
               == [Heartbeat0, SetDateTime(DateTimeBytes(now).value), GetCfg]
                  + (if cfg[0] != 0 then [PowerOn] else [])
                  + (if UpdateNeeded(cfg) then [Ecfg] + WcfgFrames(ZipLen(cfg)) + [CfgUpdate, PowerOn] else [])
                  + [Heartbeat1]
  {
    var drained := Consume(input, stale);
    assert DateTimeBytes(now).Ok? && AckAt(drained, 0);
    var df := DateTimeBytes(now).value;
    var cfg := ConfigOf(drained);
    AfterClockParsed(drained[1..]);
    var conv := ParseConverter(cfg).value;
    var t := Finish(cfg, conv, AfterConfig(drained));
    FinishFramesOnSuccess(cfg, conv, AfterConfig(drained));
    var a := if cfg[0] != 0 then [PowerOn] else [];
    var b := if UpdateNeeded(cfg) then [Ecfg] + WcfgFrames(ZipLen(cfg)) + [CfgUpdate, PowerOn] else [];
    var x := [Heartbeat0, SetDateTime(df), GetCfg];
    assert Handshake(now, stale, input).frames == [Heartbeat0, SetDateTime(df)] + ([GetCfg] + t.frames);
    AppendAssoc([Heartbeat0, SetDateTime(df)], [GetCfg], t.frames);
    assert [Heartbeat0, SetDateTime(df)] + [GetCfg] == x;
    AppendAssoc(x, a + b, [Heartbeat1]);
    AppendAssoc(x, a, b);
  }

  /** The handshake succeeds exactly when the clock fits, the clock set is
      acknowledged, the configuration is long enough to parse, and, if a
      rewrite is needed, every one of its `ZipLen + 1` acknowledgements is 0xAA. */
  lemma {:induction false} HandshakeSucceedsIff(now: DateTime, stale: nat, input: seq<byte>)
    ensures var drained := Consume(input, stale);
            var cfg := ConfigOf(drained);
            Handshake(now, stale, input).outcome.Ok? <==>
              && DateTimeBytes(now).Ok? && AckAt(drained, 0) && |cfg| >= 26
              && (UpdateNeeded(cfg) ==> forall i :: 0 <= i <= ZipLen(cfg) ==> AckAt(AfterConfig(drained), i))
  {
    var drained := Consume(input, stale);
    if DateTimeBytes(now).Ok? && AckAt(drained, 0) {
      AfterClockParsed(drained[1..]);
      var cfg := ConfigOf(drained);
      if |cfg| >= 26 {
        FinishSucceedsIff(cfg, ParseConverter(cfg).value, AfterConfig(drained));
      }
    }
  }

  /** The end of the handshake succeeds exactly when, if a rewrite is
      needed, all of its acknowledgements are 0xAA. */
  lemma {:induction false} FinishSucceedsIff(cfg: seq<byte>, conv: Converter, rest: seq<byte>)
    requires |cfg| > 0
    ensures Finish(cfg, conv, rest).outcome.Ok? <==>
            (UpdateNeeded(cfg) ==> forall i :: 0 <= i <= ZipLen(cfg) ==> AckAt(rest, i))
  {
    if UpdateNeeded(cfg) {
      var n := ZipLen(cfg);
      var k := FirstBadAck(rest, n);
      if forall i :: 0 <= i <= n ==> AckAt(rest, i) {
        FirstBadAckUnique(rest, n, n);
      } else if k == n {
        assert !AckAt(rest, n);
      }
    }
  }

  lemma RemainsTrans(a: seq<byte>, b: seq<byte>, c: seq<byte>)
    requires Remains(a, b) && Remains(b, c)
    ensures Remains(a, c)
  {
    assert c[|c| - |b|..][|b| - |a|..] == c[|c| - |a|..];
  }

  lemma RemainsDrop(input: seq<byte>, k: nat)
    requires k <= |input|
    ensures Remains(input[k..], input)
  {
  }

  /** The rewrite only reads acknowledgements from the front of the input. */
  lemma RewriteReadsPrefix(cfg: seq<byte>, input: seq<byte>)
    ensures Remains(Rewrite(cfg, input).2, input)
  {
    var n := ZipLen(cfg);
    if FirstBadAck(input, n) == n && AckAt(input, n) {
      RemainsDrop(input, n + 1);
    }
  }

  lemma FinishReadsPrefix(cfg: seq<byte>, conv: Converter, input: seq<byte>)
    requires |cfg| > 0
    ensures Remains(Finish(cfg, conv, input).rest, input)
  {
    if UpdateNeeded(cfg) {
      RewriteReadsPrefix(cfg, input);
    }
  }

  /** Fetching and applying the configuration only reads from the front
      of the input. */
  lemma AfterClockReadsPrefix(rest: seq<byte>)
    ensures Remains(AfterClock(rest).rest, rest)
  {
    var cfg := FetchedConfig(rest);
    AfterClockParsed(rest);
    var after := rest[|cfg|..];
    RemainsDrop(rest, |cfg|);
    if ParseConverter(cfg).Ok? {
      FinishReadsPrefix(cfg, ParseConverter(cfg).value, after);
      RemainsTrans(Finish(cfg, ParseConverter(cfg).value, after).rest, after, rest);
    }
  }

  /** The constructor only reads a prefix of what the device sent; the rest
      is left for the sample stream. */
  lemma {:induction false} HandshakeReadsPrefix(now: DateTime, stale: nat, input: seq<byte>)
    ensures Remains(Handshake(now, stale, input).rest, input)
  {
    var drained := Consume(input, stale);
    if DateTimeBytes(now).Ok? && AckAt(drained, 0) {
      var rest := drained[1..];
      RemainsDrop(drained, 1);
      RemainsTrans(rest, drained, input);
      AfterClockReadsPrefix(rest);
      RemainsTrans(AfterClock(rest).rest, rest, input);
    } else if DateTimeBytes(now).Ok? {
      RemainsTrans(Consume(drained, 1), drained, input);
    }
  }

  /** With the compared bytes in sync, the end of the constructor is an
      optional power-on and the closing heartbeat. */
  lemma FinishInSync(cfg: seq<byte>, conv: Converter, input: seq<byte>)
    requires |cfg| > 0 && !UpdateNeeded(cfg)
    ensures Finish(cfg, conv, input).frames == (if cfg[0] != 0 then [PowerOn] else []) + [Heartbeat1]
  {
  }

  /** After the clock, a configuration in sync yields at most a power-on
      and the closing heartbeat. */
  lemma AfterClockInSync(rest: seq<byte>)
    requires !UpdateNeeded(FetchedConfig(rest))
    ensures var f := AfterClock(rest).frames;
            f == [GetCfg] || f == [GetCfg, PowerOn, Heartbeat1] || f == [GetCfg, Heartbeat1]
  {
    var cfg := FetchedConfig(rest);
    AfterClockParsed(rest);
    if ParseConverter(cfg).Ok? {
      FinishInSync(cfg, ParseConverter(cfg).value, rest[|cfg|..]);
    }
  }

  /** When every compared byte already matches, no configuration-write
      command is sent at all. */
  lemma {:induction false} NoRewriteWhenInSync(now: DateTime, stale: nat, input: seq<byte>)
    requires !UpdateNeeded(ConfigOf(Consume(input, stale)))
    ensures forall c :: c in Handshake(now, stale, input).frames ==> !c.Ecfg? && !c.Wcfg? && !c.CfgUpdate?
  {
    var drained := Consume(input, stale);
    var frames := Handshake(now, stale, input).frames;
    if !DateTimeBytes(now).Ok? {
      assert frames == [Heartbeat0];
    } else if !AckAt(drained, 0) {
      assert frames == [Heartbeat0, SetDateTime(DateTimeBytes(now).value)];
    } else {
      AfterClockInSync(drained[1..]);
      assert frames == [Heartbeat0, SetDateTime(DateTimeBytes(now).value)] + AfterClock(drained[1..]).frames;
    }
  }

  /** The rewrite sends a `<WCFG pos value>>` for every position of the
      zipped range, in ascending order, and the value is always the desired
      byte: positions the mask skips are overwritten as well. */
  lemma {:induction false} RewriteWritesEveryPosition(cfg: seq<byte>, input: seq<byte>, pos: nat)
    requires Rewrite(cfg, input).1.Pass? && pos < ZipLen(cfg)
    ensures Rewrite(cfg, input).0[1 + pos] == Wcfg(pos as byte, DESIRED_CONFIG[pos])
    ensures BYTE_MASK[pos] == '0' && cfg[pos] != DESIRED_CONFIG[pos] ==>
            Rewrite(cfg, input).0[1 + pos].value != cfg[pos]
  {
    var n := ZipLen(cfg);
    assert FirstBadAck(input, n) == n;
    assert Rewrite(cfg, input).0 == [Ecfg] + WcfgFrames(n) + [CfgUpdate, PowerOn];
  }

  /** A bad acknowledgement at position `k` of the rewrite stops it right
      after the frame of that position: later positions, the commit and the
      power-on are never sent. */
  lemma {:induction false} RewriteStopsAtBadAck(cfg: seq<byte>, input: seq<byte>, k: nat)
    requires k < ZipLen(cfg) && !AckAt(input, k)
    requires forall i :: 0 <= i < k ==> AckAt(input, i)
    ensures Rewrite(cfg, input).1 == Fail(BadAck)
    ensures Rewrite(cfg, input).0 == [Ecfg] + WcfgFrames(k + 1)
  {
    FirstBadAckUnique(input, ZipLen(cfg), k);
  }

  // ---------------------------------------------------------------------
  // The sample stream

  /** One sample: the two bytes as a big-endian u16 with the top two status
      bits masked off (`& 0x3FFF`). */
  function DecodeSample(buf: seq<byte>): (cps: nat)
    requires |buf| == 2
    ensures cps < 0x4000
    ensures cps == (buf[0] as int % 64) * 256 + buf[1] as int
  {
    FromBE16(buf) % 0x4000
  }

  /** Python's `int()` of a float: truncation toward zero. */
  function Trunc(x: real): (i: int)
    ensures x >= 0.0 ==> 0 <= i && i as real <= x < i as real + 1.0
    ensures x < 0.0 ==> i <= 0 && i as real - 1.0 < x <= i as real
  {
    if x >= 0.0 then x.Floor else -((-x).Floor)
  }

  /** Once a window of capacity `points` is full the estimate is the plain
      sum of the last `points` samples. */
  lemma {:induction false} FullWindowEstimate(history: seq<int>, points: int)
    requires 1 <= points <= |history|
    ensures var w := Window(history, points);
            |w| > 0 && ScaleUp(Sum(w), points, |w|) == Sum(history[|history| - points..]) as real
  {
    WindowFull(history, points);
  }

  /** The running generator of `__iter__`: two fresh collectors of 60 and
      3600 points. Once it has raised it yields nothing more. */
  class Stream {
    const link: Link
    const conv: Converter
    const perMinute: Collector
    const perHour: Collector
    var finished: bool

    ghost predicate Valid()
      reads this, perMinute, perHour
    {
      perMinute != perHour && perMinute.Valid() && perHour.Valid()
      && perMinute.points == 60 && perHour.points == 3600
    }

    constructor (dev: Device)
      ensures Valid() && fresh(perMinute) && fresh(perHour) && !finished
      ensures link == dev.link && conv == dev.conv
      ensures perMinute.history == [] && perHour.history == []
    {
      link := dev.link;
      conv := dev.conv;
      perMinute := new Collector(60);
      perHour := new Collector(3600);
      finished := false;
    }

    /** One turn of the loop: read two bytes, decode, feed both collectors,
        convert the hourly estimate and yield `(cps, int(cpm), int(cph), usvh)`. */
    method Next() returns (r: Result<Reading<Dose>>)
      requires Valid()
      modifies this, link, perMinute, perHour
      ensures Valid()
      ensures old(finished) ==> r == Err(Stopped) && finished
                                && unchanged(link, perMinute, perHour)
      ensures !old(finished) && !old(link.isOpen) ==>
                r == Err(LinkClosed) && finished && unchanged(link, perMinute, perHour)
      ensures !old(finished) && old(link.isOpen) && |old(link.input)| < 2 ==>
                r == Err(EndOfStream) && finished && unchanged(perMinute, perHour)
                && link.input == [] && link.frames == old(link.frames) && link.isOpen
      ensures !old(finished) && old(link.isOpen) && |old(link.input)| >= 2 ==>
                var cps := DecodeSample(old(link.input)[..2]);
                && link.input == old(link.input)[2..] && link.frames == old(link.frames) && link.isOpen
                && perMinute.history == old(perMinute.history) + [cps]
                && perHour.history == old(perHour.history) + [cps]
                && |perMinute.buckets| > 0 && |perHour.buckets| > 0
                && var cpm := ScaleUp(perMinute.cumSum, 60, |perMinute.buckets|);
                   var cph := ScaleUp(perHour.cumSum, 3600, |perHour.buckets|);
                   match Convert(conv, cph)
                   case Err(e) => r == Err(e) && finished
                   case Ok(usvh) => r == Ok(Reading(cps, Trunc(cpm), Trunc(cph), usvh)) && !finished
    {
      if finished {
        return Err(Stopped);
      }
      if !link.isOpen {
        finished := true;
        return Err(LinkClosed);
      }
      var buf := link.Read(2);
      if |buf| != 2 {
        finished := true;
        return Err(EndOfStream);
      }
      var cps := DecodeSample(buf);
      var cpm := perMinute.Record(cps, true);
      var cph := perHour.Record(cps, true);
      var usvh := Convert(conv, cph.value.rate);
      if usvh.Err? {
        finished := true;
        return Err(usvh.error);
      }
      r := Ok(Reading(cps, Trunc(cpm.value.rate), Trunc(cph.value.rate), usvh.value));
    }
  }
}
