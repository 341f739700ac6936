# geigermon in Dafny

geigermon reads radiation counts from a GQ GMC-300E+ counter over a serial
line. It turns them into per-minute and per-hour rates and a dose rate. It
keeps a compact per-day history in "point files" and republishes each
reading as a 22-byte multicast datagram. Other processes receive those
datagrams.

This project models the parts of geigermon with real protocol, arithmetic
or binary-layout content, and proves properties of them:

- `Common` (common.dfy): bytes and fixed-width integers, big-endian packing
  as the `struct` module does it, and the error results that stand for the
  source's exceptions.
- `Util` (util.dfy): the sliding-window `Collector`, a class whose `Record`
  keeps its deque and running sum in step.
- `PointFiles` (pointfile.dfy): the 43200-byte day map. One 4-bit sample
  per second, two seconds to a byte, written by read-modify-write in place.
  The class keeps the mapped region as an `array`.
- `Gmc300EPlus` (gmc300eplus.dfy):
  - calibration parsing, with its mixed byte orders, and tier selection;
  - the serial link as the bytes the device will send plus a log of the
    commands written;
  - the whole constructor handshake: heartbeat, flush, clock set,
    configuration fetch, the mask comparison and the configuration
    write-back;
  - one turn of the sample stream.

  The handshake is specified twice. The imperative methods follow the
  source statement by statement. The functions `Handshake`, `AfterClock`,
  `Finish` and `Rewrite` describe the same thing as a value, and the
  methods are proved equal to them.
- `Sinks` (sinks.dfy):
  - the multicast sender: the packet layout, its reusable buffer and the
    sequence counter;
  - the point-file sink: per-second accumulation, day rollover and `close`;
  - the fan-out `MultiSink`, which calls its sinks in list order.
- `Sources` (sources.dfy): the multicast receiver's datagram check and
  decoding, and the idempotent `close` of both sources.

Behaviour of the code that a reader might not expect, which the model
keeps as written:

- The multicast sequence counter is reset to 0 as soon as it reaches
  0xFFFFFFFF (sinks.py:82-84). So 0xFFFFFFFF itself is never sent, unlike
  a plain 32-bit wrap-around. `NextSeq` and `MulticastSink.Valid` state
  this: the i-th datagram carries `i % 0xFFFFFFFF`.
- The configuration write-back sends the desired byte at every position of
  the zipped range (gmc300eplus.py:128). Positions the mask excludes are
  overwritten as well. The value picked at gmc300eplus.py:123-126 is never
  used. `RewriteWritesEveryPosition` states this.
- A zero calibration threshold is not rejected when the configuration is
  parsed. It raises a division by zero when `convert` picks that tier
  (gmc300eplus.py:45). `Convert` returns `DivisionByZero` then.
- `GMC300EPlus` opens the serial line at 57600 baud whatever baud rate it is
  given (gmc300eplus.py:93).
- After `PointFileSink.close`, the last day is still remembered
  (sinks.py:53-59). A later `emit` on the same day finds no file and fails;
  the model returns `NoFile` there.

## Model

| member | source | states |
|---|---|---|
| Common.BE16RoundTrip | sinks.py:75 | a 16-bit field packed big-endian unpacks to itself |
| Common.FromBE16RoundTrip | sources.py:36 | two bytes unpacked as `>H` pack back to the same bytes |
| Common.BE32RoundTrip | sinks.py:75 | a 32-bit field packed big-endian unpacks to itself |
| Common.FromBE32RoundTrip | sources.py:36 | four bytes unpacked as `!I` pack back to the same bytes |
| Util.SumAppend | util.py:11-12 | adding a value to the deque adds it to the running sum |
| Util.WindowAppend | util.py:12-14 | after one more record, the window is the old window plus the value, with the oldest values dropped down to the capacity |
| Util.WindowFull | util.py:13-14 | a full window holds exactly the last `points` values |
| Util.ScaleUp | util.py:17 | a full window's estimate is its plain sum; a partial window's is scaled up to the capacity, and for a non-negative sum never below it |
| Util.Collector.constructor | util.py:5-8 | a collector starts with an empty deque and a zero sum |
| Util.Collector.Record | util.py:10-19 | the sum always equals the sum of the deque, and the deque holds the last `min(n, points)` values in arrival order; the result is the scaled rate or the raw triple; an empty window under scaling divides by zero; a negative capacity pops from an empty deque |
| PointFiles.Offset | pointfile.py:21 | the byte of second `ts` is below 43200 and covers `ts mod 86400` with one even and one odd second |
| PointFiles.Sample | pointfile.py:24 | a stored sample is `data + 1` saturated at 15, so it is never 0 |
| PointFiles.NibblesDetermineByte | pointfile.py:27-30 | a byte is determined by its two nibbles |
| PointFiles.Merge | pointfile.py:27-30 | an even second replaces the low nibble and keeps the high one; an odd second the reverse |
| PointFiles.Store | pointfile.py:18-32 | `add_point` fails exactly for a negative value; otherwise only the byte of `ts` changes, and only in the nibble of `ts` |
| PointFiles.StoreIdempotent | pointfile.py:18-32 | writing the same point twice leaves the map as one write does |
| PointFiles.MergeCommutes | pointfile.py:27-30 | the two nibbles of a byte can be written in either order and together form `(odd << 4) \| even` |
| PointFiles.StoreCommutes | pointfile.py:21-32 | the two seconds sharing a byte can be stored in either order, with the same result |
| PointFiles.Resized | pointfile.py:12 | truncating to 43200 bytes keeps the existing prefix and zero-fills the rest |
| PointFiles.PointFile.constructor | pointfile.py:9-16 | opening a file maps its contents resized to 43200 bytes |
| PointFiles.PointFile.AddPoint | pointfile.py:18-32 | the map becomes `Store` of the old map, or stays as it was when the value is negative or the map is closed |
| PointFiles.PointFile.Close | pointfile.py:34-38 | after `close` the map and the descriptor are closed, however often it is called |
| Gmc300EPlus.ParseConverter | gmc300eplus.py:32-35 | parsing fails exactly for a configuration shorter than 26 bytes; thresholds are read big-endian at 8, 14 and 20, scales little-endian at 10, 16 and 22 |
| Gmc300EPlus.TierOf | gmc300eplus.py:38-43 | the tier is one of three: the third exactly above the third threshold, the first exactly when the rate exceeds neither the third nor the second threshold, the second otherwise |
| Gmc300EPlus.TierOfIsHighestExceeded | gmc300eplus.py:37-43 | with ascending thresholds the tier chosen is the highest one whose threshold lies strictly below the rate, else the first |
| Gmc300EPlus.TierOfMonotone | gmc300eplus.py:37-43 | a higher rate never selects a lower tier |
| Gmc300EPlus.TierOfIgnoresFirstThreshold | gmc300eplus.py:37-43 | the first threshold never takes part in the choice |
| Gmc300EPlus.Convert | gmc300eplus.py:37-45 | the dose divides by zero exactly when the chosen tier's threshold is 0; otherwise it uses the third tier above the third threshold, else the second above the second threshold, else the first |
| Gmc300EPlus.Link.constructor | gmc300eplus.py:48-64 | a new link is open with nothing written |
| Gmc300EPlus.Link.Write | gmc300eplus.py:66-67 | a write appends one command to the log and consumes no input |
| Gmc300EPlus.Link.Read | gmc300eplus.py:69-78 | `read(l)` returns the first `min(l, available)` bytes and consumes exactly those, whatever the sizes of the partial reads |
| Gmc300EPlus.Link.Drain | gmc300eplus.py:80-81 | the flush discards the stale bytes |
| Gmc300EPlus.Link.Close | gmc300eplus.py:83-89 | `close` leaves the link closed and can be repeated |
| Gmc300EPlus.Ascii | gmc300eplus.py:94 | a bytes literal has one byte per character, each equal to the character's code |
| Gmc300EPlus.FrameBytes | gmc300eplus.py:94-137 | every command is framed by `<` and `>>`; `<WCFG` carries the position and value as its two argument bytes, `<SETDATETIME` its six clock bytes |
| Gmc300EPlus.ZipLen | gmc300eplus.py:112 | the zipped range is the shortest of mask, configuration and desired configuration |
| Gmc300EPlus.ConfigUpdateNeeded | gmc300eplus.py:111-118 | the scan answers true exactly when some compared position of the zipped range differs from the desired byte |
| Gmc300EPlus.DateTimeBytes | gmc300eplus.py:98-99 | the clock packs exactly when every field fits an unsigned byte, into the six bytes year - 2000, month, day, hour, minute, second |
| Gmc300EPlus.WcfgFrames | gmc300eplus.py:122-128 | there is one write command per position |
| Gmc300EPlus.FirstBadAck | gmc300eplus.py:129-130 | the write loop stops at the first acknowledgement that is missing or not 0xAA |
| Gmc300EPlus.WriteEveryPosition | gmc300eplus.py:122-130 | the loop sends one write per position up to and including the first bad acknowledgement, and consumes one reply for each |
| Gmc300EPlus.WriteConfig | gmc300eplus.py:120-135 | the write-back logs and consumes exactly what `Rewrite` describes, and fails where `Rewrite` fails |
| Gmc300EPlus.Configure | gmc300eplus.py:108-137 | after parsing: a power-on when byte 0 is non-zero, the rewrite only when needed, the closing heartbeat on success, all as `Finish` describes |
| Gmc300EPlus.FetchAndConfigure | gmc300eplus.py:104-137 | from the configuration request on, the link and the result follow `AfterClock` |
| Gmc300EPlus.Connect | gmc300eplus.py:92-137 | the whole constructor: the link opens at 57600 baud, and the commands logged, the input consumed and the result follow `Handshake` |
| Gmc300EPlus.Device.constructor | gmc300eplus.py:92-106 | a device holds the link and the converter of its handshake |
| Gmc300EPlus.Device.Close | gmc300eplus.py:156-157 | closing the device closes its link |
| Gmc300EPlus.FinishFramesOnSuccess | gmc300eplus.py:108-137 | on success the end of the handshake sends an optional power-on, the rewrite exactly when it is needed, then the heartbeat |
| Gmc300EPlus.HandshakeFramesOnSuccess | gmc300eplus.py:93-137 | a successful handshake sends exactly: heartbeat, clock set, configuration request, an optional power-on, the rewrite when needed, the closing heartbeat |
| Gmc300EPlus.HandshakeSucceedsIff | gmc300eplus.py:98-135 | the handshake succeeds exactly when the clock fits, the clock set is acknowledged, the configuration has at least 26 bytes and, when a rewrite is needed, all its acknowledgements are 0xAA |
| Gmc300EPlus.FinishSucceedsIff | gmc300eplus.py:120-135 | the end of the handshake succeeds exactly when, if a rewrite is needed, all its acknowledgements are 0xAA |
| Gmc300EPlus.NoRewriteWhenInSync | gmc300eplus.py:111-121 | when every compared byte matches, no configuration command is sent |
| Gmc300EPlus.RewriteWritesEveryPosition | gmc300eplus.py:122-128 | the rewrite sends the desired byte at every position in order, overwriting positions the mask excludes |
| Gmc300EPlus.RewriteStopsAtBadAck | gmc300eplus.py:128-130 | a bad acknowledgement stops the rewrite at that position with nothing more sent |
| Gmc300EPlus.Rewrite | gmc300eplus.py:120-135 | the write-back starts with `<ECFG>>`, fails only on a bad acknowledgement, and on success ends with `<CFGUPDATE>>` and `<POWERON>>` |
| Gmc300EPlus.Finish | gmc300eplus.py:108-137 | on success the result is the parsed converter and the last command is `<HEARTBEAT1>>`; the only failure is a bad acknowledgement |
| Gmc300EPlus.AfterClock | gmc300eplus.py:104-137 | the first command is `<GETCFG>>`; the only failures are a short configuration and a bad acknowledgement |
| Gmc300EPlus.Handshake | gmc300eplus.py:92-137 | the first command is `<HEARTBEAT0>>`; on success the clock set carries the packed clock, the configuration request follows, and `<HEARTBEAT1>>` is last |
| Gmc300EPlus.FinishInSync | gmc300eplus.py:108-137 | with the compared bytes in sync, the end of the handshake is an optional power-on and the closing heartbeat |
| Gmc300EPlus.AfterClockInSync | gmc300eplus.py:104-137 | with the compared bytes in sync, the part after the clock sends only the configuration request, an optional power-on and the heartbeat |
| Gmc300EPlus.RewriteReadsPrefix | gmc300eplus.py:129-134 | the write-back only reads acknowledgements from the front of the input |
| Gmc300EPlus.FinishReadsPrefix | gmc300eplus.py:108-137 | the end of the handshake only reads from the front of the input |
| Gmc300EPlus.AfterClockReadsPrefix | gmc300eplus.py:104-137 | fetching and applying the configuration only reads from the front of the input |
| Gmc300EPlus.HandshakeReadsPrefix | gmc300eplus.py:92-137 | the constructor only consumes a prefix of what the device sends; the rest is left for the sample stream |
| Gmc300EPlus.DecodeSample | gmc300eplus.py:149 | a sample is the big-endian 16-bit word with its two status bits cleared |
| Gmc300EPlus.Trunc | gmc300eplus.py:154 | `int()` of a float truncates toward zero |
| Gmc300EPlus.FullWindowEstimate | gmc300eplus.py:150-151 | once a window is full, the estimate is the plain sum of the last `points` samples |
| Gmc300EPlus.Stream.constructor | gmc300eplus.py:139-142 | the stream starts with empty collectors of 60 and 3600 points |
| Gmc300EPlus.Stream.Next | gmc300eplus.py:144-154 | one turn reads two bytes, feeds the sample to both collectors and yields `(cps, int(cpm), int(cph), usvh)`; a short read ends the stream with `EOF`, and a stopped stream yields nothing more |
| Sinks.PackFields | sinks.py:75-79 | packing fills 18 bytes: the sequence number first, then each field in order up to the first that does not fit its width, and zeros from there on |
| Sinks.Encode | sinks.py:73-79 | the datagram is `GEIG`, then the sequence number, cps, cpm, cph and the usvh bits, big-endian, 22 bytes in all |
| Sinks.EncodeInjective | sinks.py:73-79 | two datagrams are equal only for the same reading under the same sequence number |
| Sinks.NextSeq | sinks.py:82-84 | the counter advances by one modulo 0xFFFFFFFF, so 0xFFFFFFFF is never used |
| Sinks.CounterStep | sinks.py:82-84 | the counter after `n` datagrams, advanced once, is the counter after `n + 1` |
| Sinks.MulticastSink.constructor | sinks.py:66-76 | a new sender is connected, counter 0, buffer starting with `GEIG` |
| Sinks.MulticastSink.Emit | sinks.py:78-84 | the buffer holds the packed reading; a field out of range or a closed socket fails without sending or counting; otherwise the datagram of the reading under the current number is sent and the counter advances; the i-th datagram sent carries `i % 0xFFFFFFFF` |
| Sinks.MulticastSink.Close | sinks.py:86-92 | after `close` the socket is gone and nothing else changed, however often it is called |
| Sinks.Day | sinks.py:45 | the UTC day of a timestamp is the day whose 86400 seconds contain it |
| Sinks.Accumulate | sinks.py:33-37 | within one second the running total grows by `cps`; a new second restarts it at `cps` |
| Sinks.SharedByteIff | sinks.py:44-51 | within one day file two seconds share a byte exactly when they form an even-odd pair |
| Sinks.EmitsWithinSecond | sinks.py:33-34 | emits within one second add up |
| Sinks.PointIsSecondTotal | sinks.py:31-39 | the point written for a second is the total of all counts emitted in that second |
| Sinks.Opened | sinks.py:49 | opening a day file yields its stored contents resized to the map size |
| Sinks.PointFileSink.constructor | sinks.py:22-29 | a new sink has no pending point, no file and no day |
| Sinks.PointFileSink.GetFile | sinks.py:44-51 | on the current day the open file is reused; on another day the old file is closed and saved, and the new day's file is opened |
| Sinks.PointFileSink.WritePoint | sinks.py:41-42 | the point is stored in the file of its day, and no other day file changes; after `close` on the same day there is no file |
| Sinks.PointFileSink.Emit | sinks.py:31-39 | the pending total accumulates within one second and restarts on a new one; the total is written as the point of that second |
| Sinks.PointFileSink.Close | sinks.py:53-59 | the pending point is written once more and forgotten; the file is closed and saved; the day is kept; nothing happens without an open file |
| Sinks.EmitTo | sinks.py:31-84 | each sink is handed the reading; it fails exactly when `EmitFails` holds of its state before the call (a field too wide or a closed socket; no file on a day already seen, or a negative running total), with the error `EmitError` names |
| Sinks.CloseTarget | sinks.py:53-92 | closing a multicast sink never fails; a point-file sink fails exactly when its pending point is negative, and then keeps its state; a sink that closes without error is closed |
| Sinks.EmitError | sinks.py:42-80 | a multicast sink reports a too-wide field exactly when one does not fit, else the closed socket; a point-file sink reports the missing file exactly when its day was seen and no file is open, else the negative value |
| Sinks.MultiSink.constructor | sinks.py:95-96 | the fan-out keeps its sinks in the given order |
| Sinks.MultiSink.EmitOne | sinks.py:100 | one sink receives the reading and fails exactly when `EmitFails` holds of its state; no other sink changes |
| Sinks.MultiSink.CloseOne | sinks.py:104 | one sink is closed, failing exactly when `CloseFails` holds of its state; no other sink changes |
| Sinks.MultiSink.Emit | sinks.py:98-100 | the sinks receive the reading in list order; every sink before the failing one had a state in which `emit` succeeds, the failing one a state in which it fails, with its error; on success every sink has the reading; after a failure exactly the sinks up to the failing one have it |
| Sinks.MultiSink.Close | sinks.py:102-104 | the sinks are closed in list order; every sink before the failing one is closed, the failing one had a negative pending point, and every sink after it is as closed or open as it was; no sink is handed a reading |
| Sources.Received | sources.py:37-39 | a datagram longer than 22 bytes never reports 22 bytes received into the 23-byte buffer |
| Sources.Decode | sources.py:35-41 | a datagram is accepted exactly when it is 22 bytes starting with `GEIG`; anything else is invalid data |
| Sources.DecodeEncode | sources.py:36-41 | every datagram the multicast sink sends decodes to the reading it was built from |
| Sources.EncodeDecode | sources.py:36-41 | every accepted datagram is the one the sink builds for the decoded reading and the sequence number it carries |
| Sources.SequenceNumberDropped | sources.py:41 | the decoded reading does not depend on the sequence number |
| Sources.SentDecodesToReadings | sources.py:39-41 | everything a multicast sink has sent is received as the readings it was given, in order |
| Sources.MulticastSource.constructor | sources.py:29-33 | a new receiver holds its socket and its buffer |
| Sources.MulticastSource.Next | sources.py:35-41 | one turn receives the next datagram into the buffer; a valid datagram yields its reading and an invalid one ends the stream; a closed socket or a stopped stream raises |
| Sources.MulticastSource.Close | sources.py:43-49 | after `close` the socket is gone, however often it is called |
| Sources.GeigerSource.constructor | sources.py:14-15 | the source holds its device |
| Sources.GeigerSource.Close | sources.py:20-26 | the first `close` closes the device's link, and every `close` drops the device |

## Left out

- Sinks.MultiSink.constructor: requires the sinks to own disjoint
  objects. sinks.py:95-96 also accepts `MultiSink([s, s])`, which hands
  each reading to `s` twice. The model does not cover a sink listed twice,
  or two sinks sharing a socket or file.
- Operating-system I/O is not modelled:
  - the `termios` set-up of the serial line and `os.open`;
  - `os.truncate`, `mmap` and `os.makedirs`;
  - socket creation, options, `bind`, `connect` and group membership.

  The model keeps only the bytes that flow: the serial input, the log of
  commands written, the day files as a map from day to contents, and the
  datagrams sent and pending. Failures of these calls are not modelled.
- `time.sleep`, `time.localtime` and `time.time` become parameters: the
  local date-time, and the Unix time of each `emit`.
- The input flush drops `stale` bytes, a parameter. The model cannot say
  which bytes arrive during the one-second sleep.
- The device's replies are fixed in advance. A real device may react to
  what is sent; the model cannot express that.
- IEEE-754 arithmetic is not modelled:
  - scales and usvh are kept as 32-bit patterns (`F32`);
  - the dose `(rate * scale) / (threshold * 60)` is kept as the symbolic
    `Dose`;
  - the collectors' division is exact rational division.
- Sinks.MulticastSink.Emit: takes usvh already as a 32-bit pattern. The
  conversion of a Python float to `f` and its overflow error are not
  modelled.
- Generators: each `__iter__` loop turn is one call of `Next`, and a
  `finished` flag records that the generator has raised. Sources.MulticastSource.Next
  answers `Blocked` where the real `recv_into` would wait for a datagram.
- Exception messages are not kept: each exception is an `Error` value.
- `FileSink`, `StdoutSink`, `util.atomic_write` and JSON formatting are
  output glue, not modelled.
- The `Sink` and `Source` base classes, and `GeigerSource.__iter__` (which
  only delegates to the device), are not modelled.
- Sinks.MultiSink.Emit: forwards only to the two modelled sink kinds, the
  multicast sender and the point-file sink.
- Sinks.MultiSink.Close: closing a multicast socket is taken never to fail.
- Gmc300EPlus.Link.Read: requires an open link. On a closed descriptor the
  source gets an `OSError`; `Stream.Next` checks for that first and
  reports `LinkClosed`. The handshake never reads a closed link.
- Gmc300EPlus.Link.Write: requires an open link, for the same reason.
- A failed constructor does not close the serial descriptor in the source.
  `Connect` reflects this by returning the still-open link with the error.
