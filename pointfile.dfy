/** The per-day point file of pointfile.py: a 43200-byte map holding one
    4-bit saturating sample per second, two seconds to a byte. */
module PointFiles {
  import opened Common

  const MAP_SIZE: nat := 43200
  const SECONDS_PER_DAY: nat := 86400

  /** The byte that holds second `ts`: `(ts % 86400) // 2`, with floor modulo. */
  function Offset(ts: int): (o: nat)
    ensures o < MAP_SIZE
    ensures 2 * o <= ts % SECONDS_PER_DAY <= 2 * o + 1
  {
    (ts % SECONDS_PER_DAY) / 2
  }

  /** The nibble stored for a non-negative sample: `min(15, data + 1)`, so that
      0 stays free to mean "no sample". */
  function Sample(data: int): (n: byte)
    requires data >= 0
    ensures 1 <= n <= 15
    ensures n as int == data + 1 || (n == 15 && data >= 15)
  {
    if data + 1 < 15 then (data + 1) as byte else 15
  }

  /** The nibble of an even second. */
  function Low(b: byte): byte { b % 16 }

  /** The nibble of an odd second. */
  function High(b: byte): byte { b / 16 }

  /** A byte is its two nibbles. */
  lemma NibblesDetermineByte(x: byte, y: byte)
    ensures x as int == High(x) as int * 16 + Low(x) as int
    ensures Low(x) == Low(y) && High(x) == High(y) ==> x == y
  {
  }

  /** The byte written back: `(prev & 0xf0) | n` for an even second,
      `(prev & 0x0f) | (n << 4)` for an odd one. As `n` is below 16 the two
      nibbles do not overlap, so the or is a sum. */
  function Merge(prev: byte, ts: int, n: byte): (b: byte)
    requires n < 16
    ensures ts % 2 == 0 ==> Low(b) == n && High(b) == High(prev)
    ensures ts % 2 == 1 ==> High(b) == n && Low(b) == Low(prev)
  {
    if ts % 2 == 0 then (High(prev) * 16 + n) as byte
    else (n * 16 + Low(prev)) as byte
  }

  /** The map after `add_point(ts, data)`, or the error it raises. */
  function Store(m: seq<byte>, ts: int, data: int): (r: Result<seq<byte>>)
    requires |m| == MAP_SIZE
    ensures r.Err? <==> data < 0
    ensures r.Err? ==> r.error == NegativeValue
    ensures r.Ok? ==> |r.value| == MAP_SIZE
    ensures r.Ok? ==> forall i :: 0 <= i < MAP_SIZE && i != Offset(ts) ==> r.value[i] == m[i]
    ensures r.Ok? && ts % 2 == 0 ==>
      Low(r.value[Offset(ts)]) == Sample(data) && High(r.value[Offset(ts)]) == High(m[Offset(ts)])
    ensures r.Ok? && ts % 2 == 1 ==>
      High(r.value[Offset(ts)]) == Sample(data) && Low(r.value[Offset(ts)]) == Low(m[Offset(ts)])
  {
    if data < 0 then Err(NegativeValue)
    else Ok(m[Offset(ts) := Merge(m[Offset(ts)], ts, Sample(data))])
  }

  /** Writing the same point twice leaves the map as the first write left it. */
  lemma StoreIdempotent(m: seq<byte>, ts: int, data: int)
    requires |m| == MAP_SIZE && data >= 0
    ensures Store(Store(m, ts, data).value, ts, data) == Store(m, ts, data)
  {
    var o, n := Offset(ts), Sample(data);
    var b := Merge(m[o], ts, n);
    var once := m[o := b];
    assert Store(m, ts, data) == Ok(once);
    NibblesDetermineByte(Merge(b, ts, n), b);
    assert once[o := Merge(once[o], ts, n)] == once;
  }

  /** The two nibbles of a byte can be replaced in either order. */
  lemma MergeCommutes(prev: byte, ts: int, na: byte, nb: byte)
    requires ts % 2 == 0 && na < 16 && nb < 16
    ensures Merge(Merge(prev, ts, na), ts + 1, nb) == Merge(Merge(prev, ts + 1, nb), ts, na)
    ensures Merge(Merge(prev, ts, na), ts + 1, nb) as int == nb as int * 16 + na as int
  {
    assert (ts + 1) % 2 == 1;
    var x := Merge(Merge(prev, ts, na), ts + 1, nb);
    NibblesDetermineByte(x, Merge(Merge(prev, ts + 1, nb), ts, na));
  }

  /** The two seconds that share a byte can be written in either order; the
      byte then holds `(min(15, b + 1) << 4) | min(15, a + 1)`. */
  lemma StoreCommutes(m: seq<byte>, ts: int, a: int, b: int)
    requires |m| == MAP_SIZE && ts % 2 == 0 && a >= 0 && b >= 0
    ensures Offset(ts + 1) == Offset(ts)
    ensures var one := Store(Store(m, ts, a).value, ts + 1, b).value;
            var two := Store(Store(m, ts + 1, b).value, ts, a).value;
            one == two && one[Offset(ts)] as int == Sample(b) as int * 16 + Sample(a) as int
  {
    var o, na, nb := Offset(ts), Sample(a), Sample(b);
    assert Offset(ts + 1) == o;
    MergeCommutes(m[o], ts, na, nb);
    var ma := m[o := Merge(m[o], ts, na)];
    var mb := m[o := Merge(m[o], ts + 1, nb)];
    assert Store(m, ts, a).value == ma;
    assert Store(m, ts + 1, b).value == mb;
    assert Store(ma, ts + 1, b).value == Store(mb, ts, a).value;
  }

  /** The file contents after `os.truncate(fd, 43200)`: cut to the size, or
      extended with zero bytes. */
  function Resized(existing: seq<byte>): (m: seq<byte>)
    ensures |m| == MAP_SIZE
    ensures forall i :: 0 <= i < MAP_SIZE ==> m[i] == if i < |existing| then existing[i] else 0
  {
    if |existing| >= MAP_SIZE then existing[..MAP_SIZE]
    else existing + seq(MAP_SIZE - |existing|, _ => 0)
  }

  class PointFile {
    /** The mapped region. */
    const m: array<byte>
    /** Whether the map is still open. */
    var mapped: bool
    /** Whether the file descriptor is still open. */
    var fdOpen: bool

    ghost predicate Valid()
      reads this
    {
      m.Length == MAP_SIZE
    }

    /** Open (or create) the file whose current contents are `existing`,
        truncate it to 43200 bytes and map it. */
    constructor (existing: seq<byte>)
      ensures Valid() && fresh(m)
      ensures m[..] == Resized(existing)
      ensures mapped && fdOpen
    {
      m := new byte[MAP_SIZE](i requires 0 <= i => if i < |existing| then existing[i] else 0);
      mapped, fdOpen := true, true;
    }

    /** Read-modify-write of the one byte that holds second `ts`. */
    method AddPoint(ts: int, data: int) returns (r: Outcome)
      requires Valid()
      modifies m
      ensures data < 0 ==> r == Fail(NegativeValue) && m[..] == old(m[..])
      ensures data >= 0 && !mapped ==> r == Fail(MapClosed) && m[..] == old(m[..])
      ensures data >= 0 && mapped ==> r == Pass && m[..] == Store(old(m[..]), ts, data).value
    {
      var offset := Offset(ts);
      if data < 0 {
        return Fail(NegativeValue);
      }
      var n := Sample(data);
      if !mapped {
        return Fail(MapClosed);
      }
      var prev := m[offset];
      m[offset] := Merge(prev, ts, n);
      r := Pass;
    }

    /** Unmap the region and close the descriptor; a second call changes nothing. */
    method Close()
      modifies this
      ensures !mapped && !fdOpen
    {
      mapped := false;
      if fdOpen {
        fdOpen := false;
      }
    }
  }
}
