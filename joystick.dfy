/**
 * The Linux joystick event record `"@IhBB"` and the drain of such records
 * from the device stream. Byte order is little-endian with no padding, so a
 * record is eight bytes: timestamp (u32), value (i16), type (u8), number (u8).
 */
module Joystick {

  type byte = x: int | 0 <= x < 0x100
  type u32 = x: int | 0 <= x < 0x1_0000_0000
  type i16 = x: int | -0x8000 <= x < 0x8000

  /** `EVENT_SIZE = struct.calcsize("@IhBB")`. */
  const EventSize: nat := 8

  /** The bits of the record's type field. */
  const JsEventButton: bv8 := 0x01
  const JsEventAxis: bv8 := 0x02
  const JsEventInit: bv8 := 0x80

  datatype JsEvent = JsEvent(time: u32, value: i16, kind: bv8, number: byte)

  /** `struct.unpack("@IhBB", data)` on exactly one record. */
  function Decode(b: seq<byte>): (e: JsEvent)
    requires |b| == EventSize
  {
    var raw := b[4] as int + 0x100 * b[5] as int;
    JsEvent(b[0] as int + 0x100 * b[1] as int + 0x1_0000 * b[2] as int + 0x100_0000 * b[3] as int,
            if raw >= 0x8000 then raw - 0x1_0000 else raw,
            b[6] as bv8,
            b[7])
  }

  /** `struct.pack("@IhBB", ...)`: the bytes the kernel writes for an event. */
  function Encode(e: JsEvent): (b: seq<byte>)
    ensures |b| == EventSize
  {
    var t1 := e.time / 0x100;
    var t2 := t1 / 0x100;
    var raw := if e.value < 0 then e.value + 0x1_0000 else e.value;
    [e.time % 0x100, t1 % 0x100, t2 % 0x100, t2 / 0x100,
     raw % 0x100, raw / 0x100, e.kind as int, e.number]
  }

  /** Splitting a number into its low byte and the rest. */
  lemma ByteSplit(x: int, q: int, r: int)
    requires 0 <= r < 0x100 && x == r + 0x100 * q
    ensures x % 0x100 == r && x / 0x100 == q
  {
  }

  lemma DecodeEncode(e: JsEvent)
    ensures Decode(Encode(e)) == e
  {
    var t := e.time;
    var t1 := t / 0x100;
    var t2 := t1 / 0x100;
    assert t == t % 0x100 + 0x100 * t1;
    assert t1 == t1 % 0x100 + 0x100 * t2;
    assert t2 == t2 % 0x100 + 0x100 * (t2 / 0x100);
  }

  lemma EncodeDecode(b: seq<byte>)
    requires |b| == EventSize
    ensures Encode(Decode(b)) == b
  {
    var e := Decode(b);
    var t2 := b[2] as int + 0x100 * b[3] as int;
    var t1 := b[1] as int + 0x100 * t2;
    ByteSplit(e.time, t1, b[0]);
    ByteSplit(t1, t2, b[1]);
    ByteSplit(t2, b[3], b[2]);
    ByteSplit(b[4] as int + 0x100 * b[5] as int, b[5], b[4]);
  }

  /** What one `read(EVENT_SIZE)` on the device gives back. */
  datatype ReadResult =
    | Chunk(bytes: seq<byte>)   // the bytes read; empty when nothing is pending
    | ReadFailed                // the read raised `OSError`

  /** `read(n)` never returns more than `n` bytes. */
  predicate WithinRecordSize(r: ReadResult) {
    r.Chunk? ==> |r.bytes| <= EventSize
  }

  predicate IsFullRecord(r: ReadResult) {
    r.Chunk? && |r.bytes| == EventSize
  }

  /**
   * The events one drain decodes from a sequence of results: every read up to
   * the first one that fails or is shorter than a record, decoded in order.
   */
  function Drained(results: seq<ReadResult>): (evs: seq<JsEvent>)
    ensures |evs| <= |results|
    ensures forall i :: 0 <= i < |evs| ==> IsFullRecord(results[i]) && evs[i] == Decode(results[i].bytes)
    ensures |evs| < |results| ==> !IsFullRecord(results[|evs|])
  {
    if results == [] || !IsFullRecord(results[0]) then []
    else [Decode(results[0].bytes)] + Drained(results[1..])
  }

  /** Nothing read after a short or failed read is decoded. */
  lemma {:induction false} DrainedStopsAtShortRead(before: seq<ReadResult>, r: ReadResult, after: seq<ReadResult>)
    requires !IsFullRecord(r)
    ensures Drained(before + [r] + after) == Drained(before)
  {
    if before != [] {
      assert (before + [r] + after)[1..] == before[1..] + [r] + after;
      if IsFullRecord(before[0]) {
        DrainedStopsAtShortRead(before[1..], r, after);
      }
    }
  }
}
