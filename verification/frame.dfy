/**
 Decoding one read of the probe's telemetry stream
 (power_profiler/power_profiler.py:95-106). A full read is 16 bytes: eight
 two-byte slots. The low six bits of a slot's first byte are its channel;
 a channel with any of the bits 0x38 set marks a corrupt slot, which is
 skipped. A good slot carries a 10-bit reading: the second byte is its top
 eight bits, the top two bits of the first byte its bottom two.
 */
module FrameDecoder {
  import opened Wrappers

  const FrameSize: nat := 16
  const SlotCount: nat := 8
  const BadChannelBits: bv8 := 0x38

  /** A slot is good when its channel, the low six bits of b0, has none of the bits 0x38. */
  predicate GoodSlot(b0: bv8) {
    (b0 & 0x3F) & BadChannelBits == 0
  }

  /** The 10-bit reading of a good slot, assembled with the program's shifts and or. */
  function SlotValue(b0: bv8, b1: bv8): (v: nat)
    ensures v == b1 as nat * 4 + b0 as nat / 64
    ensures v < 1024
  {
    (((b1 as bv16) << 2) | ((b0 >> 6) as bv16)) as nat
  }

  /** One slot: its reading, or None when the slot is corrupt. */
  function DecodeSlot(b0: bv8, b1: bv8): (r: Option<nat>)
    ensures r.Some? <==> b0 & BadChannelBits == 0
    ensures r.Some? ==> r.value == b1 as nat * 4 + b0 as nat / 64
  {
    if GoodSlot(b0) then Some(SlotValue(b0, b1)) else None
  }

  /** The slot a device would send for a 10-bit reading v on channel ch. */
  function EncodeSlot(v: bv16, ch: bv8): (slot: (bv8, bv8))
    requires v < 1024 && ch < 0x40
  {
    ((((v & 3) as bv8) << 6) | ch, (v >> 2) as bv8)
  }

  /** The bits of an encoded slot: its channel field and the reassembled reading. */
  lemma EncodeSlotBits(v: bv16, ch: bv8)
    requires v < 1024 && ch < 0x40
    ensures EncodeSlot(v, ch).0 & 0x3F == ch
    ensures ((EncodeSlot(v, ch).1 as bv16) << 2) | ((EncodeSlot(v, ch).0 >> 6) as bv16) == v
  {
  }

  /** Decoding inverts encoding on every good channel, and rejects every bad one. */
  lemma SlotRoundTrip(v: bv16, ch: bv8)
    requires v < 1024 && ch < 0x40
    ensures ch & BadChannelBits == 0 ==> DecodeSlot(EncodeSlot(v, ch).0, EncodeSlot(v, ch).1) == Some(v as nat)
    ensures ch & BadChannelBits != 0 ==> DecodeSlot(EncodeSlot(v, ch).0, EncodeSlot(v, ch).1) == None
  {
    var (b0, b1) := EncodeSlot(v, ch);
    EncodeSlotBits(v, ch);
    assert GoodSlot(b0) <==> ch & BadChannelBits == 0;
  }

  /** What decoding a read produced: the readings in slot order, and whether the read
      ran out of bytes before the eighth slot (the program's IndexError). */
  datatype Decoded = Decoded(values: seq<nat>, truncated: bool)

  /** The slots from even offset i on. A read of 1 to 15 bytes stops at the first
      byte it indexes and lacks; the readings of the slots before it were already
      delivered. A bad slot is skipped before its second byte is indexed, so a
      15-byte read whose last slot is bad is read to the end without error. */
  function DecodeFrom(raw: seq<bv8>, i: nat): (d: Decoded)
    requires i % 2 == 0 && i <= FrameSize
    decreases FrameSize - i
    ensures |d.values| <= (FrameSize - i) / 2
    ensures forall k :: 0 <= k < |d.values| ==> d.values[k] < 1024
    ensures |raw| >= FrameSize ==> !d.truncated
    ensures i <= |raw| < FrameSize ==>
      (d.truncated <==> !(|raw| == FrameSize - 1 && !GoodSlot(raw[FrameSize - 2])))
  {
    if i >= FrameSize then Decoded([], false)
    else if i >= |raw| then Decoded([], true)
    else if !GoodSlot(raw[i]) then DecodeFrom(raw, i + 2)
    else if i + 1 >= |raw| then Decoded([], true)
    else
      var rest := DecodeFrom(raw, i + 2);
      Decoded([SlotValue(raw[i], raw[i + 1])] + rest.values, rest.truncated)
  }

  /** One read of up to 16 bytes. A short read ends in the IndexError exactly unless
      it has 15 bytes and its last slot is bad; the readings delivered are those of
      the good complete slots, in slot order. */
  function Decode(raw: seq<bv8>): (d: Decoded)
    ensures |d.values| <= SlotCount
    ensures forall k :: 0 <= k < |d.values| ==> d.values[k] < 1024
    ensures |raw| >= FrameSize ==> !d.truncated
    ensures |raw| < FrameSize ==>
      (d.truncated <==> !(|raw| == FrameSize - 1 && !GoodSlot(raw[FrameSize - 2])))
    ensures d.values == Present(Slots(raw))
  {
    DecodeFromIsPresentSlots(raw, Slots(raw), 0);
    assert Slots(raw)[0..] == Slots(raw);
    DecodeFrom(raw, 0)
  }

  /** Reference view of a read: each complete slot on its own, slot j decoded from
      bytes 2j and 2j+1, up to eight slots. */
  function Slots(raw: seq<bv8>): (s: seq<Option<nat>>)
    ensures |s| == if |raw| >= FrameSize then SlotCount else |raw| / 2
    ensures forall j :: 0 <= j < |s| ==> s[j] == DecodeSlot(raw[2 * j], raw[2 * j + 1])
  {
    var m := if |raw| >= FrameSize then SlotCount else |raw| / 2;
    seq(m, j requires 0 <= j < m => DecodeSlot(raw[2 * j], raw[2 * j + 1]))
  }

  /** The present values of a sequence of options, in order. */
  function Present(s: seq<Option<nat>>): (r: seq<nat>)
    ensures |r| <= |s|
  {
    if |s| == 0 then []
    else if s[0].Some? then [s[0].value] + Present(s[1..])
    else Present(s[1..])
  }

  lemma {:induction false} PresentAppend(a: seq<Option<nat>>, b: seq<Option<nat>>)
    ensures Present(a + b) == Present(a) + Present(b)
  {
    if |a| == 0 {
      assert a + b == b;
    } else {
      assert (a + b)[1..] == a[1..] + b;
      PresentAppend(a[1..], b);
    }
  }

  lemma PresentStep(s: seq<Option<nat>>)
    requires |s| > 0
    ensures Present(s) == (if s[0].Some? then [s[0].value] else []) + Present(s[1..])
  {
  }

  /** Decoding from slot j on keeps the readings of the good complete slots from j on,
      in order. */
  lemma {:induction false} DecodeFromIsPresentSlots(raw: seq<bv8>, slots: seq<Option<nat>>, j: nat)
    requires |slots| == (if |raw| >= FrameSize then SlotCount else |raw| / 2) && j <= |slots|
    requires forall k :: 0 <= k < |slots| ==> slots[k] == DecodeSlot(raw[2 * k], raw[2 * k + 1])
    decreases |slots| - j
    ensures DecodeFrom(raw, 2 * j).values == Present(slots[j..])
  {
    if j < |slots| {
      DecodeFromIsPresentSlots(raw, slots, j + 1);
      DecodeFromStep(raw, j);
      PresentStep(slots[j..]);
      assert slots[j..][1..] == slots[j + 1..];
    } else {
      NoCompleteSlotLeft(raw, j);
    }
  }

  /** A complete slot contributes its reading when good and nothing when bad. */
  lemma DecodeFromStep(raw: seq<bv8>, j: nat)
    requires 2 * j + 1 < |raw| && j < SlotCount
    ensures DecodeFrom(raw, 2 * j).values
         == (if GoodSlot(raw[2 * j]) then [SlotValue(raw[2 * j], raw[2 * j + 1])] else [])
            + DecodeFrom(raw, 2 * j + 2).values
  {
    if !GoodSlot(raw[2 * j]) {
      assert [] + DecodeFrom(raw, 2 * j + 2).values == DecodeFrom(raw, 2 * j + 2).values;
    }
  }

  /** Past the last complete slot nothing more is read out. */
  lemma NoCompleteSlotLeft(raw: seq<bv8>, j: nat)
    requires j == (if |raw| >= FrameSize then SlotCount else |raw| / 2)
    ensures DecodeFrom(raw, 2 * j).values == []
  {
    if 2 * j < FrameSize && 2 * j < |raw| {
      assert |raw| == 2 * j + 1;
      if GoodSlot(raw[2 * j]) {
        assert DecodeFrom(raw, 2 * j) == Decoded([], true);
      } else {
        assert DecodeFrom(raw, 2 * j) == DecodeFrom(raw, 2 * j + 2);
      }
    }
  }

  /** Corrupting the channel of slot j removes that slot's reading and leaves every
      other slot's reading where it was. */
  lemma CorruptSlotIsSkipped(frame: seq<bv8>, j: nat, bad: bv8)
    requires |frame| == FrameSize && j < SlotCount
    requires bad & BadChannelBits != 0
    ensures Decode(frame[2 * j := bad]).values == Present(Slots(frame)[j := None])
  {
    var corrupt := frame[2 * j := bad];
    assert Slots(corrupt) == Slots(frame)[j := None];
  }

  /** A frame whose every slot is good yields exactly eight readings, the k-th from bytes 2k, 2k+1. */
  lemma AllGoodFrame(frame: seq<bv8>)
    requires |frame| == FrameSize
    requires forall j :: 0 <= j < SlotCount ==> GoodSlot(frame[2 * j])
    ensures |Decode(frame).values| == SlotCount
    ensures forall k :: 0 <= k < SlotCount ==> Decode(frame).values[k] == SlotValue(frame[2 * k], frame[2 * k + 1])
  {
    AllPresent(Slots(frame));
  }

  lemma {:induction false} AllPresent(s: seq<Option<nat>>)
    requires forall k :: 0 <= k < |s| ==> s[k].Some?
    ensures |Present(s)| == |s|
    ensures forall k :: 0 <= k < |s| ==> Present(s)[k] == s[k].value
  {
    if |s| > 0 {
      AllPresent(s[1..]);
    }
  }
}
