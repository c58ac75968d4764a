/**
 The configuration word the profiler passes to the serial driver as its "baud
 rate" (power_profiler/power_profiler.py:36). The probe firmware reads the
 fields back out of it:

   bit 31      always clear
   bit 30      enable flag
   bit 29      gain select (0 or 1)
   bits 26-28  the fixed constant 7
   bits 20-25  log2 of the averaging count
   bits 0-19   sample rate in Hz
 */
module ConfigWord {

  const EnableFlag: bv32 := 0x4000_0000
  const FixedBits: bv32 := 7

  /** The constants of the shipped program (power_profiler/power_profiler.py:31-33). */
  const GainSelect: bv1 := 0
  const SampleRate: bv20 := 60000
  const Log2Avg: bv6 := 1

  /** The fields, each at the width of its slot of the word. */
  datatype Config = Config(gain: bv1, log2avg: bv6, rate: bv20)

  /** The word, built with shifts and ors as the program builds it. */
  function Pack(c: Config): (w: bv32)
    ensures w & 0x8000_0000 == 0
    ensures w & EnableFlag == EnableFlag
    ensures (w >> 26) & 7 == FixedBits
    ensures Unpack(w) == c
  {
    EnableFlag
    | ((c.gain as bv32) << 29)
    | (FixedBits << 26)
    | ((c.log2avg as bv32) << 20)
    | (c.rate as bv32)
  }

  /** The firmware's view of a word: each field read back from its bit range. */
  function Unpack(w: bv32): (c: Config)
    ensures c.gain as bv32 == (w >> 29) & 1
    ensures c.log2avg as bv32 == (w >> 20) & 0x3F
    ensures c.rate as bv32 == w & 0xF_FFFF
  {
    Config(((w >> 29) & 1) as bv1, ((w >> 20) & 0x3F) as bv6, (w & 0xF_FFFF) as bv20)
  }

  /** Two settings never share a word: packing is injective on fitting configurations. */
  lemma PackInjective(c: Config, d: Config)
    requires Pack(c) == Pack(d)
    ensures c == d
  {
    assert Unpack(Pack(c)) == c;
  }

  /** The ored fields land in disjoint bit ranges: oring them is the same as adding them. */
  lemma PackFieldsDisjoint(c: Config)
    ensures Pack(c) == EnableFlag + ((c.gain as bv32) << 29) + (FixedBits << 26) + ((c.log2avg as bv32) << 20) + (c.rate as bv32)
  {
  }

  /** BAUDRATE: the word of the shipped constants. */
  const Baudrate: bv32 := Pack(Config(GainSelect, Log2Avg, SampleRate))

  lemma BaudrateValue()
    ensures Baudrate == 0x5C10_EA60
    ensures Unpack(Baudrate) == Config(0, 1, 60000)
  {
  }
}
