/**
 The LED ring driver: every data byte becomes eight symbol bytes on the wire, one per bit, most significant
 first.  The ring is asynchronous: it sees the wire only, and recovers the bits from how long it stays high.
 */
module Ws2812 {
  /** A C `u8`. */
  type u8 = x: int | 0 <= x < 256

  const ONE: u8 := 0xF0
  const ZERO: u8 := 0xC0

  /** `num & 128`. */
  predicate Top(x: u8) {
    x >= 128
  }

  /** `num << 1` in a byte. */
  function Shl(x: u8): u8 {
    (2 * x) % 256
  }

  function Shifted(x: u8, k: nat): u8 {
    if k == 0 then x else Shl(Shifted(x, k - 1))
  }

  /** The bits of a byte, most significant first. */
  function Bits(x: u8): seq<bool> {
    seq(8, k requires 0 <= k => Top(Shifted(x, k)))
  }

  function Symbol(bit: bool): u8 {
    if bit then ONE else ZERO
  }

  /** The symbol bytes of a data buffer. */
  function Encode(data: seq<u8>): (r: seq<u8>)
    ensures |r| == 8 * |data|
  {
    if data == [] then [] else seq(8, k requires 0 <= k < 8 => Symbol(Bits(data[0])[k])) + Encode(data[1..])
  }

  lemma {:induction false} EncodeAt(data: seq<u8>, i: nat, k: nat)
    requires i < |data| && k < 8
    ensures Encode(data)[8 * i + k] == Symbol(Top(Shifted(data[i], k)))
  {
    if i > 0 {
      EncodeAt(data[1..], i - 1, k);
      assert Encode(data)[8 * i + k] == Encode(data[1..])[8 * (i - 1) + k];
    }
  }

  // ---------- the wire ----------

  /** The wire's levels: the bits of the symbol bytes in transmission order. */
  function Wire(symbols: seq<u8>): seq<bool> {
    if symbols == [] then [] else Bits(symbols[0]) + Wire(symbols[1..])
  }

  /** How long the wire stays at `level` from the start. */
  function RunLength(wire: seq<bool>, level: bool): (n: nat)
    ensures n <= |wire|
    ensures forall i :: 0 <= i < n ==> wire[i] == level
    ensures n < |wire| ==> wire[n] != level
  {
    if wire == [] || wire[0] != level then 0 else 1 + RunLength(wire[1..], level)
  }

  /** The lengths of the maximal high pulses. */
  function Pulses(wire: seq<bool>): seq<nat>
    decreases |wire|
  {
    if wire == [] then []
    else if !wire[0] then Pulses(wire[1..])
    else [RunLength(wire, true)] + Pulses(wire[RunLength(wire, true)..])
  }

  /** A long pulse is a one. */
  function Received(pulses: seq<nat>): seq<bool> {
    seq(|pulses|, i requires 0 <= i < |pulses| => pulses[i] >= 3)
  }

  /** `x` doubled `k` times. */
  function Doubled(x: nat, k: nat): nat {
    if k == 0 then x else 2 * Doubled(x, k - 1)
  }

  /** The number with these binary digits, most significant first. */
  function ToNat(bits: seq<bool>): (n: nat)
    ensures n < Doubled(1, |bits|)
  {
    if bits == [] then 0 else 2 * ToNat(bits[..|bits| - 1]) + if bits[|bits| - 1] then 1 else 0
  }

  function ToByte(bits: seq<bool>): (x: u8)
    requires |bits| == 8
  {
    EightDoublings(1);
    ToNat(bits)
  }

  function ToBytes(bits: seq<bool>): seq<u8>
    decreases |bits|
  {
    if |bits| < 8 then [] else [ToByte(bits[..8])] + ToBytes(bits[8..])
  }

  /** What the ring makes of the wire, from pulse lengths alone. */
  function Receive(wire: seq<bool>): seq<u8> {
    ToBytes(Received(Pulses(wire)))
  }

  // ---------- the round trip ----------

  lemma ShlDropsTop(x: u8)
    ensures Shl(x) == 2 * x - if Top(x) then 256 else 0
  {
  }

  /** Shifting left in a byte is doubling, less 256 for each bit that has moved out at the top. */
  lemma {:induction false} ShiftedValue(x: u8, k: nat)
    requires k <= 8
    ensures Shifted(x, k) == Doubled(x, k) - 256 * ToNat(Bits(x)[..k])
  {
    if k > 0 {
      var before, bits := Shifted(x, k - 1), Bits(x)[..k];
      ShiftedValue(x, k - 1);
      ShlDropsTop(before);
      assert bits[..k - 1] == Bits(x)[..k - 1];
      assert ToNat(bits) == 2 * ToNat(bits[..k - 1]) + if Top(before) then 1 else 0;
    }
  }

  /** The bits of a byte are its binary digits. */
  lemma BitsValue(x: u8)
    ensures ToByte(Bits(x)) == x
  {
    ShiftedValue(x, 8);
    assert Bits(x)[..8] == Bits(x);
    EightDoublings(x);
    var dropped, left: u8 := ToNat(Bits(x)), Shifted(x, 8);
    assert left == 256 * (x - dropped);
  }

  lemma EightDoublings(x: nat)
    ensures Doubled(x, 8) == 256 * x
  {
    assert Doubled(x, 1) == 2 * x;
    assert Doubled(x, 2) == 4 * x;
    assert Doubled(x, 4) == 4 * Doubled(x, 2);
    assert Doubled(x, 6) == 4 * Doubled(x, 4);
  }

  function Lows(n: nat): seq<bool> {
    seq(n, i => false)
  }

  function Highs(n: nat): seq<bool> {
    seq(n, i => true)
  }

  lemma OneShifts()
    ensures Shifted(ONE, 1) == 224 && Shifted(ONE, 2) == 192 && Shifted(ONE, 3) == 128 && Shifted(ONE, 4) == 0
  {
  }

  lemma ZeroShifts()
    ensures Shifted(ZERO, 1) == 128 && Shifted(ZERO, 2) == 0
  {
  }

  /** A byte shifted to zero stays zero. */
  lemma {:induction false} ShiftedOut(x: u8, j: nat, k: nat)
    requires Shifted(x, j) == 0 && j <= k
    ensures Shifted(x, k) == 0
  {
    if j < k {
      ShiftedOut(x, j, k - 1);
    }
  }

  lemma OneShape()
    ensures Bits(ONE) == Highs(4) + Lows(4)
  {
    OneShifts();
    forall k | 4 <= k < 8 ensures !Bits(ONE)[k] {
      ShiftedOut(ONE, 4, k);
    }
    forall k | 0 <= k < 4 ensures Bits(ONE)[k] {
      assert k == 0 || k == 1 || k == 2 || k == 3;
    }
  }

  lemma ZeroShape()
    ensures Bits(ZERO) == Highs(2) + Lows(6)
  {
    ZeroShifts();
    forall k | 2 <= k < 8 ensures !Bits(ZERO)[k] {
      ShiftedOut(ZERO, 2, k);
    }
    forall k | 0 <= k < 2 ensures Bits(ZERO)[k] {
      assert k == 0 || k == 1;
    }
  }

  /** Lows in front are not seen. */
  lemma {:induction false} LeadingLows(n: nat, wire: seq<bool>)
    ensures Pulses(Lows(n) + wire) == Pulses(wire)
  {
    if n == 0 {
      assert Lows(n) + wire == wire;
    } else {
      assert (Lows(n) + wire)[1..] == Lows(n - 1) + wire;
      LeadingLows(n - 1, wire);
    }
  }

  lemma RunLengthIs(wire: seq<bool>, level: bool, n: nat)
    requires n <= |wire| && (forall i :: 0 <= i < n ==> wire[i] == level) && (n < |wire| ==> wire[n] != level)
    ensures RunLength(wire, level) == n
  {
  }

  /** A pulse followed by a low is one pulse of its own length, whatever comes after. */
  lemma LeadingPulse(n: nat, m: nat, wire: seq<bool>)
    requires n > 0 && m > 0
    ensures Pulses(Highs(n) + Lows(m) + wire) == [n] + Pulses(wire)
  {
    var all := Highs(n) + Lows(m) + wire;
    RunLengthIs(all, true, n);
    assert all[n..] == Lows(m) + wire;
    LeadingLows(m, wire);
  }

  /** One byte of data: eight pulses of length four or two, in the order of its bits. */
  function PulseOf(bit: bool): nat {
    if bit then 4 else 2
  }

  lemma SymbolPulse(bit: bool, wire: seq<bool>)
    ensures Pulses(Bits(Symbol(bit)) + wire) == [PulseOf(bit)] + Pulses(wire)
  {
    if bit {
      OneShape();
      LeadingPulse(4, 4, wire);
    } else {
      ZeroShape();
      LeadingPulse(2, 6, wire);
    }
  }

  /** All the bits of a data buffer in order. */
  function AllBits(data: seq<u8>): (r: seq<bool>)
    ensures |r| == 8 * |data|
  {
    if data == [] then [] else Bits(data[0]) + AllBits(data[1..])
  }

  function Symbols(bits: seq<bool>): seq<u8> {
    seq(|bits|, k requires 0 <= k < |bits| => Symbol(bits[k]))
  }

  function PulsesOf(bits: seq<bool>): seq<nat> {
    seq(|bits|, k requires 0 <= k < |bits| => PulseOf(bits[k]))
  }

  lemma WireCons(bits: seq<bool>, tail: seq<bool>)
    requires bits != []
    ensures Wire(Symbols(bits)) + tail == Bits(Symbol(bits[0])) + (Wire(Symbols(bits[1..])) + tail)
  {
    assert Symbols(bits)[1..] == Symbols(bits[1..]);
  }

  /** Pulses never merge across symbols: any sequence of bits gives exactly one pulse per bit. */
  lemma {:induction false} OnePulsePerBit(bits: seq<bool>, tail: seq<bool>)
    ensures Pulses(Wire(Symbols(bits)) + tail) == PulsesOf(bits) + Pulses(tail)
  {
    if bits == [] {
      assert Wire(Symbols(bits)) + tail == tail;
    } else {
      var rest := Wire(Symbols(bits[1..])) + tail;
      calc {
        Pulses(Wire(Symbols(bits)) + tail);
        { WireCons(bits, tail); }
        Pulses(Bits(Symbol(bits[0])) + rest);
        { SymbolPulse(bits[0], rest); }
        [PulseOf(bits[0])] + Pulses(rest);
        { OnePulsePerBit(bits[1..], tail); }
        [PulseOf(bits[0])] + (PulsesOf(bits[1..]) + Pulses(tail));
        { assert PulsesOf(bits) == [PulseOf(bits[0])] + PulsesOf(bits[1..]); }
        PulsesOf(bits) + Pulses(tail);
      }
    }
  }

  lemma {:induction false} EncodeIsSymbols(data: seq<u8>)
    ensures Encode(data) == Symbols(AllBits(data))
  {
    if data != [] {
      EncodeIsSymbols(data[1..]);
    }
  }

  lemma {:induction false} BytesOfBits(data: seq<u8>)
    ensures ToBytes(AllBits(data)) == data
  {
    if data != [] {
      BitsValue(data[0]);
      BytesOfBits(data[1..]);
      assert AllBits(data)[..8] == Bits(data[0]) && AllBits(data)[8..] == AllBits(data[1..]);
    }
  }

  /**
   Self-clocking: with the wire low for any time before and after, the ring sees exactly eight pulses for each
   data byte, each four or two symbol bits long, and receives the data.
   */
  lemma RoundTrip(data: seq<u8>, before: nat, after: nat)
    ensures
      var wire := Lows(before) + (Wire(Encode(data)) + Lows(after));
      && |Pulses(wire)| == 8 * |data|
      && (forall p :: p in Pulses(wire) ==> p == 2 || p == 4)
      && Receive(wire) == data
  {
    var bits := AllBits(data);
    EncodeIsSymbols(data);
    LeadingLows(before, Wire(Encode(data)) + Lows(after));
    OnePulsePerBit(bits, Lows(after));
    LeadingLows(after, []);
    assert Lows(after) + [] == Lows(after);
    var wire := Lows(before) + (Wire(Encode(data)) + Lows(after));
    assert Pulses(wire) == PulsesOf(bits);
    assert Received(PulsesOf(bits)) == bits;
    BytesOfBits(data);
  }

  /** Different frames never look alike to the ring. */
  lemma EncodingIsInjective(a: seq<u8>, b: seq<u8>)
    requires Wire(Encode(a)) == Wire(Encode(b))
    ensures a == b
  {
    RoundTrip(a, 0, 0);
    RoundTrip(b, 0, 0);
  }

  // ---------- the device ----------

  /** Byte i of `data` over byte i of `frame`. */
  function Overlay(frame: seq<u8>, data: seq<u8>): seq<u8>
    requires |data| <= |frame|
  {
    data + frame[|data|..]
  }

  /** What a copy that misses the last `missed` bytes puts into the frame. */
  function Landed(data: seq<u8>, missed: nat): seq<u8>
    requires missed <= |data|
  {
    data[..|data| - missed] + seq(missed, i => 0)
  }

  datatype WriteResult = Done | Fault | Shutdown

  class Device {
    const txBuffer: array<u8>
    const encodeBuffer: array<u8>

    /** `open` allocates both buffers zeroed; the source's `size` is 48. */
    constructor Open(size: nat)
      ensures Valid() && fresh(txBuffer) && fresh(encodeBuffer)
      ensures txBuffer[..] == seq(size, i => 0) && encodeBuffer[..] == seq(8 * size, i => 0)
    {
      txBuffer := new u8[size](i => 0);
      encodeBuffer := new u8[8 * size](i => 0);
    }

    ghost predicate Valid() {
      txBuffer != encodeBuffer && encodeBuffer.Length == 8 * txBuffer.Length
    }

    /** `bits_encode`: shifts a copy of each byte left and looks at its top bit. */
    method BitsEncode()
      requires Valid()
      modifies encodeBuffer
      ensures encodeBuffer[..] == Encode(txBuffer[..])
    {
      ghost var data := txBuffer[..];
      var i := 0;
      while i < txBuffer.Length
        invariant 0 <= i <= txBuffer.Length
        invariant encodeBuffer[..8 * i] == Encode(data)[..8 * i]
      {
        var num := txBuffer[i];
        var k := 0;
        while k < 8
          invariant 0 <= k <= 8
          invariant num == Shifted(data[i], k)
          invariant encodeBuffer[..8 * i + k] == Encode(data)[..8 * i + k]
        {
          if Top(num) {
            encodeBuffer[8 * i + k] := ONE;
          } else {
            encodeBuffer[8 * i + k] := ZERO;
          }
          EncodeAt(data, i, k);
          assert encodeBuffer[..8 * i + k + 1] == encodeBuffer[..8 * i + k] + [encodeBuffer[8 * i + k]];
          num := Shl(num);
          k := k + 1;
        }
        i := i + 1;
      }
      assert encodeBuffer[..] == encodeBuffer[..8 * i];
    }

    /** `copy_from_user`: copies `count` bytes and pads what it misses with zeros. */
    method CopyFromUser(data: seq<u8>, count: nat)
      requires Valid() && count <= |data| <= txBuffer.Length
      modifies txBuffer
      ensures txBuffer[..] == Overlay(old(txBuffer[..]), Landed(data, |data| - count))
    {
      ghost var landed := Landed(data, |data| - count);
      var i := 0;
      while i < |data|
        invariant 0 <= i <= |data|
        invariant forall j :: 0 <= j < i ==> txBuffer[j] == landed[j]
        invariant forall j :: i <= j < txBuffer.Length ==> txBuffer[j] == old(txBuffer[j])
      {
        txBuffer[i] := if i < count then data[i] else 0;
        i := i + 1;
      }
    }

    /**
     `write`: copy from user space, encode, send.  `missed` is what `copy_from_user` returns, the number of
     bytes at the end that it could not copy; `attached` says whether there is an SPI device to send to.
     The frame is encoded even when the copy faults.
     */
    method Write(data: seq<u8>, missed: nat, attached: bool) returns (result: WriteResult)
      requires Valid() && missed <= |data| <= txBuffer.Length
      modifies txBuffer, encodeBuffer
      ensures txBuffer[..] == Overlay(old(txBuffer[..]), Landed(data, missed))
      ensures forall i :: 0 <= i < txBuffer.Length ==>
        txBuffer[i] == if i < |data| - missed then data[i] else if i < |data| then 0 else old(txBuffer[i])
      ensures encodeBuffer[..] == Encode(txBuffer[..])
      ensures result == if missed > 0 then Fault else if attached then Done else Shutdown
    {
      CopyFromUser(data, |data| - missed);
      assert forall i :: 0 <= i < txBuffer.Length ==> txBuffer[i] == txBuffer[..][i];
      BitsEncode();
      return if missed > 0 then Fault else if attached then Done else Shutdown;
    }

    /** Complete writes, one after the other, to a device just opened. */
    method Feed(writes: seq<seq<u8>>)
      requires Valid() && txBuffer[..] == Frame(txBuffer.Length, [])
      requires forall w :: w in writes ==> |w| <= txBuffer.Length
      modifies txBuffer, encodeBuffer
      ensures txBuffer[..] == Frame(txBuffer.Length, writes)
      ensures writes != [] ==> encodeBuffer[..] == Encode(Frame(txBuffer.Length, writes))
    {
      var i := 0;
      while i < |writes|
        invariant 0 <= i <= |writes|
        invariant txBuffer[..] == Frame(txBuffer.Length, writes[..i])
        invariant i > 0 ==> encodeBuffer[..] == Encode(txBuffer[..])
      {
        assert writes[..i + 1][..i] == writes[..i];
        assert Landed(writes[i], 0) == writes[i];
        var result := Write(writes[i], 0, true);
        i := i + 1;
      }
      assert writes[..|writes|] == writes;
    }
  }

  /** The frame after complete writes to a zeroed buffer of `size` bytes. */
  function Frame(size: nat, writes: seq<seq<u8>>): (r: seq<u8>)
    requires forall w :: w in writes ==> |w| <= size
    ensures |r| == size
  {
    if writes == [] then seq(size, i => 0)
    else Overlay(Frame(size, writes[..|writes| - 1]), writes[|writes| - 1])
  }

  /** The index of the latest write longer than `i`, or -1. */
  function LatestCovering(writes: seq<seq<u8>>, i: nat): (k: int)
    ensures -1 <= k < |writes|
    ensures k >= 0 ==> |writes[k]| > i
    ensures forall l :: k < l < |writes| ==> |writes[l]| <= i
  {
    var n := |writes| - 1;
    if writes == [] || |writes[n]| > i then n else LatestCovering(writes[..n], i)
  }

  /** Byte i of the frame is byte i of the latest write longer than i, and zero if there is none. */
  lemma {:induction false} FrameByte(size: nat, writes: seq<seq<u8>>, i: nat)
    requires i < size && forall w :: w in writes ==> |w| <= size
    ensures
      var k := LatestCovering(writes, i);
      Frame(size, writes)[i] == if k >= 0 then writes[k][i] else 0
  {
    if writes != [] {
      var n := |writes| - 1;
      if |writes[n]| <= i {
        FrameByte(size, writes[..n], i);
      }
    }
  }
}
