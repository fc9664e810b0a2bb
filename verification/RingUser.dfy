/** The user program of the ring: it rotates the frame by one pixel a round, writes it, and ends with a dark frame. */
module RingUser {
  import opened Ws2812

  /** One place to the left, the first byte going to the end. */
  function RotateOne(s: seq<u8>): seq<u8>
    requires s != []
  {
    s[1..] + [s[0]]
  }

  function Rotate(s: seq<u8>, k: nat): (r: seq<u8>)
    ensures |r| == |s|
  {
    if s == [] || k == 0 then s else RotateOne(Rotate(s, k - 1))
  }

  /** `k % n` by going around. */
  function Around(k: nat, n: nat): (r: nat)
    requires n > 0
    ensures r < n
  {
    if k < n then k else Around(k - n, n)
  }

  /** A quotient and a remainder below the divisor are the only ones. */
  lemma ModUnique(q: nat, n: nat, r: nat)
    requires r < n
    ensures (q * n + r) % n == r
  {
    var k := q * n + r;
    var d := q - k / n;
    assert k == (k / n) * n + k % n;
    assert d * n == k % n - r;
    MultipleIsFar(d, n);
  }

  lemma MultipleIsFar(d: int, n: int)
    requires n >= 0
    ensures d > 0 ==> d * n >= n
    ensures d < 0 ==> d * n + n <= 0
  {
  }

  lemma {:induction false} AroundQuotient(k: nat, n: nat) returns (q: nat)
    requires n > 0
    ensures k == q * n + Around(k, n)
  {
    if k < n {
      q := 0;
    } else {
      var p := AroundQuotient(k - n, n);
      q := p + 1;
    }
  }

  lemma AroundIsMod(k: nat, n: nat)
    requires n > 0
    ensures Around(k, n) == k % n
  {
    var q := AroundQuotient(k, n);
    ModUnique(q, n, Around(k, n));
  }

  lemma {:induction false} RotateAround(s: seq<u8>, k: nat, i: nat)
    requires i < |s|
    ensures Rotate(s, k)[i] == s[Around(i + k, |s|)]
  {
    if k > 0 {
      RotateAround(s, k - 1, if i + 1 < |s| then i + 1 else 0);
    }
  }

  /** After k places, position i holds what was k places further on, around the ring. */
  lemma RotateAt(s: seq<u8>, k: nat, i: nat)
    requires i < |s|
    ensures Rotate(s, k)[i] == s[(i + k) % |s|]
  {
    RotateAround(s, k, i);
    AroundIsMod(i + k, |s|);
  }

  /** Rotation conserves the bytes of the frame. */
  lemma {:induction false} RotateConserves(s: seq<u8>, k: nat)
    ensures multiset(Rotate(s, k)) == multiset(s)
  {
    if s != [] && k > 0 {
      RotateConserves(s, k - 1);
      var t := Rotate(s, k - 1);
      assert t == [t[0]] + t[1..];
    }
  }

  /** Rotating by j and then by k is rotating by their sum. */
  lemma {:induction false} RotateSum(s: seq<u8>, j: nat, k: nat)
    ensures Rotate(Rotate(s, j), k) == Rotate(s, j + k)
  {
    if k > 0 {
      RotateSum(s, j, k - 1);
    }
  }

  /** Pixel i of a frame: three colour bytes. */
  function Pixel(s: seq<u8>, i: nat): seq<u8>
    requires 3 * i + 3 <= |s|
  {
    s[3 * i..3 * i + 3]
  }

  /** Around a ring of p pixels of three bytes, bytes go with their pixels. */
  lemma {:induction false} PixelIndex(m: nat, p: nat, b: nat)
    requires p > 0 && b < 3
    ensures Around(3 * m + b, 3 * p) == 3 * Around(m, p) + b
  {
    if m >= p {
      PixelIndex(m - p, p, b);
    }
  }

  lemma PixelByte(s: seq<u8>, pixels: nat, k: nat, i: nat, b: nat)
    requires |s| == 3 * pixels && i < pixels && b < 3
    ensures Rotate(s, 3 * k)[3 * i + b] == s[3 * Around(i + k, pixels) + b]
  {
    RotateAround(s, 3 * k, 3 * i + b);
    PixelIndex(i + k, pixels, b);
    assert 3 * i + b + 3 * k == 3 * (i + k) + b;
  }

  /** Pixels stay whole: after k rounds, pixel i shows the pixel that was k places further on. */
  lemma PixelsRotate(s: seq<u8>, pixels: nat, k: nat, i: nat)
    requires |s| == 3 * pixels && i < pixels
    ensures Pixel(Rotate(s, 3 * k), i) == Pixel(s, (i + k) % pixels)
  {
    AroundIsMod(i + k, pixels);
    PixelByte(s, pixels, k, i, 0);
    PixelByte(s, pixels, k, i, 1);
    PixelByte(s, pixels, k, i, 2);
  }

  lemma ByteAfterTurn(s: seq<u8>, i: nat)
    requires i < |s|
    ensures Rotate(s, |s|)[i] == s[i]
  {
    var n := |s|;
    RotateAround(s, n, i);
    assert Around(i + n, n) == Around(i, n) == i;
  }

  lemma FullTurn(s: seq<u8>)
    ensures Rotate(s, |s|) == s
  {
    var r := Rotate(s, |s|);
    forall i: nat | i < |s| ensures r[i] == s[i] {
      ByteAfterTurn(s, i);
    }
  }

  /** The pattern comes back after as many rounds as there are pixels, and then repeats. */
  lemma PatternPeriod(s: seq<u8>, pixels: nat, k: nat)
    requires |s| == 3 * pixels
    ensures Rotate(s, 3 * (k + pixels)) == Rotate(s, 3 * k)
  {
    FullTurn(s);
    RotateSum(s, |s|, 3 * k);
    assert |s| + 3 * k == 3 * (k + pixels);
  }

  /** The inner loop: one place to the left in place, through a temporary. */
  method ShiftLeft(buffer: array<u8>)
    requires buffer.Length > 0
    modifies buffer
    ensures buffer[..] == RotateOne(old(buffer[..]))
  {
    var temp := buffer[0];
    var n := buffer.Length;
    for i := 0 to n - 1
      invariant forall j :: 0 <= j < i ==> buffer[j] == old(buffer[j + 1])
      invariant forall j :: i <= j < n ==> buffer[j] == old(buffer[j])
      invariant temp == old(buffer[0])
    {
      buffer[i] := buffer[i + 1];
    }
    buffer[n - 1] := temp;
  }

  /** One round of the outer loop without the write: one pixel to the left. */
  method ShiftPixel(buffer: array<u8>)
    requires buffer.Length > 0
    modifies buffer
    ensures buffer[..] == Rotate(old(buffer[..]), 3)
  {
    ghost var before := buffer[..];
    for j := 0 to 3
      invariant buffer[..] == Rotate(before, j)
    {
      ShiftLeft(buffer);
    }
  }

  /** What the ring receives when `symbols` are sent between two silences. */
  ghost function Shown(symbols: seq<u8>): seq<u8> {
    Receive(Lows(1) + (Wire(symbols) + Lows(1)))
  }

  /**
   The program after opening the device: `rounds` rounds of rotating and writing, then a dark frame.
   `sent` is what the driver hands to SPI at each write.  The ring shows the original pattern rotated by one
   more pixel each round, and nothing at the end.
   */
  method Animate(device: Device, buffer: array<u8>, rounds: nat) returns (sent: seq<seq<u8>>)
    requires device.Valid() && buffer.Length == device.txBuffer.Length > 0
    requires buffer != device.txBuffer && buffer != device.encodeBuffer
    modifies buffer, device.txBuffer, device.encodeBuffer
    ensures |sent| == rounds + 1
    ensures forall k :: 0 <= k < rounds ==> Shown(sent[k]) == Rotate(old(buffer[..]), 3 * (k + 1))
    ensures Shown(sent[rounds]) == seq(buffer.Length, i => 0)
  {
    ghost var pattern := buffer[..];
    sent := [];
    for k := 0 to rounds
      invariant buffer[..] == Rotate(pattern, 3 * k)
      invariant |sent| == k
      invariant forall i :: 0 <= i < k ==> Shown(sent[i]) == Rotate(pattern, 3 * (i + 1))
    {
      ShiftPixel(buffer);
      RotateSum(pattern, 3 * k, 3);
      var symbols := Send(device, buffer);
      sent := sent + [symbols];
    }
    for i := 0 to buffer.Length
      invariant forall j :: 0 <= j < i ==> buffer[j] == 0
    {
      buffer[i] := 0;
    }
    assert buffer[..] == seq(buffer.Length, i => 0);
    var symbols := Send(device, buffer);
    sent := sent + [symbols];
  }

  /** `write` of the whole buffer; the result is the driver's symbol buffer, from which the ring gets the frame. */
  method Send(device: Device, buffer: array<u8>) returns (symbols: seq<u8>)
    requires device.Valid() && buffer.Length == device.txBuffer.Length
    requires buffer != device.txBuffer && buffer != device.encodeBuffer
    modifies device.txBuffer, device.encodeBuffer
    ensures buffer[..] == old(buffer[..])
    ensures symbols == device.encodeBuffer[..] && Shown(symbols) == buffer[..]
  {
    ghost var data := buffer[..];
    var result := device.Write(buffer[..], 0, true);
    assert Landed(data, 0) == data;
    assert device.txBuffer[..] == data;
    symbols := device.encodeBuffer[..];
    RoundTrip(data, 1, 1);
  }
}
