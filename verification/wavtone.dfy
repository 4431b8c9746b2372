/** The tone-file writer: a 44-byte RIFF/WAVE header for 16-bit mono PCM at
    44100 Hz, clamped little-endian samples, and the hand-written base64
    encoder (section 4 of RFC 4648) that turns the buffer into text. */
module WavTone {
  import opened Common

  /** A byte as a value of a `Uint8Array` or `DataView` cell. The encoder's
      shifts and masks on such values are written as division and remainder
      by powers of two (`a >> 2` is `a / 4`, `a & 3` is `a % 4`). */
  type Byte = x: int | 0 <= x < 256

  const SampleRate: int := 44100
  const TwoTo32: int := 0x1_0000_0000

  // ---------------------------------------------------------------- base64

  /** The character at position `i` of the 64-character alphabet
      `A-Z a-z 0-9 + /`. */
  function Sextet(i: int): (c: char)
    requires 0 <= i < 64
    ensures c != '='
  {
    if i < 26 then ('A' as int + i) as char
    else if i < 52 then ('a' as int + (i - 26)) as char
    else if i < 62 then ('0' as int + (i - 52)) as char
    else if i == 62 then '+'
    else '/'
  }

  /** The `BASE64` alphabet string. */
  const Alphabet: string := seq(64, i requires 0 <= i < 64 => Sextet(i))

  /** The inverse of `Sextet`, `None` for characters outside the alphabet. */
  function SextetValue(c: char): (r: Option<int>)
    ensures r.Some? ==> 0 <= r.value < 64 && Sextet(r.value) == c
  {
    if 'A' <= c <= 'Z' then Some(c as int - 'A' as int)
    else if 'a' <= c <= 'z' then Some(c as int - 'a' as int + 26)
    else if '0' <= c <= '9' then Some(c as int - '0' as int + 52)
    else if c == '+' then Some(62)
    else if c == '/' then Some(63)
    else None
  }

  lemma SextetValueInverts(i: int)
    requires 0 <= i < 64
    ensures SextetValue(Sextet(i)) == Some(i)
  {
  }

  /** One iteration of the encoding loop: `a` is `bytes[i]`, `b` and `c`
      the next two bytes when they exist (`undefined` otherwise). */
  function EncodeGroup(a: Byte, b: Option<Byte>, c: Option<Byte>): (r: string)
    requires c.Some? ==> b.Some?
    ensures |r| == 4
    ensures r[0] != '=' && r[1] != '='
    ensures r[2] == '=' <==> b.None?
    ensures r[3] == '=' <==> c.None?
  {
    var bb := if b.Some? then b.value else 0;
    var cc := if c.Some? then c.value else 0;
    [ Sextet(a / 4),
      Sextet((a % 4) * 16 + bb / 16),
      if b.Some? then Sextet((bb % 16) * 4 + cc / 64) else '=',
      if c.Some? then Sextet(cc % 64) else '=' ]
  }

  /** `bytesToBase64(bytes)`. */
  function BytesToBase64(bytes: seq<Byte>): (r: string)
    ensures |r| == 4 * ((|bytes| + 2) / 3) && |r| % 4 == 0
    decreases |bytes|
  {
    if |bytes| == 0 then ""
    else
      var rest := if |bytes| > 3 then bytes[3..] else [];
      GroupCountStep(|bytes|, |rest|);
      EncodeGroup(bytes[0], if |bytes| > 1 then Some(bytes[1]) else None, if |bytes| > 2 then Some(bytes[2]) else None)
      + BytesToBase64(rest)
  }

  /** Taking off one group of up to three bytes takes off one quad. */
  lemma GroupCountStep(n: nat, m: nat)
    requires n > 0 && m == (if n > 3 then n - 3 else 0)
    ensures (n + 2) / 3 == (m + 2) / 3 + 1
  {
  }

  /** The number of `=` characters section 4 of RFC 4648 prescribes. */
  function PadCount(n: nat): nat {
    if n % 3 == 1 then 2 else if n % 3 == 2 then 1 else 0
  }

  /** A character of the base64 alphabet. */
  predicate IsBase64Char(c: char) {
    SextetValue(c).Some?
  }

  lemma AlphabetMembers(c: char)
    ensures IsBase64Char(c) <==> c in Alphabet
  {
    if IsBase64Char(c) {
      assert Alphabet[SextetValue(c).value] == c;
    }
    if c in Alphabet {
      var i :| 0 <= i < 64 && Alphabet[i] == c;
      SextetValueInverts(i);
    }
  }

  /** `=` occurs exactly in the last `PadCount` positions. */
  lemma {:induction false} Base64PadPositions(bytes: seq<Byte>)
    ensures forall i | 0 <= i < |BytesToBase64(bytes)| ::
      BytesToBase64(bytes)[i] == '=' <==> i >= |BytesToBase64(bytes)| - PadCount(|bytes|)
    decreases |bytes|
  {
    if 0 < |bytes| <= 3 {
      LastGroupPads(bytes);
    } else if |bytes| > 3 {
      var rest := bytes[3..];
      Base64PadPositions(rest);
      PadCountShift(|rest|);
      var g := EncodeGroup(bytes[0], Some(bytes[1]), Some(bytes[2]));
      assert BytesToBase64(bytes) == g + BytesToBase64(rest);
      PadShift(g, BytesToBase64(rest), PadCount(|bytes|));
    }
  }

  /** One to three bytes make one group whose `=` characters are the last
      `PadCount`. */
  lemma LastGroupPads(bytes: seq<Byte>)
    requires 0 < |bytes| <= 3
    ensures forall i | 0 <= i < |BytesToBase64(bytes)| ::
      BytesToBase64(bytes)[i] == '=' <==> i >= |BytesToBase64(bytes)| - PadCount(|bytes|)
  {
    var b := if |bytes| > 1 then Some(bytes[1]) else None;
    var c := if |bytes| > 2 then Some(bytes[2]) else None;
    var g := EncodeGroup(bytes[0], b, c);
    assert BytesToBase64(bytes) == g + BytesToBase64([]);
    assert PadCount(|bytes|) == (if b.None? then 2 else if c.None? then 1 else 0);
  }

  lemma PadCountShift(n: nat)
    ensures PadCount(n + 3) == PadCount(n)
  {
  }

  lemma PadShift(g: string, t: string, p: int)
    requires |g| == 4 && |t| >= 4 && 0 <= p <= 2
    requires forall i | 0 <= i < 4 :: g[i] != '='
    requires forall j | 0 <= j < |t| :: t[j] == '=' <==> j >= |t| - p
    ensures forall i | 0 <= i < |g + t| :: (g + t)[i] == '=' <==> i >= |g + t| - p
  {
    forall i | 0 <= i < |g + t| ensures (g + t)[i] == '=' <==> i >= |g + t| - p {
      if i >= 4 {
        assert (g + t)[i] == t[i - 4];
      }
    }
  }

  /** Every character other than `=` is drawn from the alphabet. */
  lemma Base64InAlphabet(bytes: seq<Byte>)
    ensures var r := BytesToBase64(bytes);
      forall i | 0 <= i < |r| && r[i] != '=' :: r[i] in Alphabet
  {
    var r := BytesToBase64(bytes);
    Base64Chars(bytes);
    forall i | 0 <= i < |r| && r[i] != '=' ensures r[i] in Alphabet {
      AlphabetMembers(r[i]);
    }
  }

  lemma {:induction false} Base64Chars(bytes: seq<Byte>)
    ensures forall i | 0 <= i < |BytesToBase64(bytes)| && BytesToBase64(bytes)[i] != '=' ::
      IsBase64Char(BytesToBase64(bytes)[i])
    decreases |bytes|
  {
    var r := BytesToBase64(bytes);
    if |bytes| > 0 {
      var b := if |bytes| > 1 then Some(bytes[1]) else None;
      var c := if |bytes| > 2 then Some(bytes[2]) else None;
      var rest := if |bytes| > 3 then bytes[3..] else [];
      var g := EncodeGroup(bytes[0], b, c);
      Base64Chars(rest);
      var t := BytesToBase64(rest);
      assert forall j | 0 <= j < |t| && t[j] != '=' :: IsBase64Char(t[j]);
      assert r == g + t;
      forall i | 0 <= i < |r| && r[i] != '=' ensures IsBase64Char(r[i]) {
        if i < 4 {
          assert r[i] == g[i];
          GroupChars(bytes[0], b, c, i);
        } else {
          assert r[i] == t[i - 4];
        }
      }
    }
  }

  lemma GroupChars(a: Byte, b: Option<Byte>, c: Option<Byte>, i: nat)
    requires c.Some? ==> b.Some?
    requires i < 4 && EncodeGroup(a, b, c)[i] != '='
    ensures IsBase64Char(EncodeGroup(a, b, c)[i])
  {
    var g := EncodeGroup(a, b, c);
    var bb := if b.Some? then b.value else 0;
    var cc := if c.Some? then c.value else 0;
    var x := if i == 0 then a / 4 else if i == 1 then (a % 4) * 16 + bb / 16 else if i == 2 then (bb % 16) * 4 + cc / 64 else cc % 64;
    assert g[i] == Sextet(x);
    SextetValueInverts(x);
  }

  /** Padding as the encoding promises: two `=` for `n % 3 == 1`, one for
      `n % 3 == 2`, none for `n % 3 == 0`. */
  lemma Base64Padding(bytes: seq<Byte>)
    ensures var r := BytesToBase64(bytes);
      && (|bytes| % 3 == 1 ==> r[|r| - 2..] == "==" && r[|r| - 3] != '=')
      && (|bytes| % 3 == 2 ==> r[|r| - 1] == '=' && r[|r| - 2] != '=')
      && (|bytes| % 3 == 0 ==> '=' !in r)
  {
    Base64PadPositions(bytes);
    var r := BytesToBase64(bytes);
    if |bytes| % 3 == 1 {
      assert r[|r| - 2..] == [r[|r| - 2], r[|r| - 1]];
    }
  }

  /** Section 4 of RFC 4648 read backwards: four characters give one to
      three bytes. */
  function DecodeGroup(g: string): (r: Option<seq<Byte>>)
    requires |g| == 4
  {
    var x0 := SextetValue(g[0]);
    var x1 := SextetValue(g[1]);
    var x2 := SextetValue(g[2]);
    var x3 := SextetValue(g[3]);
    if x0.None? || x1.None? then None
    else
      var b0 := x0.value * 4 + x1.value / 16;
      if g[2] == '=' then
        if g[3] == '=' && x1.value % 16 == 0 then Some([b0]) else None
      else if x2.None? then None
      else
        var b1 := (x1.value % 16) * 16 + x2.value / 4;
        if g[3] == '=' then
          if x2.value % 4 == 0 then Some([b0, b1]) else None
        else if x3.None? then None
        else Some([b0, b1, (x2.value % 4) * 64 + x3.value])
  }

  /** A full RFC 4648 base64 decoder; padding is accepted only in the last
      group. */
  function Base64Decode(s: string): (r: Option<seq<Byte>>)
    requires |s| % 4 == 0
    decreases |s|
  {
    if |s| == 0 then Some([])
    else
      match DecodeGroup(s[..4])
      case None => None
      case Some(bs) =>
        if |bs| < 3 && |s| > 4 then None
        else
          match Base64Decode(s[4..])
          case None => None
          case Some(rest) => Some(bs + rest)
  }

  lemma DecodeEncodeGroup(a: Byte, b: Option<Byte>, c: Option<Byte>)
    requires c.Some? ==> b.Some?
    ensures DecodeGroup(EncodeGroup(a, b, c)) ==
      Some([a] + (if b.Some? then [b.value] else []) + (if c.Some? then [c.value] else []))
  {
    var bb := if b.Some? then b.value else 0;
    var cc := if c.Some? then c.value else 0;
    var g := EncodeGroup(a, b, c);
    var x0, x1, x2, x3 := a / 4, (a % 4) * 16 + bb / 16, (bb % 16) * 4 + cc / 64, cc % 64;
    SextetValueInverts(x0);
    SextetValueInverts(x1);
    SextetValueInverts(x2);
    SextetValueInverts(x3);
    assert SextetValue(g[0]) == Some(x0) && SextetValue(g[1]) == Some(x1);
    assert x1 / 16 == a % 4 && x1 % 16 == bb / 16;
    assert x0 * 4 + x1 / 16 == a;
    if b.Some? {
      assert SextetValue(g[2]) == Some(x2);
      assert x2 / 4 == bb % 16 && x2 % 4 == cc / 64;
      assert (x1 % 16) * 16 + x2 / 4 == bb;
      if c.Some? {
        assert SextetValue(g[3]) == Some(x3);
        assert (x2 % 4) * 64 + x3 == cc;
        assert [a] + [bb] + [cc] == [a, bb, cc];
      } else {
        assert [a] + [bb] + [] == [a, bb];
      }
    } else {
      assert [a] + [] + [] == [a];
    }
  }

  /** Decoding the encoder's output gives back the input bytes: the encoder
      is the encoding of section 4 of RFC 4648. */
  lemma {:induction false} Base64RoundTrip(bytes: seq<Byte>)
    ensures Base64Decode(BytesToBase64(bytes)) == Some(bytes)
    decreases |bytes|
  {
    if |bytes| > 0 {
      var rest := if |bytes| > 3 then bytes[3..] else [];
      Base64RoundTrip(rest);
      DecodeFirstGroup(bytes);
      assert bytes == bytes[..Min(3, |bytes|)] + rest;
    }
  }

  /** Decoding the output peels off the first group's bytes. */
  lemma DecodeFirstGroup(bytes: seq<Byte>)
    requires |bytes| > 0
    ensures var rest := if |bytes| > 3 then bytes[3..] else [];
      Base64Decode(BytesToBase64(rest)) == Some(rest) ==>
      Base64Decode(BytesToBase64(bytes)) == Some(bytes[..Min(3, |bytes|)] + rest)
  {
    var b := if |bytes| > 1 then Some(bytes[1]) else None;
    var c := if |bytes| > 2 then Some(bytes[2]) else None;
    var rest := if |bytes| > 3 then bytes[3..] else [];
    var g := EncodeGroup(bytes[0], b, c);
    DecodeEncodeGroup(bytes[0], b, c);
    var bs := [bytes[0]] + (if b.Some? then [b.value] else []) + (if c.Some? then [c.value] else []);
    assert bs == bytes[..Min(3, |bytes|)];
    assert |bs| >= 3 || BytesToBase64(rest) == [];
    assert BytesToBase64(bytes) == g + BytesToBase64(rest);
    if Base64Decode(BytesToBase64(rest)) == Some(rest) {
      DecodeCons(g, BytesToBase64(rest), bs, rest);
    }
  }

  /** One step of the decoder over a leading group. */
  lemma DecodeCons(g: string, t: string, bs: seq<Byte>, rest: seq<Byte>)
    requires |g| == 4 && |t| % 4 == 0
    requires DecodeGroup(g) == Some(bs) && (|bs| >= 3 || t == [])
    requires Base64Decode(t) == Some(rest)
    ensures Base64Decode(g + t) == Some(bs + rest)
  {
    assert (g + t)[..4] == g && (g + t)[4..] == t;
  }

  // ---------------------------------------------------------------- header

  /** `view.setUint32(offset, v, true)`: `v` reduced modulo 2^32, least
      significant byte first. */
  function U32LE(v: int): (r: seq<Byte>)
    ensures |r| == 4
  {
    var x := v % 0x1_0000_0000;
    var x1 := x / 256;
    var x2 := x1 / 256;
    var x3 := x2 / 256;
    [(x % 256), (x1 % 256), (x2 % 256), (x3 % 256)]
  }

  /** `view.setUint16(offset, v, true)`. */
  function U16LE(v: int): (r: seq<Byte>)
    ensures |r| == 2
  {
    var x := v % 0x1_0000;
    [(x % 256), (x / 256 % 256)]
  }

  /** Reading four little-endian bytes back as an unsigned integer. */
  function Word32(w: seq<Byte>): int
    requires |w| == 4
  {
    w[0] as int + 256 * (w[1] as int) + 65536 * (w[2] as int) + 16777216 * (w[3] as int)
  }

  function Word16(w: seq<Byte>): int
    requires |w| == 2
  {
    w[0] as int + 256 * (w[1] as int)
  }

  /** Reading four little-endian bytes at `at` back as an unsigned integer. */
  function ReadU32LE(h: seq<Byte>, at: nat): int
    requires at + 4 <= |h|
  {
    Word32(h[at..at + 4])
  }

  function ReadU16LE(h: seq<Byte>, at: nat): int
    requires at + 2 <= |h|
  {
    Word16(h[at..at + 2])
  }

  lemma U32LEReadsBack(v: int)
    ensures Word32(U32LE(v)) == v % TwoTo32
  {
    var x := v % 0x1_0000_0000;
    var x1 := x / 256;
    var x2 := x1 / 256;
    var x3 := x2 / 256;
    assert x == x % 256 + 256 * x1;
    assert x1 == x1 % 256 + 256 * x2;
    assert x2 == x2 % 256 + 256 * x3;
    assert x3 < 256;
  }

  lemma U16LEReadsBack(v: int)
    ensures Word16(U16LE(v)) == v % 0x1_0000
  {
    var x := v % 0x1_0000;
    assert x == x % 256 + 256 * (x / 256);
  }

  /** `write(text)`: one byte per character, `charCodeAt` truncated to a
      byte by `setUint8`. */
  function Ascii(s: string): (r: seq<Byte>)
    ensures |r| == |s|
  {
    seq(|s|, i requires 0 <= i < |s| => s[i] as int % 256)
  }

  /** Bytes 0 to 11: the RIFF chunk descriptor. */
  function RiffDescriptor(dataSize: int): (d: seq<Byte>)
    ensures |d| == 12
    ensures d[0..4] == Ascii("RIFF") && d[8..12] == Ascii("WAVE")
    ensures Word32(d[4..8]) == (36 + dataSize) % TwoTo32
  {
    U32LEReadsBack(36 + dataSize);
    var d := Ascii("RIFF") + U32LE(36 + dataSize) + Ascii("WAVE");
    assert d[4..8] == U32LE(36 + dataSize);
    d
  }

  /** Bytes 12 to 35: the `fmt ` sub-chunk for 16-bit mono PCM at 44100 Hz. */
  function FormatChunk(): (f: seq<Byte>)
    ensures |f| == 24
    ensures f[0..4] == Ascii("fmt ")
    ensures Word32(f[4..8]) == 16
    ensures Word16(f[8..10]) == 1 && Word16(f[10..12]) == 1
    ensures Word32(f[12..16]) == SampleRate && Word32(f[16..20]) == 2 * SampleRate
    ensures Word16(f[20..22]) == 2 && Word16(f[22..24]) == 16
  {
    var p := FmtPrefix();
    var q := FmtRates();
    var f := p + q;
    assert f[..12] == p && f[12..] == q;
    assert f[0..4] == p[0..4] && f[4..8] == p[4..8] && f[8..10] == p[8..10] && f[10..12] == p[10..12];
    assert f[12..16] == q[0..4] && f[16..20] == q[4..8] && f[20..22] == q[8..10] && f[22..24] == q[10..12];
    f
  }

  function FmtPrefix(): (p: seq<Byte>)
    ensures |p| == 12 && p[0..4] == Ascii("fmt ")
    ensures Word32(p[4..8]) == 16 && Word16(p[8..10]) == 1 && Word16(p[10..12]) == 1
  {
    U32LEReadsBack(16);
    U16LEReadsBack(1);
    var p := Ascii("fmt ") + U32LE(16) + (U16LE(1) + U16LE(1));
    assert p[4..8] == U32LE(16) && p[8..10] == U16LE(1) && p[10..12] == U16LE(1);
    p
  }

  function FmtRates(): (q: seq<Byte>)
    ensures |q| == 12
    ensures Word32(q[0..4]) == SampleRate && Word32(q[4..8]) == 2 * SampleRate
    ensures Word16(q[8..10]) == 2 && Word16(q[10..12]) == 16
  {
    RatesLayout(SampleRate, SampleRate * 2, 2, 16);
    U32LE(SampleRate) + U32LE(SampleRate * 2) + (U16LE(2) + U16LE(16))
  }

  /** Two 32-bit words and two 16-bit words side by side read back field by
      field. */
  lemma RatesLayout(a: int, b: int, c: int, d: int)
    ensures var q := U32LE(a) + U32LE(b) + (U16LE(c) + U16LE(d));
      && |q| == 12
      && Word32(q[0..4]) == a % TwoTo32 && Word32(q[4..8]) == b % TwoTo32
      && Word16(q[8..10]) == c % 0x1_0000 && Word16(q[10..12]) == d % 0x1_0000
  {
    U32LEReadsBack(a);
    U32LEReadsBack(b);
    U16LEReadsBack(c);
    U16LEReadsBack(d);
    var q := U32LE(a) + U32LE(b) + (U16LE(c) + U16LE(d));
    assert q[0..4] == U32LE(a) && q[4..8] == U32LE(b);
    assert q[8..10] == U16LE(c) && q[10..12] == U16LE(d);
  }

  /** Bytes 36 to 43: the `data` sub-chunk header. */
  function DataHeader(dataSize: int): (d: seq<Byte>)
    ensures |d| == 8
    ensures d[0..4] == Ascii("data") && Word32(d[4..8]) == dataSize % TwoTo32
  {
    U32LEReadsBack(dataSize);
    var d := Ascii("data") + U32LE(dataSize);
    assert d[4..8] == U32LE(dataSize);
    d
  }

  /** The header bytes 0 to 43 of `createWavBuffer`, every field at its
      fixed offset. */
  function WavHeader(dataSize: int): (h: seq<Byte>)
    ensures |h| == 44
    ensures h[0..4] == Ascii("RIFF") && h[8..12] == Ascii("WAVE")
    ensures h[12..16] == Ascii("fmt ") && h[36..40] == Ascii("data")
    ensures ReadU32LE(h, 4) == (36 + dataSize) % TwoTo32
    ensures ReadU32LE(h, 16) == 16
    ensures ReadU16LE(h, 20) == 1 && ReadU16LE(h, 22) == 1
    ensures ReadU32LE(h, 24) == SampleRate && ReadU32LE(h, 28) == 2 * SampleRate
    ensures ReadU16LE(h, 32) == 2 && ReadU16LE(h, 34) == 16
    ensures ReadU32LE(h, 40) == dataSize % TwoTo32
  {
    var r := RiffDescriptor(dataSize);
    var f := FormatChunk();
    var d := DataHeader(dataSize);
    var h := r + f + d;
    assert h[..12] == r && h[12..36] == f && h[36..] == d;
    assert h[4..8] == r[4..8];
    assert h[16..20] == f[4..8] && h[20..22] == f[8..10] && h[22..24] == f[10..12];
    assert h[24..28] == f[12..16] && h[28..32] == f[16..20];
    assert h[32..34] == f[20..22] && h[34..36] == f[22..24];
    assert h[40..44] == d[4..8];
    h
  }

  // --------------------------------------------------------------- samples

  /** `Math.floor((SAMPLE_RATE * durationMs) / 1000)` for a whole number of
      milliseconds. */
  function NumSamples(durationMs: nat): (r: nat)
    ensures r * 1000 <= SampleRate * durationMs < (r + 1) * 1000
  {
    SampleRate * durationMs / 1000
  }

  /** `Math.floor(32767 * Math.min(1, Math.max(0, volume)))` for the volume
      `num / den`. */
  function Amplitude(num: int, den: int): (r: int)
    requires den > 0
    ensures 0 <= r <= 32767
    ensures num <= 0 ==> r == 0
    ensures num >= den ==> r == 32767
  {
    if num <= 0 then 0
    else if num >= den then 32767
    else
      ScaleBelow(32767, num, den);
      32767 * num / den
  }

  /** `m * num / den` stays in `[0, m]` for `0 < num < den`. */
  lemma ScaleBelow(m: nat, num: int, den: int)
    requires 0 < num < den
    ensures 0 <= m * num / den <= m
  {
    assert m * den - m * num == m * (den - num);
    DivAtMost(m * num, m, den);
  }

  lemma DivAtMost(p: int, m: int, den: int)
    requires den > 0 && 0 <= p <= m * den
    ensures p / den <= m
  {
    var q := p / den;
    assert q * den <= p;
    assert (q - m) * den == q * den - m * den;
  }

  /** The default volume 0.25. */
  lemma DefaultAmplitude()
    ensures Amplitude(1, 4) == 8191
  {
  }

  /** `Math.max(-32768, Math.min(32767, v))`. */
  function ClampSample(v: int): (r: int)
    ensures -32768 <= r <= 32767
    ensures -32768 <= v <= 32767 ==> r == v
    ensures v < -32768 ==> r == -32768
    ensures v > 32767 ==> r == 32767
  {
    Max(-32768, Min(32767, v))
  }

  /** An `Int16Array` element: two's complement, little-endian. */
  function I16LE(v: int): (r: seq<Byte>)
    requires -32768 <= v <= 32767
    ensures |r| == 2
  {
    U16LE(v)
  }

  function ReadI16LE(h: seq<Byte>, at: nat): (r: int)
    requires at + 2 <= |h|
  {
    var u := ReadU16LE(h, at);
    if u >= 32768 then u - 0x1_0000 else u
  }

  lemma I16LEReadsBack(v: int)
    requires -32768 <= v <= 32767
    ensures ReadI16LE(I16LE(v), 0) == v
  {
    U16LEReadsBack(v);
    assert I16LE(v)[0..2] == I16LE(v);
  }

  function SampleBytes(raw: seq<int>): (r: seq<Byte>)
    ensures |r| == 2 * |raw|
    decreases |raw|
  {
    if |raw| == 0 then [] else I16LE(ClampSample(raw[0])) + SampleBytes(raw[1..])
  }

  /** `createWavBuffer`, given the rounded sine values `raw` (one per sample)
      that the floating-point loop computes. */
  function CreateWavBuffer(durationMs: nat, raw: seq<int>): (r: seq<Byte>)
    requires |raw| == NumSamples(durationMs)
    ensures |r| == 44 + 2 * NumSamples(durationMs)
    ensures r[..44] == WavHeader(2 * NumSamples(durationMs))
    ensures forall i | 0 <= i < |raw| :: ReadI16LE(r, 44 + 2 * i) == ClampSample(raw[i])
  {
    var r := WavHeader(2 * |raw|) + SampleBytes(raw);
    assert r[..44] == WavHeader(2 * |raw|);
    forall i | 0 <= i < |raw| ensures ReadI16LE(r, 44 + 2 * i) == ClampSample(raw[i]) {
      SampleBytesAt(raw, i);
      I16LEReadsBack(ClampSample(raw[i]));
      assert r[44 + 2 * i] == SampleBytes(raw)[2 * i];
      assert r[44 + 2 * i + 1] == SampleBytes(raw)[2 * i + 1];
    }
    r
  }

  lemma {:induction false} SampleBytesAt(raw: seq<int>, i: nat)
    requires i < |raw|
    ensures SampleBytes(raw)[2 * i] == I16LE(ClampSample(raw[i]))[0]
    ensures SampleBytes(raw)[2 * i + 1] == I16LE(ClampSample(raw[i]))[1]
    decreases i
  {
    if i > 0 {
      SampleBytesAt(raw[1..], i - 1);
    }
  }

  /** `bytesToBase64` of a whole buffer, which decodes back to it. */
  function EncodeBuffer(b: seq<Byte>): (r: string)
    ensures |r| == 4 * ((|b| + 2) / 3)
    ensures Base64Decode(r) == Some(b)
  {
    Base64RoundTrip(b);
    BytesToBase64(b)
  }

  /** `getWavBase64`: the buffer as base64 text, of length
      `4 * ceil((44 + 2 * numSamples) / 3)`. */
  function WavBase64(durationMs: nat, raw: seq<int>): (r: string)
    requires |raw| == NumSamples(durationMs)
    ensures |r| == 4 * ((46 + 2 * NumSamples(durationMs)) / 3)
    ensures Base64Decode(r) == Some(CreateWavBuffer(durationMs, raw))
  {
    EncodeBuffer(CreateWavBuffer(durationMs, raw))
  }
}
