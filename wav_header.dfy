/** `create_wav_header`: the 44-byte header of a PCM WAVE file, laid out as in
    Microsoft's "Multimedia Programming Interface and Data Specifications 1.0"
    (the RIFF form of type `WAVE` with a `fmt ` chunk and a `data` chunk).
    Every number is little-endian; Python's `struct.pack` with `<` inserts no
    padding and raises when a value does not fit its field. */
module WavHeader {
  import opened Json

  newtype byte = x: int | 0 <= x < 256

  const Two16: nat := 0x1_0000
  const Two32: nat := 0x1_0000_0000

  /** `struct.pack('<H', x)`. */
  function U16(x: nat): (b: seq<byte>)
    requires x < Two16
    ensures |b| == 2
  {
    [(x % 256) as byte, (x / 256) as byte]
  }

  /** `struct.pack('<I', x)`: the low half first. */
  function U32(x: nat): (b: seq<byte>)
    requires x < Two32
    ensures |b| == 4
  {
    U16(x % Two16) + U16(x / Two16)
  }

  /** `struct.unpack('<H', b)`. */
  function ReadU16(b: seq<byte>): (x: nat)
    requires |b| == 2
    ensures x < Two16
  {
    b[0] as nat + 256 * b[1] as nat
  }

  /** `struct.unpack('<I', b)`. */
  function ReadU32(b: seq<byte>): (x: nat)
    requires |b| == 4
    ensures x < Two32
  {
    ReadU16(b[..2]) + Two16 * ReadU16(b[2..])
  }

  lemma U16RoundTrip(x: nat)
    requires x < Two16
    ensures ReadU16(U16(x)) == x
  {
  }

  lemma ReadU16RoundTrip(b: seq<byte>)
    requires |b| == 2
    ensures U16(ReadU16(b)) == b
  {
    var x := ReadU16(b);
    assert x % 256 == b[0] as int && x / 256 == b[1] as int;
  }

  lemma U32RoundTrip(x: nat)
    requires x < Two32
    ensures ReadU32(U32(x)) == x
  {
    var b := U32(x);
    assert b[..2] == U16(x % Two16) && b[2..] == U16(x / Two16);
    U16RoundTrip(x % Two16);
    U16RoundTrip(x / Two16);
  }

  lemma ReadU32RoundTrip(b: seq<byte>)
    requires |b| == 4
    ensures U32(ReadU32(b)) == b
  {
    var lo, hi := ReadU16(b[..2]), ReadU16(b[2..]);
    var x := ReadU32(b);
    assert x % Two16 == lo && x / Two16 == hi;
    ReadU16RoundTrip(b[..2]);
    ReadU16RoundTrip(b[2..]);
    assert b == b[..2] + b[2..];
  }

  /** The bytes of an ASCII tag such as `b'RIFF'`. */
  function Ascii(s: string): (b: seq<byte>)
    requires forall i :: 0 <= i < |s| ==> s[i] as int < 128
    ensures |b| == |s|
  {
    seq(|s|, i requires 0 <= i < |s| => s[i] as int as byte)
  }

  /** `sample_rate * num_channels * bits_per_sample // 8`. */
  function ByteRate(sampleRate: nat, channels: nat, bitsPerSample: nat): nat {
    sampleRate * channels * bitsPerSample / 8
  }

  /** `num_channels * bits_per_sample // 8`. */
  function BlockAlign(channels: nat, bitsPerSample: nat): nat {
    channels * bitsPerSample / 8
  }

  /** What `struct.pack` needs to succeed: every field fits its width. */
  predicate Packable(dataSize: nat, sampleRate: nat, channels: nat, bitsPerSample: nat) {
    && 36 + dataSize < Two32
    && sampleRate < Two32
    && channels < Two16
    && bitsPerSample < Two16
    && ByteRate(sampleRate, channels, bitsPerSample) < Two32
    && BlockAlign(channels, bitsPerSample) < Two16
  }

  /** `create_wav_header`: the RIFF preamble, the `fmt ` chunk and the `data`
      chunk header, packed one after the other. */
  function CreateWavHeader(dataSize: nat, sampleRate: nat, channels: nat, bitsPerSample: nat): (header: seq<byte>)
    requires Packable(dataSize, sampleRate, channels, bitsPerSample)
    ensures |header| == 44
  {
    var riff := Ascii("RIFF") + U32(36 + dataSize) + Ascii("WAVE");
    var fmt := Ascii("fmt ") + U32(16) + U16(1) + U16(channels) + U32(sampleRate)
      + U32(ByteRate(sampleRate, channels, bitsPerSample))
      + U16(BlockAlign(channels, bitsPerSample)) + U16(bitsPerSample);
    var data := Ascii("data") + U32(dataSize);
    riff + fmt + data
  }

  /** The three parts have the sizes the format prescribes: a 12-byte preamble,
      a 24-byte `fmt ` chunk (8 bytes of chunk header and 16 of body) and an
      8-byte `data` chunk header. */
  lemma HeaderParts(dataSize: nat, sampleRate: nat, channels: nat, bitsPerSample: nat)
    requires Packable(dataSize, sampleRate, channels, bitsPerSample)
    ensures var h := CreateWavHeader(dataSize, sampleRate, channels, bitsPerSample);
      && h[..12] == Ascii("RIFF") + U32(36 + dataSize) + Ascii("WAVE")
      && h[12..36] == Ascii("fmt ") + U32(16) + U16(1) + U16(channels) + U32(sampleRate)
           + U32(ByteRate(sampleRate, channels, bitsPerSample))
           + U16(BlockAlign(channels, bitsPerSample)) + U16(bitsPerSample)
      && h[36..] == Ascii("data") + U32(dataSize)
  {
  }

  /** Each field of the header, read back at its offset. */
  lemma HeaderFields(dataSize: nat, sampleRate: nat, channels: nat, bitsPerSample: nat)
    requires Packable(dataSize, sampleRate, channels, bitsPerSample)
    ensures var h := CreateWavHeader(dataSize, sampleRate, channels, bitsPerSample);
      && h[0..4] == Ascii("RIFF")
      && ReadU32(h[4..8]) == 36 + dataSize
      && h[8..12] == Ascii("WAVE")
      && h[12..16] == Ascii("fmt ")
      && ReadU32(h[16..20]) == 16
      && ReadU16(h[20..22]) == 1
      && ReadU16(h[22..24]) == channels
      && ReadU32(h[24..28]) == sampleRate
      && ReadU32(h[28..32]) == ByteRate(sampleRate, channels, bitsPerSample)
      && ReadU16(h[32..34]) == BlockAlign(channels, bitsPerSample)
      && ReadU16(h[34..36]) == bitsPerSample
      && h[36..40] == Ascii("data")
      && ReadU32(h[40..44]) == dataSize
  {
    var h := CreateWavHeader(dataSize, sampleRate, channels, bitsPerSample);
    HeaderParts(dataSize, sampleRate, channels, bitsPerSample);
    assert h[4..8] == U32(36 + dataSize);
    assert h[16..20] == U32(16);
    assert h[20..22] == U16(1);
    assert h[22..24] == U16(channels);
    assert h[24..28] == U32(sampleRate);
    assert h[28..32] == U32(ByteRate(sampleRate, channels, bitsPerSample));
    assert h[32..34] == U16(BlockAlign(channels, bitsPerSample));
    assert h[34..36] == U16(bitsPerSample);
    assert h[40..44] == U32(dataSize);
    U32RoundTrip(36 + dataSize);
    U32RoundTrip(16);
    U16RoundTrip(1);
    U16RoundTrip(channels);
    U32RoundTrip(sampleRate);
    U32RoundTrip(ByteRate(sampleRate, channels, bitsPerSample));
    U16RoundTrip(BlockAlign(channels, bitsPerSample));
    U16RoundTrip(bitsPerSample);
    U32RoundTrip(dataSize);
  }

  /** With the default arguments (24 kHz, mono, 16-bit) the byte rate is 48000
      and the block alignment 2, and any data size below 2^32 - 36 can be packed. */
  lemma DefaultRates(dataSize: nat)
    ensures ByteRate(24000, 1, 16) == 48000 && BlockAlign(1, 16) == 2
    ensures Packable(dataSize, 24000, 1, 16) <==> 36 + dataSize < Two32
  {
  }

  /** The format a header describes. */
  datatype WavFormat = WavFormat(dataSize: nat, sampleRate: nat, channels: nat, bitsPerSample: nat)

  /** Reading a canonical 44-byte PCM header back: the tags must be in place,
      the chunk sizes and the format code fixed, and the derived fields
      consistent with the others. */
  function ParseWavHeader(h: seq<byte>): Option<WavFormat> {
    if |h| != 44 || h[0..4] != Ascii("RIFF") || h[8..12] != Ascii("WAVE")
       || h[12..16] != Ascii("fmt ") || h[36..40] != Ascii("data") then None
    else
      var f := WavFormat(ReadU32(h[40..44]), ReadU32(h[24..28]), ReadU16(h[22..24]), ReadU16(h[34..36]));
      if && ReadU32(h[4..8]) == 36 + f.dataSize
         && ReadU32(h[16..20]) == 16
         && ReadU16(h[20..22]) == 1
         && ReadU32(h[28..32]) == ByteRate(f.sampleRate, f.channels, f.bitsPerSample)
         && ReadU16(h[32..34]) == BlockAlign(f.channels, f.bitsPerSample)
      then Some(f)
      else None
  }

  /** Reading back a written header gives the arguments it was written with. */
  lemma ParseCreate(dataSize: nat, sampleRate: nat, channels: nat, bitsPerSample: nat)
    requires Packable(dataSize, sampleRate, channels, bitsPerSample)
    ensures ParseWavHeader(CreateWavHeader(dataSize, sampleRate, channels, bitsPerSample))
      == Some(WavFormat(dataSize, sampleRate, channels, bitsPerSample))
  {
    HeaderFields(dataSize, sampleRate, channels, bitsPerSample);
  }

  /** Conversely, every header that reads back is the one written for the format
      read, so the writer produces exactly the canonical headers. */
  lemma CreateParse(h: seq<byte>)
    requires ParseWavHeader(h).Some?
    ensures var f := ParseWavHeader(h).value;
      && Packable(f.dataSize, f.sampleRate, f.channels, f.bitsPerSample)
      && CreateWavHeader(f.dataSize, f.sampleRate, f.channels, f.bitsPerSample) == h
  {
    var f := ParseWavHeader(h).value;
    var g := CreateWavHeader(f.dataSize, f.sampleRate, f.channels, f.bitsPerSample);
    HeaderFields(f.dataSize, f.sampleRate, f.channels, f.bitsPerSample);
    SameFields(g, h);
  }

  /** Two 44-byte headers agreeing on every tag and field are equal. */
  lemma SameFields(g: seq<byte>, h: seq<byte>)
    requires |g| == 44 && |h| == 44
    requires g[0..4] == h[0..4] && g[8..12] == h[8..12] && g[12..16] == h[12..16] && g[36..40] == h[36..40]
    requires ReadU32(g[4..8]) == ReadU32(h[4..8]) && ReadU32(g[16..20]) == ReadU32(h[16..20])
    requires ReadU16(g[20..22]) == ReadU16(h[20..22]) && ReadU16(g[22..24]) == ReadU16(h[22..24])
    requires ReadU32(g[24..28]) == ReadU32(h[24..28]) && ReadU32(g[28..32]) == ReadU32(h[28..32])
    requires ReadU16(g[32..34]) == ReadU16(h[32..34]) && ReadU16(g[34..36]) == ReadU16(h[34..36])
    requires ReadU32(g[40..44]) == ReadU32(h[40..44])
    ensures g == h
  {
    ReadU32RoundTrip(g[4..8]); ReadU32RoundTrip(h[4..8]);
    ReadU32RoundTrip(g[16..20]); ReadU32RoundTrip(h[16..20]);
    ReadU16RoundTrip(g[20..22]); ReadU16RoundTrip(h[20..22]);
    ReadU16RoundTrip(g[22..24]); ReadU16RoundTrip(h[22..24]);
    ReadU32RoundTrip(g[24..28]); ReadU32RoundTrip(h[24..28]);
    ReadU32RoundTrip(g[28..32]); ReadU32RoundTrip(h[28..32]);
    ReadU16RoundTrip(g[32..34]); ReadU16RoundTrip(h[32..34]);
    ReadU16RoundTrip(g[34..36]); ReadU16RoundTrip(h[34..36]);
    ReadU32RoundTrip(g[40..44]); ReadU32RoundTrip(h[40..44]);
    forall i | 0 <= i < 44
      ensures g[i] == h[i]
    {
      if i < 4 { assert g[i] == g[0..4][i]; assert h[i] == h[0..4][i]; }
      else if i < 8 { assert g[i] == g[4..8][i - 4]; assert h[i] == h[4..8][i - 4]; }
      else if i < 12 { assert g[i] == g[8..12][i - 8]; assert h[i] == h[8..12][i - 8]; }
      else if i < 16 { assert g[i] == g[12..16][i - 12]; assert h[i] == h[12..16][i - 12]; }
      else if i < 20 { assert g[i] == g[16..20][i - 16]; assert h[i] == h[16..20][i - 16]; }
      else if i < 22 { assert g[i] == g[20..22][i - 20]; assert h[i] == h[20..22][i - 20]; }
      else if i < 24 { assert g[i] == g[22..24][i - 22]; assert h[i] == h[22..24][i - 22]; }
      else if i < 28 { assert g[i] == g[24..28][i - 24]; assert h[i] == h[24..28][i - 24]; }
      else if i < 32 { assert g[i] == g[28..32][i - 28]; assert h[i] == h[28..32][i - 28]; }
      else if i < 34 { assert g[i] == g[32..34][i - 32]; assert h[i] == h[32..34][i - 32]; }
      else if i < 36 { assert g[i] == g[34..36][i - 34]; assert h[i] == h[34..36][i - 34]; }
      else if i < 40 { assert g[i] == g[36..40][i - 36]; assert h[i] == h[36..40][i - 36]; }
      else { assert g[i] == g[40..44][i - 40]; assert h[i] == h[40..44][i - 40]; }
    }
  }
}
