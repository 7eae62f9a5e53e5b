/**
 * The silent placeholder that `/api/tts` and the batch write when no API key
 * is configured: half a second of 16-bit mono PCM silence at 16 kHz, as a
 * RIFF/WAVE file. The 44-byte header is written field by field into a
 * zero-filled buffer, little-endian, and the zero-filled sample data is
 * appended.
 */
module WavStub {

  newtype byte = x: int | 0 <= x < 256

  const SampleRate: nat := 16000
  /** `Math.floor(sampleRate * 0.5)`: half a second of samples. */
  const NumSamples: nat := 8000
  const BlockAlign: nat := 2
  const ByteRate: nat := SampleRate * 2
  /** `numSamples * 2`: the size of the zero-filled data buffer. */
  const DataLength: nat := NumSamples * 2
  const HeaderLength: nat := 44

  // ---------------------------------------------------------------------------
  // Little-endian fields

  /** The bytes `writeUInt16LE(x)` stores. */
  function U16LE(x: nat): (r: seq<byte>)
    requires x < 0x1_0000
    ensures |r| == 2
  {
    [(x % 256) as byte, (x / 256) as byte]
  }

  /** The bytes `writeUInt32LE(x)` stores. */
  function U32LE(x: nat): (r: seq<byte>)
    requires x < 0x1_0000_0000
    ensures |r| == 4
  {
    [(x % 256) as byte, (x / 256 % 256) as byte, (x / 0x1_0000 % 256) as byte, (x / 0x100_0000) as byte]
  }

  /** The unsigned 16-bit little-endian value at `off`. */
  function ReadU16(s: seq<byte>, off: nat): nat
    requires off + 2 <= |s|
  {
    s[off] as nat + 256 * s[off + 1] as nat
  }

  /** The unsigned 32-bit little-endian value at `off`. */
  function ReadU32(s: seq<byte>, off: nat): nat
    requires off + 4 <= |s|
  {
    s[off] as nat + 256 * s[off + 1] as nat + 0x1_0000 * s[off + 2] as nat + 0x100_0000 * s[off + 3] as nat
  }

  /** Reading back the two bytes written gives the value. */
  lemma U16RoundTrip(x: nat)
    requires x < 0x1_0000
    ensures ReadU16(U16LE(x), 0) == x
  {
  }

  /** Reading a written 32-bit field gives the value back. */
  lemma U32RoundTrip(x: nat)
    requires x < 0x1_0000_0000
    ensures ReadU32(U32LE(x), 0) == x
  {
    var a, b, c, d := x % 256, x / 256 % 256, x / 0x1_0000 % 256, x / 0x100_0000;
    assert x / 256 == b + 256 * (x / 0x1_0000);
    assert x / 0x1_0000 == c + 256 * d;
  }

  /** The bytes `write('RIFF')` stores. */
  const RiffTag: seq<byte> := [0x52, 0x49, 0x46, 0x46]
  /** The bytes `write('WAVEfmt ')` stores: the format tag and the `fmt ` sub-chunk tag. */
  const WaveFmtTag: seq<byte> := [0x57, 0x41, 0x56, 0x45, 0x66, 0x6D, 0x74, 0x20]
  /** The bytes `write('data')` stores. */
  const DataTag: seq<byte> := [0x64, 0x61, 0x74, 0x61]

  // ---------------------------------------------------------------------------
  // The header

  /** The RIFF chunk descriptor: the tag, the size of the rest of the file and the format tag. */
  function RiffPart(): (p: seq<byte>)
    ensures |p| == 16
  {
    RiffTag + U32LE(36 + DataLength) + WaveFmtTag
  }

  /** The `fmt ` sub-chunk body: its size, PCM, mono, the rates and the sample layout. */
  function FormatPart(): (p: seq<byte>)
    ensures |p| == 20
  {
    U32LE(16) + U16LE(1) + U16LE(1) + U32LE(SampleRate) + U32LE(ByteRate) + U16LE(BlockAlign) + U16LE(16)
  }

  /** The `data` sub-chunk header: the tag and the size of the samples. */
  function DataPart(): (p: seq<byte>)
    ensures |p| == 8
  {
    DataTag + U32LE(DataLength)
  }

  /** The 44 bytes of the header, field after field. */
  function Header(): (h: seq<byte>)
    ensures |h| == HeaderLength
  {
    RiffPart() + FormatPart() + DataPart()
  }

  /** `n` zero bytes, what `Buffer.alloc(n)` holds. */
  function Zeros(n: nat): (z: seq<byte>)
    ensures |z| == n && forall i :: 0 <= i < n ==> z[i] == 0
  {
    seq(n, _ => 0)
  }

  /**
   * Stores `bytes` right after the part `written` already written, in a
   * buffer whose remaining bytes are still zero.
   */
  method Put(buf: array<byte>, off: nat, bytes: seq<byte>, ghost written: seq<byte>)
    requires off == |written| && off + |bytes| <= buf.Length
    requires buf[..] == written + Zeros(buf.Length - |written|)
    modifies buf
    ensures buf[..] == (written + bytes) + Zeros(buf.Length - |written| - |bytes|)
  {
    var i := 0;
    while i < |bytes|
      invariant 0 <= i <= |bytes|
      invariant buf[..] == written + bytes[..i] + Zeros(buf.Length - off - i)
    {
      buf[off + i] := bytes[i];
      assert bytes[..i + 1] == bytes[..i] + [bytes[i]];
      i := i + 1;
    }
    assert bytes[..i] == bytes;
  }

  method WriteRiff(header: array<byte>)
    requires header.Length == HeaderLength && header[..] == Zeros(HeaderLength)
    modifies header
    ensures header[..] == RiffPart() + Zeros(HeaderLength - 16)
  {
    ghost var w: seq<byte> := [];
    assert header[..] == w + Zeros(HeaderLength);
    Put(header, 0, RiffTag, w);
    w := w + RiffTag;
    Put(header, 4, U32LE(36 + DataLength), w);
    w := w + U32LE(36 + DataLength);
    assert |w| == 8 && w + WaveFmtTag == RiffPart();
    Put(header, 8, WaveFmtTag, w);
  }

  method WriteFormat(header: array<byte>)
    requires header.Length == HeaderLength && header[..] == RiffPart() + Zeros(HeaderLength - 16)
    modifies header
    ensures header[..] == RiffPart() + FormatPart() + Zeros(HeaderLength - 36)
  {
    ghost var w := RiffPart();
    Put(header, 16, U32LE(16), w);
    w := w + U32LE(16);
    Put(header, 20, U16LE(1), w);
    w := w + U16LE(1);
    Put(header, 22, U16LE(1), w);
    w := w + U16LE(1);
    Put(header, 24, U32LE(SampleRate), w);
    w := w + U32LE(SampleRate);
    Put(header, 28, U32LE(ByteRate), w);
    w := w + U32LE(ByteRate);
    Put(header, 32, U16LE(BlockAlign), w);
    w := w + U16LE(BlockAlign);
    Put(header, 34, U16LE(16), w);
    w := w + U16LE(16);
    assert w == RiffPart() + FormatPart();
  }

  method WriteData(header: array<byte>)
    requires header.Length == HeaderLength && header[..] == RiffPart() + FormatPart() + Zeros(HeaderLength - 36)
    modifies header
    ensures header[..] == Header()
  {
    ghost var w := RiffPart() + FormatPart();
    Put(header, 36, DataTag, w);
    w := w + DataTag;
    Put(header, 40, U32LE(DataLength), w);
    w := w + U32LE(DataLength);
    assert w == Header();
    assert header[..] == w + Zeros(0);
  }

  /** `Buffer.alloc(44)` and the twelve writes into it, at offsets 0, 4, 8, ..., 40. */
  method WriteHeader() returns (header: array<byte>)
    ensures fresh(header)
    ensures header[..] == Header()
  {
    header := new byte[HeaderLength](_ => 0);
    assert header[..] == Zeros(HeaderLength);
    WriteRiff(header);
    WriteFormat(header);
    WriteData(header);
  }

  /** `Buffer.concat([header, data])` with the zero-filled data buffer. */
  method SilentStub() returns (file: seq<byte>)
    ensures file == Header() + seq(DataLength, _ => 0)
  {
    var header := WriteHeader();
    file := header[..] + seq(DataLength, _ => 0);
  }

  /**
   * The stub is a well-formed canonical WAVE file: the RIFF size counts
   * everything after the first 8 bytes, the data size counts everything
   * after the header, the byte rate is the sample rate times the block
   * size, the block size is the channels times the sample width, the data
   * plays for half a second and holds only silence.
   */
  lemma StubIsCanonicalWave()
    ensures var f := Header() + seq(DataLength, _ => 0);
      && |f| == 16044
      && f[..4] == RiffTag && f[8..16] == WaveFmtTag && f[36..40] == DataTag
      && ReadU32(f, 4) == |f| - 8
      && ReadU32(f, 16) == 16 && ReadU16(f, 20) == 1
      && ReadU16(f, 22) == 1 && ReadU32(f, 24) == 16000 && ReadU16(f, 34) == 16
      && ReadU32(f, 28) == ReadU32(f, 24) * ReadU16(f, 32)
      && ReadU16(f, 32) == ReadU16(f, 22) * ReadU16(f, 34) / 8
      && ReadU32(f, 40) == |f| - 44
      && 2 * ReadU32(f, 40) == ReadU32(f, 28)
      && forall i :: 44 <= i < |f| ==> f[i] == 0
  {
    var f := Header() + seq(DataLength, _ => 0);
    var h := Header();
    assert h[..4] == RiffTag;
    assert h[8..16] == WaveFmtTag;
    assert h[36..40] == DataTag;
    assert f[..44] == h;
  }
}
