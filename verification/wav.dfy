/** Reading the duration of synthesised speech from its WAV header (the canonical
    44-byte RIFF/WAVE layout: "RIFF" at 0, "WAVE" at 8, sample rate at 24, byte
    rate at 28, data size at 40, each a little-endian 32-bit unsigned integer), and
    the error mapping of the speech service. */
module Wav {
  import opened Wrappers

  type Byte = x: int | 0 <= x < 256

  const HeaderSize: nat := 44
  const Riff: seq<Byte> := [0x52, 0x49, 0x46, 0x46]
  const Wave: seq<Byte> := [0x57, 0x41, 0x56, 0x45]

  /** `readUInt32LE(offset)`. */
  function ReadU32LE(buf: seq<Byte>, offset: nat): (r: nat)
    requires offset + 4 <= |buf|
    ensures r < 0x1_0000_0000
  {
    buf[offset] as int + 0x100 * buf[offset + 1] as int + 0x1_0000 * buf[offset + 2] as int + 0x100_0000 * buf[offset + 3] as int
  }

  /** The four little-endian bytes of `v`. */
  function U32LE(v: nat): (r: seq<Byte>)
    requires v < 0x1_0000_0000
    ensures |r| == 4
  {
    var q1 := v / 0x100;
    var q2 := q1 / 0x100;
    [v % 0x100, q1 % 0x100, q2 % 0x100, q2 / 0x100]
  }

  lemma ReadU32LERoundTrip(v: nat)
    requires v < 0x1_0000_0000
    ensures ReadU32LE(U32LE(v), 0) == v
  {
    var q1 := v / 0x100;
    var q2 := q1 / 0x100;
    assert v == v % 0x100 + 0x100 * q1;
    assert q1 == q1 % 0x100 + 0x100 * q2;
    assert q2 == q2 % 0x100 + 0x100 * (q2 / 0x100);
  }

  /** `toString("ascii", from, from + |r|)`: Node clears the high bit of every byte
      before mapping it to a character. */
  function AsciiDecode(buf: seq<Byte>): (r: string)
    ensures |r| == |buf|
    ensures forall k :: 0 <= k < |buf| ==> r[k] as int == buf[k] % 0x80
  {
    seq(|buf|, k requires 0 <= k < |buf| => (buf[k] % 0x80) as char)
  }

  /** `Number((dataSize / byteRate).toFixed(2))` in hundredths of a second: the
      exact quotient rounded half up. */
  function Hundredths(dataSize: nat, byteRate: nat): (r: nat)
    requires byteRate > 0
    ensures 2 * byteRate * r <= 200 * dataSize + byteRate < 2 * byteRate * (r + 1)
  {
    (200 * dataSize + byteRate) / (2 * byteRate)
  }

  /** The header as `getWavDurationSeconds` checks it: magic compared after the
      ASCII decoding, so a byte is matched only on its low seven bits. */
  function DurationAsWritten(buf: seq<Byte>): (r: Option<nat>)
    ensures |buf| < HeaderSize ==> r.None?
    ensures |buf| >= HeaderSize && (AsciiDecode(buf[0..4]) != "RIFF" || AsciiDecode(buf[8..12]) != "WAVE") ==> r.None?
    ensures |buf| >= HeaderSize && AsciiDecode(buf[0..4]) == "RIFF" && AsciiDecode(buf[8..12]) == "WAVE" ==>
              r == FieldsDuration(buf)
  {
    if |buf| < HeaderSize then None
    else if AsciiDecode(buf[0..4]) != "RIFF" || AsciiDecode(buf[8..12]) != "WAVE" then None
    else FieldsDuration(buf)
  }

  /** The duration once the magic has been accepted: no duration when a rate or the
      size is zero. */
  function FieldsDuration(buf: seq<Byte>): (r: Option<nat>)
    requires |buf| >= HeaderSize
    ensures r.None? <==> ReadU32LE(buf, 24) == 0 || ReadU32LE(buf, 28) == 0 || ReadU32LE(buf, 40) == 0
    ensures r.Some? ==> r.value == Hundredths(ReadU32LE(buf, 40), ReadU32LE(buf, 28))
  {
    var sampleRate := ReadU32LE(buf, 24);
    var byteRate := ReadU32LE(buf, 28);
    var dataSize := ReadU32LE(buf, 40);
    if sampleRate == 0 || byteRate == 0 || dataSize == 0 then None
    else Some(Hundredths(dataSize, byteRate))
  }

  /** Any header the corrected check accepts is still accepted by the as-written
      check, with the same duration, after its first byte 'R' (0x52) is replaced by
      0xD2, which the corrected check refuses. */
  lemma HighBitAccepted(buf: seq<Byte>)
    requires Duration(buf).Some?
    ensures DurationAsWritten([0xD2] + buf[1..]) == Duration(buf)
    ensures Duration([0xD2] + buf[1..]).None?
  {
    var bad: seq<Byte> := [0xD2] + buf[1..];
    DurationWithinAsWritten(buf);
    assert buf[0] == buf[0..4][0] == 0x52;
    assert forall k :: 0 <= k < 4 ==> bad[0..4][k] % 0x80 == buf[0..4][k] % 0x80;
    assert AsciiDecode(bad[0..4]) == AsciiDecode(buf[0..4]);
    assert bad[8..12] == buf[8..12];
    SameFields(buf, bad);
    assert bad[0..4] != Riff;
  }

  lemma SameFields(a: seq<Byte>, b: seq<Byte>)
    requires |a| == |b| >= HeaderSize && a[1..] == b[1..]
    ensures FieldsDuration(a) == FieldsDuration(b)
  {
    assert forall k :: 1 <= k < |a| ==> a[k] == a[1..][k - 1] == b[k];
  }

  /** One concrete case: a 44-byte header of one-byte fields starting 0xD2. */
  lemma HighBitExample()
    ensures var buf := [0xD2] + Header(1, 1, 1)[1..];
            DurationAsWritten(buf) == Some(100) && Duration(buf).None?
  {
    HeaderDuration(1, 1, 1, []);
    assert Header(1, 1, 1) + [] == Header(1, 1, 1);
    HighBitAccepted(Header(1, 1, 1));
  }

  /** `getWavDurationSeconds` as the canonical layout intends it: the magic bytes
      must be exactly "RIFF" and "WAVE". */
  function Duration(buf: seq<Byte>): (r: Option<nat>)
    ensures |buf| < HeaderSize ==> r.None?
    ensures |buf| >= HeaderSize && (buf[0..4] != Riff || buf[8..12] != Wave) ==> r.None?
    ensures r.Some? ==> |buf| >= HeaderSize && buf[0..4] == Riff && buf[8..12] == Wave
                        && ReadU32LE(buf, 24) > 0 && ReadU32LE(buf, 28) > 0 && ReadU32LE(buf, 40) > 0
                        && r.value == Hundredths(ReadU32LE(buf, 40), ReadU32LE(buf, 28))
  {
    if |buf| < HeaderSize then None
    else if buf[0..4] != Riff || buf[8..12] != Wave then None
    else FieldsDuration(buf)
  }

  /** The corrected check accepts no more than the as-written one. */
  lemma DurationWithinAsWritten(buf: seq<Byte>)
    requires Duration(buf).Some?
    ensures DurationAsWritten(buf) == Duration(buf)
  {
    assert AsciiDecode(buf[0..4]) == "RIFF";
    assert AsciiDecode(buf[8..12]) == "WAVE";
  }

  /** A canonical 44-byte header: PCM format block and the three fields read back. */
  function Header(sampleRate: nat, byteRate: nat, dataSize: nat): (h: seq<Byte>)
    requires sampleRate < 0x1_0000_0000 && byteRate < 0x1_0000_0000 && dataSize < 0x1_0000_0000
    ensures |h| == HeaderSize
    ensures h[0..4] == Riff && h[8..12] == Wave
    ensures h[24..28] == U32LE(sampleRate) && h[28..32] == U32LE(byteRate) && h[40..44] == U32LE(dataSize)
  {
    var riffSize := U32LE((dataSize + 36) % 0x1_0000_0000);
    var fmt: seq<Byte> := [0x66, 0x6D, 0x74, 0x20, 16, 0, 0, 0, 1, 0, 1, 0];
    var block: seq<Byte> := [2, 0, 16, 0];
    var data: seq<Byte> := [0x64, 0x61, 0x74, 0x61];
    Riff + riffSize + Wave + fmt + U32LE(sampleRate) + U32LE(byteRate) + block + data + U32LE(dataSize)
  }

  /** The fields written into a header are the ones read back: the duration of any
      canonical header with non-zero fields is data size over byte rate. */
  lemma HeaderDuration(sampleRate: nat, byteRate: nat, dataSize: nat, samples: seq<Byte>)
    requires 0 < sampleRate < 0x1_0000_0000 && 0 < byteRate < 0x1_0000_0000 && 0 < dataSize < 0x1_0000_0000
    ensures Duration(Header(sampleRate, byteRate, dataSize) + samples) == Some(Hundredths(dataSize, byteRate))
  {
    var h := Header(sampleRate, byteRate, dataSize);
    var buf := h + samples;
    assert buf[..HeaderSize] == h;
    assert buf[0..4] == h[0..4] && buf[8..12] == h[8..12];
    assert buf[24..28] == h[24..28] && buf[28..32] == h[28..32] && buf[40..44] == h[40..44];
    ReadU32LERoundTrip(sampleRate);
    ReadU32LERoundTrip(byteRate);
    ReadU32LERoundTrip(dataSize);
    ReadAt(buf, 24);
    ReadAt(buf, 28);
    ReadAt(buf, 40);
  }

  lemma ReadAt(buf: seq<Byte>, offset: nat)
    requires offset + 4 <= |buf|
    ensures ReadU32LE(buf, offset) == ReadU32LE(buf[offset..offset + 4], 0)
  {
  }

  /** One second of 8 kHz, 8-bit mono audio lasts 1.00 s. */
  lemma OneSecond(samples: seq<Byte>)
    ensures Duration(Header(8000, 8000, 8000) + samples) == Some(100)
  {
    HeaderDuration(8000, 8000, 8000, samples);
  }

  /** What `mapTtsError` is given: a service error, a speech error, another
      `Error` with its message, or a thrown non-`Error` value. */
  datatype Thrown = ServiceError(message: string) | TtsError(message: string) | OtherError(message: string) | NotAnError

  /** `mapTtsError`. */
  function MapTtsError(e: Thrown): (r: Thrown)
    ensures e.ServiceError? || e.TtsError? ==> r == e
    ensures e.OtherError? ==> r == TtsError(e.message)
    ensures e.NotAnError? ==> r == TtsError("Failed to synthesize TTS")
    ensures r.ServiceError? || r.TtsError?
  {
    match e
    case ServiceError(_) => e
    case TtsError(_) => e
    case OtherError(m) => TtsError(m)
    case NotAnError => TtsError("Failed to synthesize TTS")
  }

  /** Mapping twice is mapping once. */
  lemma MapTtsErrorIdempotent(e: Thrown)
    ensures MapTtsError(MapTtsError(e)) == MapTtsError(e)
  {
  }
}
