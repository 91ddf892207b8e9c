/**
 * Shared value types of the ED247 library: bytes, fixed-width integers,
 * the status and enumeration codes of the public C header, timestamps and
 * the per-frame sample details, plus the big-endian byte codecs every
 * wire format of the library is built from.
 */
module Types {

  type Byte = x: int | 0 <= x < 256
  type U16 = x: int | 0 <= x < 0x1_0000
  type U32 = x: int | 0 <= x < 0x1_0000_0000

  /** A value that may be absent: a null pointer, an unset variable, a failed lookup. */
  datatype Option<T> = None | Some(value: T)

  /** Status codes of the C API (`ed247_status_t`). */
  datatype Status = Success | Failure | Timeout | NoData

  function StatusCode(s: Status): (code: int)
    ensures 0 <= code < 4
  {
    match s
    case Success => 0
    case Failure => 1
    case Timeout => 2
    case NoData => 3
  }

  // Directions are a two-bit mask: IN = 0b01, OUT = 0b10, INOUT = IN | OUT.
  type Direction = x: int | 0 <= x < 4
  const DIR_INVALID: Direction := 0
  const DIR_IN: Direction := 1
  const DIR_OUT: Direction := 2
  const DIR_INOUT: Direction := 3

  /** Bitwise OR of two direction masks. */
  function DirOr(a: Direction, b: Direction): (r: Direction)
    ensures r % 2 == (if a % 2 == 1 || b % 2 == 1 then 1 else 0)
    ensures r / 2 == (if a / 2 == 1 || b / 2 == 1 then 1 else 0)
  {
    (if a % 2 == 1 || b % 2 == 1 then 1 else 0) + 2 * (if a / 2 == 1 || b / 2 == 1 then 1 else 0)
  }

  /** True when the mask has the IN bit. */
  predicate HasIn(d: Direction) { d % 2 == 1 }
  /** True when the mask has the OUT bit. */
  predicate HasOut(d: Direction) { d / 2 == 1 }

  // Yes/no codes.
  const YESNO_NO := 0
  const YESNO_YES := 1
  const YESNO_INVALID := 2

  // Standard revisions.
  const STANDARD_INVALID := 0
  const STANDARD_ED247 := 1
  const STANDARD_ED247A := 2
  const STANDARD_COUNT := 3

  // Component types.
  const COMPONENT_INVALID := 0
  const COMPONENT_VIRTUAL := 1
  const COMPONENT_BRIDGE := 2
  const COMPONENT_COUNT := 3

  // Stream types.
  const STREAM_INVALID := 0
  const STREAM_A664 := 1
  const STREAM_A429 := 2
  const STREAM_A825 := 3
  const STREAM_M1553 := 4
  const STREAM_SERIAL := 5
  const STREAM_AUDIO := 6
  const STREAM_VIDEO := 7
  const STREAM_ETHERNET := 8
  const STREAM_ANALOG := 9
  const STREAM_DISCRETE := 10
  const STREAM_NAD := 11
  const STREAM_VNAD := 12
  const STREAM_COUNT := 13

  // Signal types share the codes of the matching stream types.
  const SIGNAL_INVALID := 0
  const SIGNAL_ANALOG := STREAM_ANALOG
  const SIGNAL_DISCRETE := STREAM_DISCRETE
  const SIGNAL_NAD := STREAM_NAD
  const SIGNAL_VNAD := STREAM_VNAD

  // NAD element types.
  const NAD_INVALID := 0
  const NAD_INT8 := 1
  const NAD_INT16 := 2
  const NAD_INT32 := 3
  const NAD_INT64 := 4
  const NAD_UINT8 := 5
  const NAD_UINT16 := 6
  const NAD_UINT32 := 7
  const NAD_UINT64 := 8
  const NAD_FLOAT32 := 9
  const NAD_FLOAT64 := 10
  const NAD_COUNT := 11

  // Log levels.
  const LOG_MIN := 0
  const LOG_ERROR := 0
  const LOG_WARNING := 1
  const LOG_DEFAULT := 1
  const LOG_INFO := 2
  const LOG_DEBUG := 3
  const LOG_CRAZY := 99
  const LOG_MAX := 99
  const LOG_UNSET := 100

  /** `ed247_timestamp_t`: seconds since the epoch and a nanosecond offset. */
  datatype Timestamp = Timestamp(epochS: U32, offsetNs: U32)

  const DEFAULT_TIMESTAMP := Timestamp(0, 0)

  /** `ed247_sample_details_t`: what the frame header said about a received sample. */
  datatype SampleDetails = SampleDetails(componentId: U16, sequenceNumber: U16, transportTimestamp: Timestamp)

  const DEFAULT_DETAILS := SampleDetails(0, 0, DEFAULT_TIMESTAMP)

  /** Big-endian (network order) bytes of a 16-bit value, as `htons` lays it out. */
  function BE16(v: U16): (r: seq<Byte>)
    ensures |r| == 2
  {
    [v / 256, v % 256]
  }

  /** The 16-bit value of two big-endian bytes, as `ntohs` reads it. */
  function ReadBE16(s: seq<Byte>, i: nat): (v: U16)
    requires i + 2 <= |s|
    ensures v / 256 == s[i] && v % 256 == s[i + 1]
  {
    (s[i] as int) * 256 + s[i + 1] as int
  }

  /** Big-endian bytes of a 32-bit value (`htonl`): high half first. */
  function BE32(v: U32): (r: seq<Byte>)
    ensures |r| == 4
  {
    BE16(v / 0x1_0000) + BE16(v % 0x1_0000)
  }

  /** The 32-bit value of four big-endian bytes (`ntohl`). */
  function ReadBE32(s: seq<Byte>, i: nat): (v: U32)
    requires i + 4 <= |s|
    ensures v / 0x1_0000 == ReadBE16(s, i) && v % 0x1_0000 == ReadBE16(s, i + 2)
  {
    ReadBE16(s, i) * 0x1_0000 + ReadBE16(s, i + 2)
  }

  lemma ReadBE16Inverse(v: U16, s: seq<Byte>, i: nat)
    requires i + 2 <= |s| && s[i..i + 2] == BE16(v)
    ensures ReadBE16(s, i) == v
  {
    assert s[i] == BE16(v)[0] && s[i + 1] == BE16(v)[1];
  }

  lemma ReadBE32Inverse(v: U32, s: seq<Byte>, i: nat)
    requires i + 4 <= |s| && s[i..i + 4] == BE32(v)
    ensures ReadBE32(s, i) == v
  {
    assert s[i..i + 4][..2] == s[i..i + 2];
    assert s[i..i + 4][2..] == s[i + 2..i + 4];
    ReadBE16Inverse(v / 0x1_0000, s, i);
    ReadBE16Inverse(v % 0x1_0000, s, i + 2);
  }

  /**
   * Host-order bytes of a 16-bit value, the layout of a plain `uint16_t`
   * store. The model takes the host to be little-endian (x86, ARM).
   */
  function LE16(v: U16): (r: seq<Byte>)
    ensures |r| == 2
  {
    [v % 256, v / 256]
  }

  /** The 16-bit value of two host-order bytes. */
  function ReadLE16(s: seq<Byte>, i: nat): (v: U16)
    requires i + 2 <= |s|
    ensures v % 256 == s[i] && v / 256 == s[i + 1]
  {
    (s[i + 1] as int) * 256 + s[i] as int
  }

  lemma ReadLE16Inverse(v: U16, s: seq<Byte>, i: nat)
    requires i + 2 <= |s| && s[i..i + 2] == LE16(v)
    ensures ReadLE16(s, i) == v
  {
    assert s[i] == LE16(v)[0] && s[i + 1] == LE16(v)[1];
  }
}
