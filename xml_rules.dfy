/**
 * Sizing and validation rules of the configuration loader (ed247_xml.cpp).
 * The XML parsing itself is not modelled: a loaded signal, stream or
 * channel is a plain record, and each rule the loader applies to those
 * records is a function or a method over them.
 */
module XmlRules {
  import opened Types
  import Conversions

  const WRAP32 := 0x1_0000_0000

  /** What a load step gives: the loaded value, or `Refused` where the loader throws. */
  datatype Outcome<T> = Refused | Kept(value: T)

  /** `get_nad_type_size`: the size in bytes of one NAD element, 0 for an invalid type. */
  function NadTypeSize(nadType: int): (r: nat)
    ensures r in {0, 1, 2, 4, 8}
    ensures r == 0 <==> !(NAD_INT8 <= nadType <= NAD_FLOAT64)
    ensures r == 1 <==> nadType == NAD_INT8 || nadType == NAD_UINT8
    ensures r == 2 <==> nadType == NAD_INT16 || nadType == NAD_UINT16
    ensures r == 4 <==> nadType == NAD_INT32 || nadType == NAD_UINT32 || nadType == NAD_FLOAT32
    ensures r == 8 <==> nadType == NAD_INT64 || nadType == NAD_UINT64 || nadType == NAD_FLOAT64
  {
    if nadType == NAD_INT8 || nadType == NAD_UINT8 then 1
    else if nadType == NAD_INT16 || nadType == NAD_UINT16 then 2
    else if nadType == NAD_INT32 || nadType == NAD_UINT32 || nadType == NAD_FLOAT32 then 4
    else if nadType == NAD_INT64 || nadType == NAD_UINT64 || nadType == NAD_FLOAT64 then 8
    else 0
  }

  // ---------------------------------------------------------------------
  // Signals and their sizes
  // ---------------------------------------------------------------------

  /**
   * `xml::Signal` as loaded: its type, byte offset (DIS, ANA and NAD),
   * element type and dimensions (NAD and VNAD), VNAD position and
   * VNAD maximum element count.
   */
  datatype SignalConfig = SignalConfig(
    name: string,
    signalType: int,
    byteOffset: U32,
    nadType: int,
    dimensions: seq<U32>,
    vnadPosition: U32,
    vnadMaxNumber: U32)

  /** A signal as the constructor leaves it before its attributes are read: one dimension of 1. */
  function NewSignal(signalType: int): (s: SignalConfig)
    ensures s.signalType == signalType && s.dimensions == [1]
    ensures s.byteOffset == 0 && s.nadType == NAD_INVALID && s.vnadPosition == 0 && s.vnadMaxNumber == 0
  {
    SignalConfig("", signalType, 0, NAD_INVALID, [1], 0, 0)
  }

  /** The number of elements of a NAD signal, in unbounded arithmetic. */
  function Elements(dims: seq<U32>): nat
  {
    if dims == [] then 1 else Elements(dims[..|dims| - 1]) * dims[|dims| - 1]
  }

  lemma MulMod(a: nat, b: nat)
    ensures ((a % WRAP32) * b) % WRAP32 == (a * b) % WRAP32
  {
    var q := a / WRAP32;
    var r := a % WRAP32;
    assert a == q * WRAP32 + r;
    assert a * b == (q * b) * WRAP32 + r * b;
  }

  /**
   * The product loop of `get_sample_max_size_bytes`: one dimension after
   * the other, in 32-bit unsigned arithmetic. It is the true element
   * count reduced modulo 2^32.
   */
  function WrappedProduct(dims: seq<U32>): (p: U32)
    ensures p == Elements(dims) % WRAP32
  {
    if dims == [] then 1
    else
      var init := dims[..|dims| - 1];
      MulMod(Elements(init), dims[|dims| - 1]);
      (WrappedProduct(init) * dims[|dims| - 1]) % WRAP32
  }

  /**
   * `get_sample_max_size_bytes`: 1 for a discrete signal, 4 for an analog
   * one, the element count times the element size for NAD and the
   * element size times the maximum count for VNAD, all in 32-bit
   * arithmetic; 0 for any other type.
   */
  function SampleMaxSize(s: SignalConfig): (r: U32)
    ensures s.signalType == SIGNAL_DISCRETE ==> r == 1
    ensures s.signalType == SIGNAL_ANALOG ==> r == 4
    ensures s.signalType == SIGNAL_NAD ==> r == (Elements(s.dimensions) * NadTypeSize(s.nadType)) % WRAP32
    ensures s.signalType == SIGNAL_VNAD ==> r == (NadTypeSize(s.nadType) * s.vnadMaxNumber) % WRAP32
    ensures s.signalType !in {SIGNAL_DISCRETE, SIGNAL_ANALOG, SIGNAL_NAD, SIGNAL_VNAD} ==> r == 0
  {
    if s.signalType == SIGNAL_DISCRETE then 1
    else if s.signalType == SIGNAL_ANALOG then 4
    else if s.signalType == SIGNAL_NAD then
      MulMod(Elements(s.dimensions), NadTypeSize(s.nadType));
      (WrappedProduct(s.dimensions) * NadTypeSize(s.nadType)) % WRAP32
    else if s.signalType == SIGNAL_VNAD then (NadTypeSize(s.nadType) * s.vnadMaxNumber) % WRAP32
    else 0
  }

  /** A NAD signal whose byte count fits 32 bits has exactly its element count times its element size. */
  lemma NadSizeExact(s: SignalConfig)
    requires s.signalType == SIGNAL_NAD && Elements(s.dimensions) * NadTypeSize(s.nadType) < WRAP32
    ensures SampleMaxSize(s) == Elements(s.dimensions) * NadTypeSize(s.nadType)
  {
  }

  /** A NAD signal left with its default dimensions is one element. */
  lemma DefaultNadIsOneElement(nadType: int)
    ensures SampleMaxSize(NewSignal(SIGNAL_NAD).(nadType := nadType)) == NadTypeSize(nadType)
  {
    assert [1][..0] == [];
  }

  // ---------------------------------------------------------------------
  // The NAD Dimensions attribute
  // ---------------------------------------------------------------------

  predicate IsSeparator(c: char) { c == 'x' || c == 'X' }

  predicate IsDigit(c: char) { '0' <= c <= '9' }

  /** The text between separators, in order: a text with n separators has n + 1 pieces. */
  function Pieces(text: string): (p: seq<string>)
    ensures |p| >= 1
  {
    if text == [] then [[]]
    else if IsSeparator(text[0]) then [[]] + Pieces(text[1..])
    else
      var rest := Pieces(text[1..]);
      [[text[0]] + rest[0]] + rest[1..]
  }

  /** The number of separators in `text`. */
  function Separators(text: string): nat
  {
    if text == [] then 0 else (if IsSeparator(text[0]) then 1 else 0) + Separators(text[1..])
  }

  /** The pieces joined again with a lower-case separator. */
  function Joined(pieces: seq<string>): string
  {
    if pieces == [] then [] else if |pieces| == 1 then pieces[0] else pieces[0] + "x" + Joined(pieces[1..])
  }

  /** `text` with every upper-case separator written lower-case. */
  function LowerSeparators(text: string): (r: string)
    ensures |r| == |text|
  {
    if text == [] then [] else [if text[0] == 'X' then 'x' else text[0]] + LowerSeparators(text[1..])
  }

  /** A text with n separators has n + 1 pieces. */
  lemma {:induction false} PiecesCount(text: string)
    ensures |Pieces(text)| == Separators(text) + 1
  {
    if text != [] {
      PiecesCount(text[1..]);
    }
  }

  /** No piece holds a separator. */
  lemma {:induction false} PiecesClean(text: string)
    ensures forall i, j | 0 <= i < |Pieces(text)| && 0 <= j < |Pieces(text)[i]| :: !IsSeparator(Pieces(text)[i][j])
  {
    if text != [] {
      PiecesClean(text[1..]);
      var rest := Pieces(text[1..]);
      var p := Pieces(text);
      if IsSeparator(text[0]) {
        assert p == [[]] + rest;
        forall i, j | 0 <= i < |p| && 0 <= j < |p[i]| ensures !IsSeparator(p[i][j]) {
          assert p[i] == rest[i - 1];
        }
      } else {
        forall i, j | 0 <= i < |p| && 0 <= j < |p[i]| ensures !IsSeparator(p[i][j]) {
          if i == 0 && j > 0 {
            assert p[0][j] == rest[0][j - 1];
          } else if i > 0 {
            assert p[i] == rest[i];
          }
        }
      }
    }
  }

  /** Joining the pieces gives the text back, every separator written lower-case. */
  lemma {:induction false} PiecesRejoin(text: string)
    ensures Joined(Pieces(text)) == LowerSeparators(text)
  {
    if text != [] {
      PiecesRejoin(text[1..]);
      var rest := Pieces(text[1..]);
      var p := Pieces(text);
      if IsSeparator(text[0]) {
        assert p[1..] == rest;
      } else if |rest| == 1 {
        assert Joined(p) == [text[0]] + Joined(rest);
      } else {
        assert p[1..] == rest[1..];
        assert Joined(p) == ([text[0]] + rest[0]) + "x" + Joined(rest[1..]);
      }
    }
  }

  /** The index of the first separator of `text`, or |text| when it has none (`find_first_of("xX")`). */
  function FirstSeparator(text: string): (pos: nat)
    ensures pos <= |text|
    ensures pos < |text| ==> IsSeparator(text[pos])
    ensures forall i | 0 <= i < pos :: !IsSeparator(text[i])
  {
    if text == [] then 0 else if IsSeparator(text[0]) then 0 else 1 + FirstSeparator(text[1..])
  }

  /** The first piece ends at the first separator, and the others are the pieces of what follows it. */
  lemma {:induction false} PiecesAtSeparator(text: string)
    ensures FirstSeparator(text) < |text| ==>
      Pieces(text) == [text[..FirstSeparator(text)]] + Pieces(text[FirstSeparator(text) + 1..])
    ensures FirstSeparator(text) == |text| ==> Pieces(text) == [text]
  {
    if text != [] && !IsSeparator(text[0]) {
      PiecesAtSeparator(text[1..]);
      var pos := FirstSeparator(text[1..]);
      assert text[1..][..pos] == text[1..pos + 1];
      assert [text[0]] + text[1..pos + 1] == text[..pos + 1];
      if pos < |text[1..]| {
        assert text[1..][pos + 1..] == text[pos + 2..];
      } else {
        assert [text[0]] + text[1..] == text;
      }
    }
  }

  /** The value of a string of decimal digits. */
  function DigitsValue(digits: string): nat
  {
    if digits == [] then 0
    else
      var last := digits[|digits| - 1];
      10 * DigitsValue(digits[..|digits| - 1]) + (if IsDigit(last) then last as int - '0' as int else 0)
  }

  /** The number of decimal digits `text` starts with. */
  function LeadingDigits(text: string): (n: nat)
    ensures n <= |text|
    ensures forall i | 0 <= i < n :: IsDigit(text[i])
    ensures n < |text| ==> !IsDigit(text[n])
  {
    if text != [] && IsDigit(text[0]) then 1 + LeadingDigits(text[1..]) else 0
  }

  /**
   * `iss >> dimension` on a 32-bit unsigned that holds `prev`: an empty
   * piece fails before reading and leaves `prev`; otherwise the value of
   * the leading digits, the largest 32-bit value when it does not fit, and
   * 0 when the piece does not start with a digit.
   */
  function ReadU32(text: string, prev: U32): (v: U32)
    ensures text == [] ==> v == prev
    ensures text != [] && LeadingDigits(text) == 0 ==> v == 0
    ensures text != [] && DigitsValue(text[..LeadingDigits(text)]) < WRAP32 ==> v == DigitsValue(text[..LeadingDigits(text)])
    ensures text != [] && DigitsValue(text[..LeadingDigits(text)]) >= WRAP32 ==> v == WRAP32 - 1
  {
    if text == [] then prev
    else
      var value := DigitsValue(text[..LeadingDigits(text)]);
      if value < WRAP32 then value else WRAP32 - 1
  }

  /** What `dimension` holds after `dims` were read from a start of `first`. */
  function LastRead(dims: seq<U32>, first: U32): U32
  {
    if dims == [] then first else dims[|dims| - 1]
  }

  /**
   * Every piece read in order into the one `dimension` variable, which
   * starts as `first`: each reading sees the value the previous one left.
   */
  function Readings(pieces: seq<string>, first: U32): (dims: seq<U32>)
    ensures |dims| == |pieces|
    ensures pieces != [] ==> dims[0] == ReadU32(pieces[0], first)
    ensures forall i | 0 < i < |dims| :: dims[i] == ReadU32(pieces[i], dims[i - 1])
  {
    if pieces == [] then []
    else
      var init := Readings(pieces[..|pieces| - 1], first);
      init + [ReadU32(pieces[|pieces| - 1], LastRead(init, first))]
  }

  /** The dimensions a `Dimensions` text gives: one per piece, in order. */
  function Dimensions(text: string, first: U32): seq<U32>
  {
    Readings(Pieces(text), first)
  }

  lemma PiecesOfExample()
    ensures Pieces("10x20") == ["10", "20"]
  {
    assert FirstSeparator("x20") == 0;
    assert FirstSeparator("0x20") == 1;
    assert FirstSeparator("10x20") == 2;
    PiecesAtSeparator("10x20");
    assert "10x20"[..2] == "10" && "10x20"[3..] == "20";
    assert FirstSeparator("") == 0;
    assert FirstSeparator("0") == 1;
    assert FirstSeparator("20") == 2;
    PiecesAtSeparator("20");
  }

  lemma ReadTwoDigits(d: char, prev: U32)
    requires IsDigit(d)
    ensures ReadU32([d, '0'], prev) == 10 * (d as int - '0' as int)
  {
    var t := [d, '0'];
    assert LeadingDigits([]) == 0 && LeadingDigits(['0']) == 1 && LeadingDigits(t) == 2;
    assert t[..2] == t && t[..1] == [d] && [d][..0] == [];
    assert DigitsValue([d]) == d as int - '0' as int;
    assert DigitsValue(t) == 10 * DigitsValue([d]);
  }

  /** "10x20" is two dimensions, 10 then 20, whatever `dimension` held before. */
  lemma TwoDimensions(first: U32)
    ensures Dimensions("10x20", first) == [10, 20]
  {
    PiecesOfExample();
    ReadTwoDigits('1', first);
    ReadTwoDigits('2', 10);
    assert "10" == ['1', '0'] && "20" == ['2', '0'];
    var p := Pieces("10x20");
    var d := Readings(p, first);
    assert p[0] == ['1', '0'] && p[1] == ['2', '0'];
    assert d[0] == 10 && d[1] == 20;
  }

  lemma PiecesOfTrailing()
    ensures Pieces("10x") == ["10", ""]
  {
    assert FirstSeparator("x") == 0;
    assert FirstSeparator("0x") == 1;
    assert FirstSeparator("10x") == 2;
    PiecesAtSeparator("10x");
    assert "10x"[..2] == "10" && "10x"[3..] == "";
  }

  /** A trailing separator leaves an empty last piece, which repeats the dimension before it. */
  lemma TrailingSeparatorRepeats(first: U32)
    ensures Dimensions("10x", first) == [10, 10]
  {
    PiecesOfTrailing();
    ReadTwoDigits('1', first);
    assert "10" == ['1', '0'];
    var p := Pieces("10x");
    var d := Readings(p, first);
    assert p[0] == ['1', '0'] && p[1] == [];
    assert d[0] == 10 && d[1] == 10;
  }

  /** One turn of the splitting loop: the piece before the first separator joins those already read. */
  lemma SplitStep(text: string, done: seq<string>, testee: string, first: U32)
    requires Pieces(text) == done + Pieces(testee)
    ensures var pos := FirstSeparator(testee);
      pos < |testee| ==> Pieces(text) == (done + [testee[..pos]]) + Pieces(testee[pos + 1..])
    ensures forall x ::
      Readings(done + [x], first) == Readings(done, first) + [ReadU32(x, LastRead(Readings(done, first), first))]
    ensures FirstSeparator(testee) == |testee| ==> Pieces(text) == done + [testee]
  {
    PiecesAtSeparator(testee);
    forall x ensures Readings(done + [x], first) ==
      Readings(done, first) + [ReadU32(x, LastRead(Readings(done, first), first))]
    {
      assert (done + [x])[..|done|] == done;
    }
  }

  /**
   * The `Dimensions` attribute's loop: each piece up to a separator read
   * into `dimension` and appended, then the piece after the last separator.
   * `first` is whatever the uninitialised `dimension` holds. The list
   * replaces the default `[1]` and is never empty.
   */
  method ParseDimensions(text: string, first: U32) returns (dims: seq<U32>)
    ensures dims == Dimensions(text, first)
    ensures |dims| == Separators(text) + 1
  {
    PiecesCount(text);
    dims := [];
    var dimension := first;
    ghost var done: seq<string> := [];
    var testee := text;
    var pos := FirstSeparator(testee);
    while pos < |testee|
      invariant pos == FirstSeparator(testee)
      invariant Pieces(text) == done + Pieces(testee) && dims == Readings(done, first)
      invariant dimension == LastRead(dims, first)
      decreases |testee|
    {
      SplitStep(text, done, testee, first);
      done := done + [testee[..pos]];
      dimension := ReadU32(testee[..pos], dimension);
      dims := dims + [dimension];
      testee := testee[pos + 1..];
      pos := FirstSeparator(testee);
    }
    SplitStep(text, done, testee, first);
    dimension := ReadU32(testee, dimension);
    dims := dims + [dimension];
  }

  // ---------------------------------------------------------------------
  // Signal placement in DIS, ANA and NAD streams
  // ---------------------------------------------------------------------

  /**
   * The check of the DIS, ANA and NAD stream loaders as written: the
   * signal's offset and size are added in 32-bit arithmetic before the
   * comparison with the stream's SampleMaxSizeBytes.
   */
  predicate SignalFitsAsWritten(s: SignalConfig, sampleMaxSizeBytes: U32)
  {
    (s.byteOffset + SampleMaxSize(s)) % WRAP32 <= sampleMaxSizeBytes
  }

  /** The intended check: the signal's bytes end within the sample. */
  predicate SignalFits(s: SignalConfig, sampleMaxSizeBytes: U32)
  {
    s.byteOffset + SampleMaxSize(s) <= sampleMaxSizeBytes
  }

  /** Both checks agree on every signal whose end does not pass 2^32. */
  lemma FitsAgree(s: SignalConfig, sampleMaxSizeBytes: U32)
    requires s.byteOffset + SampleMaxSize(s) < WRAP32
    ensures SignalFitsAsWritten(s, sampleMaxSizeBytes) <==> SignalFits(s, sampleMaxSizeBytes)
  {
  }

  /** A discrete signal at the last 32-bit offset wraps to 0 and passes the check as written. */
  lemma WrappedOffsetPasses()
    ensures SignalFitsAsWritten(SignalConfig("s", SIGNAL_DISCRETE, WRAP32 - 1, NAD_INVALID, [1], 0, 0), 0)
    ensures !SignalFits(SignalConfig("s", SIGNAL_DISCRETE, WRAP32 - 1, NAD_INVALID, [1], 0, 0), 0)
  {
  }

  /** A signal that fits lies wholly within the first SampleMaxSizeBytes bytes of the sample. */
  lemma FitsWithinSample(s: SignalConfig, sampleMaxSizeBytes: U32, b: nat)
    requires SignalFits(s, sampleMaxSizeBytes) && s.byteOffset <= b < s.byteOffset + SampleMaxSize(s)
    ensures b < sampleMaxSizeBytes
  {
  }

  /** The sort key: the byte offset, or the VNAD position for VNAD streams. */
  function Key(s: SignalConfig, byPosition: bool): U32
  {
    if byPosition then s.vnadPosition else s.byteOffset
  }

  predicate SortedBy(s: seq<SignalConfig>, byPosition: bool)
  {
    forall i, j | 0 <= i < j < |s| :: Key(s[i], byPosition) <= Key(s[j], byPosition)
  }

  /** `std::sort` of the signal list by key, in place. */
  method SortSignals(a: array<SignalConfig>, byPosition: bool)
    modifies a
    ensures SortedBy(a[..], byPosition)
    ensures multiset(a[..]) == multiset(old(a[..]))
  {
    var i := 0;
    while i < a.Length
      invariant 0 <= i <= a.Length
      invariant SortedBy(a[..i], byPosition)
      invariant multiset(a[..]) == multiset(old(a[..]))
    {
      SinkLast(a, i, byPosition);
      i := i + 1;
    }
  }

  /** `s` with its elements at `j - 1` and `j` exchanged. */
  function Swapped(s: seq<SignalConfig>, j: nat): (r: seq<SignalConfig>)
    requires 0 < j < |s|
    ensures |r| == |s| && multiset(r) == multiset(s)
  {
    var r := s[j - 1 := s[j]][j := s[j - 1]];
    assert r == s[..j - 1] + [s[j], s[j - 1]] + s[j + 1..];
    assert s == s[..j - 1] + [s[j - 1], s[j]] + s[j + 1..];
    r
  }

  /**
   * Insertion of `s[i]` into the sorted `s[..i]` under way: the moving
   * element is at `j`, everything else up to `i` is in order around it,
   * and `s` is `orig` rearranged below `i + 1`.
   */
  ghost predicate Sinking(s: seq<SignalConfig>, orig: seq<SignalConfig>, j: nat, i: nat, byPosition: bool)
  {
    j <= i < |s| == |orig| &&
    (forall p, q | 0 <= p < q <= i && q != j :: Key(s[p], byPosition) <= Key(s[q], byPosition)) &&
    (forall p, q | 0 <= p < j < q <= i :: Key(s[p], byPosition) <= Key(s[q], byPosition)) &&
    s[i + 1..] == orig[i + 1..] && multiset(s) == multiset(orig)
  }

  lemma SinkStart(s: seq<SignalConfig>, i: nat, byPosition: bool)
    requires i < |s| && SortedBy(s[..i], byPosition)
    ensures Sinking(s, s, i, i, byPosition)
  {
    forall p, q | 0 <= p < q <= i && q != i ensures Key(s[p], byPosition) <= Key(s[q], byPosition) {
      assert s[p] == s[..i][p] && s[q] == s[..i][q];
    }
  }

  lemma SinkStep(s: seq<SignalConfig>, orig: seq<SignalConfig>, j: nat, i: nat, byPosition: bool)
    requires Sinking(s, orig, j, i, byPosition) && 0 < j && Key(s[j - 1], byPosition) > Key(s[j], byPosition)
    ensures Sinking(Swapped(s, j), orig, j - 1, i, byPosition)
  {
    var r := Swapped(s, j);
    assert r[i + 1..] == s[i + 1..];
  }

  lemma SinkEnd(s: seq<SignalConfig>, orig: seq<SignalConfig>, j: nat, i: nat, byPosition: bool)
    requires Sinking(s, orig, j, i, byPosition) && (j == 0 || Key(s[j - 1], byPosition) <= Key(s[j], byPosition))
    ensures SortedBy(s[..i + 1], byPosition)
  {
  }

  /** One insertion step: `a[i]` moved down into the sorted `a[..i]`. */
  method SinkLast(a: array<SignalConfig>, i: nat, byPosition: bool)
    requires i < a.Length && SortedBy(a[..i], byPosition)
    modifies a
    ensures SortedBy(a[..i + 1], byPosition)
    ensures a[i + 1..] == old(a[i + 1..])
    ensures multiset(a[..]) == multiset(old(a[..]))
  {
    SinkStart(a[..], i, byPosition);
    var j: nat := i;
    while j > 0 && Key(a[j - 1], byPosition) > Key(a[j], byPosition)
      invariant Sinking(a[..], old(a[..]), j, i, byPosition)
    {
      SinkStep(a[..], old(a[..]), j, i, byPosition);
      a[j - 1], a[j] := a[j], a[j - 1];
      j := j - 1;
    }
    SinkEnd(a[..], old(a[..]), j, i, byPosition);
  }

  /** A signal with the position the loader gives it after sorting. */
  datatype Numbered = Numbered(signal: SignalConfig, position: U32)

  function SignalsOf(p: seq<Numbered>): (s: seq<SignalConfig>)
    ensures |s| == |p| && forall i | 0 <= i < |p| :: s[i] == p[i].signal
  {
    seq(|p|, i requires 0 <= i < |p| => p[i].signal)
  }

  /** The renumbering loop: positions 0, 1, … in list order. */
  method Number(a: array<SignalConfig>) returns (placed: seq<Numbered>)
    requires a.Length < WRAP32
    ensures SignalsOf(placed) == a[..]
    ensures forall i | 0 <= i < |placed| :: placed[i].position == i
  {
    placed := [];
    var p := 0;
    while p < a.Length
      invariant 0 <= p <= a.Length && |placed| == p
      invariant forall i | 0 <= i < p :: placed[i] == Numbered(a[i], i)
    {
      placed := placed + [Numbered(a[p], p)];
      p := p + 1;
    }
  }

  /** The end of the DIS, ANA and NAD loaders: the list sorted by byte offset and numbered. */
  method PlaceSignals(signals: seq<SignalConfig>) returns (placed: seq<Numbered>)
    requires |signals| < WRAP32
    ensures multiset(SignalsOf(placed)) == multiset(signals) && SortedBy(SignalsOf(placed), false)
    ensures forall i | 0 <= i < |placed| :: placed[i].position == i
  {
    var list := new SignalConfig[|signals|](i requires 0 <= i < |signals| => signals[i]);
    assert list[..] == signals;
    SortSignals(list, false);
    placed := Number(list);
  }

  /**
   * `DISStream`, `ANAStream` and `NADStream::load` for their signals, as
   * written: each signal in turn is refused when its offset plus its size,
   * wrapped to 32 bits, passes the sample; then the list is placed.
   */
  method LoadPlacedSignals(signals: seq<SignalConfig>, sampleMaxSizeBytes: U32) returns (r: Outcome<seq<Numbered>>)
    requires |signals| < WRAP32
    ensures r.Refused? <==> exists i | 0 <= i < |signals| :: !SignalFitsAsWritten(signals[i], sampleMaxSizeBytes)
    ensures r.Kept? ==> multiset(SignalsOf(r.value)) == multiset(signals) && SortedBy(SignalsOf(r.value), false)
    ensures r.Kept? ==> forall i | 0 <= i < |r.value| :: r.value[i].position == i
  {
    var k := 0;
    while k < |signals|
      invariant 0 <= k <= |signals|
      invariant forall i | 0 <= i < k :: SignalFitsAsWritten(signals[i], sampleMaxSizeBytes)
    {
      if !SignalFitsAsWritten(signals[k], sampleMaxSizeBytes) {
        return Refused;
      }
      k := k + 1;
    }
    var placed := PlaceSignals(signals);
    r := Kept(placed);
  }

  /**
   * The loaders with the intended check: a signal is refused exactly when
   * its bytes end past the sample, so every kept signal lies within it.
   */
  method LoadPlacedSignalsIntended(signals: seq<SignalConfig>, sampleMaxSizeBytes: U32) returns (r: Outcome<seq<Numbered>>)
    requires |signals| < WRAP32
    ensures r.Refused? <==> exists i | 0 <= i < |signals| :: !SignalFits(signals[i], sampleMaxSizeBytes)
    ensures r.Kept? ==> multiset(SignalsOf(r.value)) == multiset(signals) && SortedBy(SignalsOf(r.value), false)
    ensures r.Kept? ==> forall i | 0 <= i < |r.value| :: r.value[i].position == i
    ensures r.Kept? ==> forall i | 0 <= i < |r.value| ::
      r.value[i].signal.byteOffset + SampleMaxSize(r.value[i].signal) <= sampleMaxSizeBytes
  {
    var k := 0;
    while k < |signals|
      invariant 0 <= k <= |signals|
      invariant forall i | 0 <= i < k :: SignalFits(signals[i], sampleMaxSizeBytes)
    {
      if !SignalFits(signals[k], sampleMaxSizeBytes) {
        return Refused;
      }
      k := k + 1;
    }
    var placed := PlaceSignals(signals);
    r := Kept(placed);
    forall i | 0 <= i < |placed|
      ensures SignalFits(placed[i].signal, sampleMaxSizeBytes)
    {
      assert SignalsOf(placed)[i] in multiset(signals);
    }
  }

  // ---------------------------------------------------------------------
  // VNAD streams
  // ---------------------------------------------------------------------

  /** The bytes the VNAD signals need, in unbounded arithmetic: each sample with its 2-byte size, MaxNumber times. */
  function VnadBytes(signals: seq<SignalConfig>): nat
  {
    if signals == [] then 0 else VnadBytes(signals[..|signals| - 1]) + VnadNeed(signals[|signals| - 1])
  }

  /** What one VNAD signal adds: its largest sample and the 2-byte size before it, MaxNumber times. */
  function VnadNeed(s: SignalConfig): nat
  {
    (SampleMaxSize(s) + 2) * s.vnadMaxNumber
  }

  /**
   * `VNADStream::load` for its signals: the stream's SampleMaxSizeBytes,
   * 0 at first, grows by every signal's need in 32-bit arithmetic; then
   * the list is sorted by VNAD position and numbered.
   */
  method LoadVnadSignals(signals: seq<SignalConfig>) returns (sampleMaxSizeBytes: U32, placed: seq<Numbered>)
    requires |signals| < WRAP32
    ensures sampleMaxSizeBytes == VnadBytes(signals) % WRAP32
    ensures multiset(SignalsOf(placed)) == multiset(signals) && SortedBy(SignalsOf(placed), true)
    ensures forall i | 0 <= i < |placed| :: placed[i].position == i
  {
    sampleMaxSizeBytes := 0;
    var k := 0;
    while k < |signals|
      invariant 0 <= k <= |signals|
      invariant sampleMaxSizeBytes == VnadBytes(signals[..k]) % WRAP32
    {
      var s := signals[k];
      assert signals[..k + 1][..k] == signals[..k];
      AddMod(VnadBytes(signals[..k]), VnadNeed(s));
      sampleMaxSizeBytes := (sampleMaxSizeBytes + (SampleMaxSize(s) + 2) * s.vnadMaxNumber) % WRAP32;
      k := k + 1;
    }
    assert signals[..k] == signals;
    var list := new SignalConfig[|signals|](i requires 0 <= i < |signals| => signals[i]);
    assert list[..] == signals;
    SortSignals(list, true);
    placed := Number(list);
  }

  lemma AddMod(a: nat, b: nat)
    ensures (a % WRAP32 + b) % WRAP32 == (a + b) % WRAP32
  {
    var q := a / WRAP32;
    assert a == q * WRAP32 + a % WRAP32;
  }

  // ---------------------------------------------------------------------
  // Streams and channels
  // ---------------------------------------------------------------------

  /** The rule `A664Stream::load` enforces: without message sizes in the frame, a stream holds one sample at most. */
  predicate A664Accepted(enableMessageSize: int, sampleMaxNumber: U32)
  {
    !(enableMessageSize == YESNO_NO && sampleMaxNumber > 1)
  }

  /** An attribute of a `MessageSize` element: `Enable` with its text, or any other name. */
  datatype MessageSizeAttr = EnableAttr(text: string) | OtherAttr(name: string)

  /** A child node of an `A664_Stream` element, as the loader tells them apart. */
  datatype A664Child =
    | DataTimestampChild
    | ErrorsChild
    | MessageSizeChild(attrs: seq<MessageSizeAttr>)
    | OtherChild(name: string)
    | NotElement

  /** The message-size setting after the `Enable` attributes of `attrs`, starting from `enable`. */
  function EnableOf(enable: int, attrs: seq<MessageSizeAttr>): int
  {
    if attrs == [] then enable
    else
      var last := attrs[|attrs| - 1];
      if last.EnableAttr? then Conversions.YesNoFromString(last.text) else EnableOf(enable, attrs[..|attrs| - 1])
  }

  /** The message-size setting after `children`, starting from the constructor's YES. */
  function EnableAfter(children: seq<A664Child>): int
  {
    if children == [] then YESNO_YES
    else
      var e := EnableAfter(children[..|children| - 1]);
      match children[|children| - 1]
      case MessageSizeChild(attrs) => EnableOf(e, attrs)
      case _ => e
  }

  /** Whether the loader throws on this child: an unknown element, or an unknown attribute of `MessageSize`. */
  predicate Unknown(child: A664Child)
  {
    child.OtherChild? || (child.MessageSizeChild? && exists j | 0 <= j < |child.attrs| :: child.attrs[j].OtherAttr?)
  }

  /** Whether message sizes are off right after some element child, where the loader checks the rule. */
  predicate DisabledAtCheck(children: seq<A664Child>)
  {
    children != [] &&
    (DisabledAtCheck(children[..|children| - 1]) ||
     (!children[|children| - 1].NotElement? && EnableAfter(children) == YESNO_NO))
  }

  /**
   * The attribute loop of a `MessageSize` element: `Enable` sets the
   * setting from its yes/no text, any other attribute throws.
   */
  method ReadMessageSize(enable: int, attrs: seq<MessageSizeAttr>) returns (r: Outcome<int>)
    ensures r.Refused? <==> exists j | 0 <= j < |attrs| :: attrs[j].OtherAttr?
    ensures r.Kept? ==> r.value == EnableOf(enable, attrs)
  {
    var e := enable;
    var k := 0;
    while k < |attrs|
      invariant 0 <= k <= |attrs|
      invariant e == EnableOf(enable, attrs[..k])
      invariant forall j | 0 <= j < k :: attrs[j].EnableAttr?
    {
      assert attrs[..k + 1][..k] == attrs[..k];
      if attrs[k].OtherAttr? {
        return Refused;
      }
      e := Conversions.YesNoFromString(attrs[k].text);
      k := k + 1;
    }
    assert attrs[..k] == attrs;
    r := Kept(e);
  }

  /**
   * The child loop of `A664Stream::load`: non-element nodes are skipped,
   * `MessageSize` reads its attributes, an unknown element throws, and
   * after every element child the message-size rule is checked.
   */
  method LoadA664Children(sampleMaxNumber: U32, children: seq<A664Child>) returns (r: Outcome<int>)
    ensures r.Refused? <==>
      (exists i | 0 <= i < |children| :: Unknown(children[i])) || (sampleMaxNumber > 1 && DisabledAtCheck(children))
    ensures r.Kept? ==> r.value == EnableAfter(children) && A664Accepted(r.value, sampleMaxNumber)
  {
    var enable := YESNO_YES;
    var k := 0;
    while k < |children|
      invariant 0 <= k <= |children|
      invariant enable == EnableAfter(children[..k])
      invariant forall i | 0 <= i < k :: !Unknown(children[i])
      invariant !(sampleMaxNumber > 1 && DisabledAtCheck(children[..k]))
      invariant A664Accepted(enable, sampleMaxNumber)
    {
      var child := children[k];
      assert children[..k + 1][..k] == children[..k];
      if !child.NotElement? {
        if child.OtherChild? {
          return Refused;
        } else if child.MessageSizeChild? {
          var e := ReadMessageSize(enable, child.attrs);
          if e.Refused? {
            assert Unknown(children[k]);
            return Refused;
          }
          enable := e.value;
        }
        if enable == YESNO_NO && sampleMaxNumber > 1 {
          assert DisabledAtCheck(children[..k + 1]);
          DisabledStays(children, k + 1);
          return Refused;
        }
      }
      k := k + 1;
    }
    assert children[..k] == children;
    r := Kept(enable);
  }

  /** Once the rule has failed at a check, it has failed for every longer list of children. */
  lemma {:induction false} DisabledStays(children: seq<A664Child>, n: nat)
    requires n <= |children| && DisabledAtCheck(children[..n])
    ensures DisabledAtCheck(children)
  {
    if n == |children| {
      assert children[..n] == children;
    } else {
      var init := children[..|children| - 1];
      assert init[..n] == children[..n];
      DisabledStays(init, n);
    }
  }

  /**
   * The check sits inside the child loop, yet it misses no setting: a
   * stream left without message sizes was checked after the element child
   * that turned them off, since the constructor starts from YES and
   * non-element nodes change nothing.
   */
  lemma {:induction false} A664FinalSettingChecked(children: seq<A664Child>)
    ensures EnableAfter(children) == YESNO_NO ==> DisabledAtCheck(children)
  {
    if children != [] {
      A664FinalSettingChecked(children[..|children| - 1]);
    }
  }

  /** A stream the loader keeps without message sizes holds at most one sample, so its frame carries a single raw body. */
  lemma {:induction false} A664OneSampleWithoutSize(sampleMaxNumber: U32, children: seq<A664Child>)
    requires !(sampleMaxNumber > 1 && DisabledAtCheck(children))
    requires EnableAfter(children) == YESNO_NO
    ensures sampleMaxNumber <= 1
  {
    A664FinalSettingChecked(children);
  }

  /** The OR of a list of direction masks. */
  function OrAll(ds: seq<Direction>): Direction
  {
    if ds == [] then DIR_INVALID else DirOr(OrAll(ds[..|ds| - 1]), ds[|ds| - 1])
  }

  /** The OR has a bit exactly when one of the masks has it. */
  lemma {:induction false} OrAllBits(ds: seq<Direction>)
    ensures HasIn(OrAll(ds)) <==> exists i | 0 <= i < |ds| :: HasIn(ds[i])
    ensures HasOut(OrAll(ds)) <==> exists i | 0 <= i < |ds| :: HasOut(ds[i])
  {
    if ds != [] {
      var init := ds[..|ds| - 1];
      OrAllBits(init);
      if HasIn(OrAll(init)) {
        var i :| 0 <= i < |init| && HasIn(init[i]);
        assert HasIn(ds[i]);
      }
      if HasOut(OrAll(init)) {
        var i :| 0 <= i < |init| && HasOut(init[i]);
        assert HasOut(ds[i]);
      }
      if exists i | 0 <= i < |ds| :: HasIn(ds[i]) {
        var i :| 0 <= i < |ds| && HasIn(ds[i]);
        if i < |init| {
          assert HasIn(init[i]);
        }
      }
      if exists i | 0 <= i < |ds| :: HasOut(ds[i]) {
        var i :| 0 <= i < |ds| && HasOut(ds[i]);
        if i < |init| {
          assert HasOut(init[i]);
        }
      }
    }
  }

  /** A channel as read: its frame revision and the directions of its UDP sockets and of its streams. */
  datatype ChannelDecl = ChannelDecl(revision: int, sockets: seq<Direction>, streams: seq<Direction>)

  /** The directions after consolidation. */
  datatype Directions = Directions(sockets: seq<Direction>, streams: seq<Direction>)

  /** Whether the loader can decide every socket's direction: none without one, or the streams point one way. */
  predicate Decidable(sockets: seq<Direction>, streams: seq<Direction>)
  {
    (exists i | 0 <= i < |sockets| :: sockets[i] == DIR_INVALID) ==> OrAll(streams) in {DIR_IN, DIR_OUT}
  }

  /**
   * The direction consolidation of `Channel::load`: a socket without a
   * direction takes the streams' combined one, which must be IN or OUT;
   * then a stream without a direction takes the OR of all the sockets'.
   */
  method Consolidate(sockets: seq<Direction>, streams: seq<Direction>) returns (r: Outcome<Directions>)
    ensures r.Refused? <==> !Decidable(sockets, streams)
    ensures r.Kept? ==> |r.value.sockets| == |sockets| && |r.value.streams| == |streams|
    ensures r.Kept? ==> forall i | 0 <= i < |sockets| ::
      r.value.sockets[i] == (if sockets[i] == DIR_INVALID then OrAll(streams) else sockets[i])
    ensures r.Kept? ==> forall j | 0 <= j < |streams| ::
      r.value.streams[j] == (if streams[j] == DIR_INVALID then OrAll(r.value.sockets) else streams[j])
  {
    var streamsDirection := OrAll(streams);
    var sockets': seq<Direction> := [];
    var k := 0;
    while k < |sockets|
      invariant 0 <= k <= |sockets| && |sockets'| == k
      invariant forall i | 0 <= i < k :: sockets'[i] == (if sockets[i] == DIR_INVALID then streamsDirection else sockets[i])
      invariant streamsDirection !in {DIR_IN, DIR_OUT} ==> forall i | 0 <= i < k :: sockets[i] != DIR_INVALID
    {
      var d := sockets[k];
      if d == DIR_INVALID {
        if streamsDirection == DIR_INVALID || streamsDirection == DIR_INOUT {
          return Refused;
        }
        d := streamsDirection;
      }
      sockets' := sockets' + [d];
      k := k + 1;
    }
    var comInterfaceDirection := OrAll(sockets');
    var streams': seq<Direction> := [];
    k := 0;
    while k < |streams|
      invariant 0 <= k <= |streams| && |streams'| == k
      invariant forall j | 0 <= j < k :: streams'[j] == (if streams[j] == DIR_INVALID then comInterfaceDirection else streams[j])
    {
      streams' := streams' + [if streams[k] == DIR_INVALID then comInterfaceDirection else streams[k]];
      k := k + 1;
    }
    r := Kept(Directions(sockets', streams'));
  }

  /**
   * Consolidation never makes a stream bidirectional behind one-way
   * sockets: a stream that had no direction gets no bit that no socket has.
   */
  lemma DefaultedStreamsFollowSockets(sockets: seq<Direction>, streams: seq<Direction>, d: Directions, j: nat)
    requires |d.sockets| == |sockets| && j < |d.streams| == |streams| && streams[j] == DIR_INVALID
    requires d.streams[j] == OrAll(d.sockets)
    ensures HasIn(d.streams[j]) ==> exists i | 0 <= i < |sockets| :: HasIn(d.sockets[i])
    ensures HasOut(d.streams[j]) ==> exists i | 0 <= i < |sockets| :: HasOut(d.sockets[i])
  {
    OrAllBits(d.sockets);
  }

  /** After consolidation every socket is one-way when none was declared bidirectional. */
  lemma SocketsOneWay(sockets: seq<Direction>, streams: seq<Direction>, d: Directions)
    requires Decidable(sockets, streams) && forall i | 0 <= i < |sockets| :: sockets[i] != DIR_INOUT
    requires |d.sockets| == |sockets|
    requires forall i | 0 <= i < |sockets| :: d.sockets[i] == (if sockets[i] == DIR_INVALID then OrAll(streams) else sockets[i])
    ensures forall i | 0 <= i < |sockets| :: d.sockets[i] in {DIR_IN, DIR_OUT}
  {
  }

  /** Whether `Channel::load` and the check after it accept a channel. */
  predicate ChannelAccepted(c: ChannelDecl)
  {
    c.revision == STANDARD_ED247A && (forall i | 0 <= i < |c.sockets| :: c.sockets[i] != DIR_INOUT) &&
    Decidable(c.sockets, c.streams)
  }

  /**
   * One channel: a bidirectional UDP socket is refused when it is read,
   * a frame revision other than ED247A after the channel is loaded, and
   * then the directions are consolidated.
   */
  method LoadChannel(c: ChannelDecl) returns (r: Outcome<Directions>)
    ensures r.Refused? <==> !ChannelAccepted(c)
    ensures r.Kept? ==> |r.value.sockets| == |c.sockets| && |r.value.streams| == |c.streams|
    ensures r.Kept? ==> forall i | 0 <= i < |c.sockets| :: r.value.sockets[i] in {DIR_IN, DIR_OUT}
    ensures r.Kept? ==> forall j | 0 <= j < |c.streams| && c.streams[j] == DIR_INVALID ::
      r.value.streams[j] == OrAll(r.value.sockets)
    ensures r.Kept? ==> forall j | 0 <= j < |c.streams| && c.streams[j] != DIR_INVALID :: r.value.streams[j] == c.streams[j]
  {
    if exists i | 0 <= i < |c.sockets| :: c.sockets[i] == DIR_INOUT {
      return Refused;
    }
    r := Consolidate(c.sockets, c.streams);
    if r.Kept? {
      SocketsOneWay(c.sockets, c.streams, r.value);
      if c.revision != STANDARD_ED247A {
        r := Refused;
      }
    }
  }

  /**
   * `Component::load`: a component whose revision is not ED247A is
   * refused, then every channel is loaded in turn and the first refused
   * one refuses the component.
   */
  method LoadComponent(revision: int, channels: seq<ChannelDecl>) returns (r: Outcome<seq<Directions>>)
    ensures r.Refused? <==> revision != STANDARD_ED247A || exists k | 0 <= k < |channels| :: !ChannelAccepted(channels[k])
    ensures r.Kept? ==> |r.value| == |channels|
    ensures r.Kept? ==> forall k | 0 <= k < |channels| :: |r.value[k].sockets| == |channels[k].sockets|
    ensures r.Kept? ==> forall k, i | 0 <= k < |channels| && 0 <= i < |channels[k].sockets| ::
      r.value[k].sockets[i] in {DIR_IN, DIR_OUT}
  {
    if revision != STANDARD_ED247A {
      return Refused;
    }
    var loaded: seq<Directions> := [];
    var k := 0;
    while k < |channels|
      invariant 0 <= k <= |channels| && |loaded| == k
      invariant forall m | 0 <= m < k :: ChannelAccepted(channels[m]) && |loaded[m].sockets| == |channels[m].sockets|
      invariant forall m, i | 0 <= m < k && 0 <= i < |channels[m].sockets| :: loaded[m].sockets[i] in {DIR_IN, DIR_OUT}
    {
      var c := LoadChannel(channels[k]);
      if c.Refused? {
        return Refused;
      }
      loaded := loaded + [c.value];
      k := k + 1;
    }
    r := Kept(loaded);
  }
}
