/**
 * The level logic of the library's logger (ed247_logs.cpp): the level is
 * clamped into the range the public header declares, named by thresholds,
 * and chosen at `reset` from the environment, the caller or the default,
 * in that order. Payloads are traced as upper-case hexadecimal bytes.
 */
module Logs {
  import opened Types

  // Levels of `ed247_log_level_t` (ed247.h).
  const LEVEL_MIN: int := 0
  const LEVEL_ERROR: int := 0
  const LEVEL_WARNING: int := 1
  const LEVEL_DEFAULT: int := 1
  const LEVEL_INFO: int := 2
  const LEVEL_DEBUG: int := 3
  const LEVEL_CRAZY: int := 99
  const LEVEL_MAX: int := 99
  const LEVEL_UNSET: int := 100

  /** The named levels, lowest first. */
  const NAMED_LEVELS: seq<int> := [LEVEL_ERROR, LEVEL_WARNING, LEVEL_INFO, LEVEL_DEBUG, LEVEL_CRAZY, LEVEL_UNSET]

  /** `std::min(std::max(level, MIN), MAX)`. */
  function Clamp(level: int): (r: int)
    ensures LEVEL_MIN <= r <= LEVEL_MAX
    ensures LEVEL_MIN <= level <= LEVEL_MAX ==> r == level
    ensures level < LEVEL_MIN ==> r == LEVEL_MIN
    ensures level > LEVEL_MAX ==> r == LEVEL_MAX
  {
    if level < LEVEL_MIN then LEVEL_MIN else if level > LEVEL_MAX then LEVEL_MAX else level
  }

  /** `level_name`: the name of the highest named level not above `level`, ERROR below them all. */
  function LevelName(level: int): string
  {
    if level >= LEVEL_UNSET then "UNSET"
    else if level >= LEVEL_CRAZY then "CRAZY"
    else if level >= LEVEL_DEBUG then "DEBUG"
    else if level >= LEVEL_INFO then "INFO"
    else if level >= LEVEL_WARNING then "WARNING"
    else "ERROR"
  }

  /** The level a name stands for. */
  function NameLevel(name: string): Option<int>
  {
    if name == "UNSET" then Some(LEVEL_UNSET)
    else if name == "CRAZY" then Some(LEVEL_CRAZY)
    else if name == "DEBUG" then Some(LEVEL_DEBUG)
    else if name == "INFO" then Some(LEVEL_INFO)
    else if name == "WARNING" then Some(LEVEL_WARNING)
    else if name == "ERROR" then Some(LEVEL_ERROR)
    else None
  }

  /**
   * Every level is named after a named level: the highest one not above it
   * (ERROR for the levels below all of them).
   */
  lemma LevelNameThreshold(level: int)
    ensures NameLevel(LevelName(level)).Some?
    ensures var t := NameLevel(LevelName(level)).value;
      t in NAMED_LEVELS && LevelName(t) == LevelName(level) &&
      (level >= LEVEL_MIN ==> t <= level) &&
      (forall c | c in NAMED_LEVELS && c <= level :: c <= t)
  {
    var t := NameLevel(LevelName(level)).value;
    assert t == if level >= LEVEL_UNSET then LEVEL_UNSET
      else if level >= LEVEL_CRAZY then LEVEL_CRAZY
      else if level >= LEVEL_DEBUG then LEVEL_DEBUG
      else if level >= LEVEL_INFO then LEVEL_INFO
      else if level >= LEVEL_WARNING then LEVEL_WARNING
      else LEVEL_ERROR;
  }

  /** Each named level is named after itself. */
  lemma NamedLevelsNameThemselves()
    ensures forall c | c in NAMED_LEVELS :: NameLevel(LevelName(c)) == Some(c)
  {
  }

  /** A clamped level is never named UNSET. */
  lemma ClampedLevelsAreNamed(level: int)
    ensures LevelName(Clamp(level)) != "UNSET"
    ensures Clamp(Clamp(level)) == Clamp(level)
  {
  }

  // --- the environment variable -----------------------------------------------

  /** `isspace` in the C locale. */
  predicate IsSpace(c: char)
  {
    c == ' ' || c == '\t' || c == '\n' || c == '\r' || c as int == 11 || c as int == 12
  }

  predicate IsDigit(c: char)
  {
    '0' <= c <= '9'
  }

  predicate AllDigits(s: string)
  {
    forall i | 0 <= i < |s| :: IsDigit(s[i])
  }

  /** How many white-space characters `strtol` skips. */
  function SkipSpaces(s: string): (k: nat)
    ensures k <= |s|
    ensures forall i | 0 <= i < k :: IsSpace(s[i])
    ensures k < |s| ==> !IsSpace(s[k])
  {
    if s != [] && IsSpace(s[0]) then 1 + SkipSpaces(s[1..]) else 0
  }

  /** The value of a run of decimal digits. */
  function DigitsValue(s: string): nat
    requires AllDigits(s)
  {
    if s == [] then 0 else 10 * DigitsValue(s[..|s| - 1]) + (s[|s| - 1] as int - '0' as int)
  }

  /**
   * `strtol(s, &end, 10)` followed by the test `*end == 0` of `reset`: after
   * white space and an optional sign, digits must run to the end of the
   * string. Anything else (no digits, trailing characters) is not a level.
   */
  function ParseLevel(s: string): Option<int>
  {
    var t := s[SkipSpaces(s)..];
    var negative := t != [] && t[0] == '-';
    var digits := if t != [] && (t[0] == '+' || t[0] == '-') then t[1..] else t;
    if digits != [] && AllDigits(digits) then
      var v: int := DigitsValue(digits);
      Some(if negative then -v else v)
    else None
  }

  /** The decimal digits of `n`. */
  function Digits(n: nat): (s: string)
    ensures s != [] && AllDigits(s)
  {
    if n < 10 then [('0' as int + n) as char] else Digits(n / 10) + [('0' as int + n % 10) as char]
  }

  /** `n` written in decimal, as the environment variable would hold it. */
  function Decimal(n: int): string
  {
    if n < 0 then "-" + Digits(-n) else Digits(n)
  }

  lemma {:induction false} DigitsValueOfDigits(n: nat)
    ensures DigitsValue(Digits(n)) == n
  {
    if n >= 10 {
      DigitsValueOfDigits(n / 10);
      var s := Digits(n);
      assert s[..|s| - 1] == Digits(n / 10);
    }
  }

  /** Every level written in decimal is read back, with or without leading white space. */
  lemma ParseLevelOfDecimal(n: int, spaces: string)
    requires forall i | 0 <= i < |spaces| :: IsSpace(spaces[i])
    ensures ParseLevel(spaces + Decimal(n)) == Some(n)
  {
    var s := spaces + Decimal(n);
    SkipsSpaces(spaces, Decimal(n));
    assert s[|spaces|..] == Decimal(n);
    DigitsValueOfDigits(if n < 0 then -n else n);
    if n < 0 {
      assert Decimal(n)[1..] == Digits(-n);
    }
  }

  lemma {:induction false} SkipsSpaces(spaces: string, rest: string)
    requires forall i | 0 <= i < |spaces| :: IsSpace(spaces[i])
    requires rest != [] && !IsSpace(rest[0])
    ensures SkipSpaces(spaces + rest) == |spaces|
  {
    if spaces != [] {
      assert (spaces + rest)[1..] == spaces[1..] + rest;
      SkipsSpaces(spaces[1..], rest);
    }
  }

  /** Values of the environment variable that are not levels: empty, blank, trailing text, hex, a lone sign. */
  lemma ParseLevelRejects()
    ensures ParseLevel("") == None && ParseLevel("  ") == None
    ensures ParseLevel("3 ") == None && ParseLevel("0x1") == None && ParseLevel("+") == None
  {
    assert SkipSpaces("  ") == 2;
    assert SkipSpaces("3 ") == 0 && !IsDigit("3 "[1]);
    assert SkipSpaces("0x1") == 0 && !IsDigit("0x1"[1]);
    assert SkipSpaces("+") == 0 && "+"[1..] == [];
  }

  /** An explicit plus sign is accepted too. */
  lemma ParseLevelOfPlus(n: nat)
    ensures ParseLevel("+" + Digits(n)) == Some(n)
  {
    var s := "+" + Digits(n);
    assert SkipSpaces(s) == 0;
    assert s[1..] == Digits(n);
    DigitsValueOfDigits(n);
  }

  // --- the logger -------------------------------------------------------------

  /** What the logger says about its level (the text of its messages is not modelled). */
  datatype Notice =
    | LevelSet(name: string)          // "Set log level to <name>"
    | EnvLevelUsed                    // "Set log level using env variable"
    | InvalidEnvLevel(value: string)  // "[ERROR] Invalid env variable ... value"
    | LevelIs(name: string)           // "Log level is set to <name>"

  /** `ed247::log`, reduced to its level. */
  class Logger {
    var level: int

    /** Unset, or within the declared range. */
    predicate Valid()
      reads this
    {
      level == LEVEL_UNSET || LEVEL_MIN <= level <= LEVEL_MAX
    }

    constructor()
      ensures Valid() && level == LEVEL_UNSET
    {
      level := LEVEL_UNSET;
    }

    /**
     * `set_level`: the requested level clamped into [MIN, MAX]. Nothing
     * happens when that is the current level; otherwise the change is
     * announced, except the first setting of the default level.
     */
    method SetLevel(newLevel: int) returns (notices: seq<Notice>)
      modifies this
      ensures Valid() && level == Clamp(newLevel)
      ensures Clamp(newLevel) == old(level) ==> notices == []
      ensures Clamp(newLevel) != old(level) ==>
        notices == if Clamp(newLevel) == LEVEL_DEFAULT && old(level) == LEVEL_UNSET then [] else [LevelSet(LevelName(Clamp(newLevel)))]
    {
      var clamped := if newLevel < LEVEL_MIN then LEVEL_MIN else newLevel;
      clamped := if clamped > LEVEL_MAX then LEVEL_MAX else clamped;
      notices := [];
      if clamped != level {
        if clamped != LEVEL_DEFAULT || level != LEVEL_UNSET {
          notices := [LevelSet(LevelName(clamped))];
        }
        level := clamped;
      }
    }

    /**
     * The level part of `reset`: a non-empty environment value wins when it
     * is a number and otherwise is reported and changes nothing (the
     * caller's level is then ignored); without one, a caller level other
     * than UNSET is taken; without either, an unset logger gets the default
     * level and a set one above ERROR reports its level.
     */
    method Reset(callerLevel: int, envLevel: Option<string>) returns (notices: seq<Notice>)
      requires Valid()
      modifies this
      ensures Valid()
      ensures envLevel.Some? && envLevel.value != [] ==>
        match ParseLevel(envLevel.value)
        case Some(v) => level == Clamp(v) && 1 <= |notices| <= 2 && notices[0] == EnvLevelUsed
        case None => level == old(level) && notices == [InvalidEnvLevel(envLevel.value)]
      ensures (envLevel.None? || envLevel.value == []) && callerLevel != LEVEL_UNSET ==> level == Clamp(callerLevel)
      ensures (envLevel.None? || envLevel.value == []) && callerLevel == LEVEL_UNSET ==>
        level == (if old(level) == LEVEL_UNSET then LEVEL_DEFAULT else old(level)) &&
        notices == (if old(level) != LEVEL_UNSET && old(level) > LEVEL_ERROR then [LevelIs(LevelName(old(level)))] else [])
    {
      if envLevel.Some? && envLevel.value != [] {
        match ParseLevel(envLevel.value)
        case Some(v) =>
          var said := SetLevel(v);
          notices := [EnvLevelUsed] + said;
        case None =>
          notices := [InvalidEnvLevel(envLevel.value)];
      } else if callerLevel != LEVEL_UNSET {
        notices := SetLevel(callerLevel);
      } else if level == LEVEL_UNSET {
        notices := SetLevel(LEVEL_DEFAULT);
      } else if level > LEVEL_ERROR {
        notices := [LevelIs(LevelName(level))];
      } else {
        notices := [];
      }
    }
  }

  // --- payload traces ---------------------------------------------------------

  /** An upper-case hexadecimal digit. */
  function HexDigit(d: nat): (c: char)
    requires d < 16
  {
    if d < 10 then ('0' as int + d) as char else ('A' as int + d - 10) as char
  }

  /** A byte as `setw(2)`, fill '0', upper-case hex print it. */
  function HexByte(b: Byte): (s: string)
    ensures |s| == 2
  {
    [HexDigit(b / 16), HexDigit(b % 16)]
  }

  /** The value of an upper-case hexadecimal digit. */
  function HexValue(c: char): Option<nat>
  {
    if '0' <= c <= '9' then Some(c as int - '0' as int)
    else if 'A' <= c <= 'F' then Some(c as int - 'A' as int + 10)
    else None
  }

  /** The two digits printed for a byte read back give the byte. */
  lemma HexByteRoundTrip(b: Byte)
    ensures HexValue(HexByte(b)[0]).Some? && HexValue(HexByte(b)[1]).Some?
    ensures 16 * HexValue(HexByte(b)[0]).value + HexValue(HexByte(b)[1]).value == b
  {
  }

  /**
   * `operator<<` on `hex_stream`: "(null)" for a null payload; otherwise
   * each of the first `len` bytes as two upper-case hex digits and a space
   * (nothing for a length that is not positive).
   */
  method HexStream(payload: Option<seq<Byte>>, len: int) returns (out: string)
    requires payload.Some? ==> len <= |payload.value|
    ensures payload.None? ==> out == "(null)"
    ensures payload.Some? ==> |out| == 3 * (if len < 0 then 0 else len)
    ensures payload.Some? ==> forall i | 0 <= i < len ::
      out[3 * i..3 * i + 3] == HexByte(payload.value[i]) + " "
  {
    if payload.None? {
      return "(null)";
    }
    out := [];
    var pos := 0;
    while pos < len
      invariant 0 <= pos && (len >= 0 ==> pos <= len) && (len < 0 ==> pos == 0)
      invariant |out| == 3 * pos
      invariant forall i | 0 <= i < pos :: out[3 * i..3 * i + 3] == HexByte(payload.value[i]) + " "
    {
      var group := HexByte(payload.value[pos]) + " ";
      assert forall i | 0 <= i < pos :: (out + group)[3 * i..3 * i + 3] == out[3 * i..3 * i + 3];
      assert (out + group)[3 * pos..3 * pos + 3] == group;
      out := out + group;
      pos := pos + 1;
    }
  }
}
