/**
 * The enumeration/string conversions of ed247_conversion.cpp. Each
 * `*_string` maps the named values of an enumeration to their fixed
 * strings and anything else to "Unknown"; each `*_from_string` compares
 * its argument, exactly and case-sensitively, with those strings in
 * turn and answers the `__INVALID` value when none matches.
 */
module Conversions {
  import opened Types

  const UNKNOWN := "Unknown"

  // --- status -------------------------------------------------------------

  /** `ed247_status_string`. */
  function StatusString(code: int): string
  {
    if code == 0 then "SUCCESS"
    else if code == 1 then "FAILURE"
    else if code == 2 then "TIMEOUT"
    else if code == 3 then "NODATA"
    else UNKNOWN
  }

  /** Every status has its own name, and a code outside the four names "Unknown". */
  lemma StatusNames(s: Status, code: int)
    ensures StatusString(StatusCode(s)) != UNKNOWN
    ensures forall t: Status :: StatusString(StatusCode(t)) == StatusString(StatusCode(s)) ==> t == s
    ensures !(0 <= code < 4) ==> StatusString(code) == UNKNOWN
  {
  }

  // --- standard -------------------------------------------------------------

  /** `ed247_standard_string`: ED247 is "-" and ED247A is "A". */
  function StandardString(standard: int): string
  {
    if standard == STANDARD_ED247 then "-"
    else if standard == STANDARD_ED247A then "A"
    else UNKNOWN
  }

  /** `ed247_standard_from_string`. */
  function StandardFromString(s: string): int
  {
    if s == "-" then STANDARD_ED247
    else if s == "A" then STANDARD_ED247A
    else STANDARD_INVALID
  }

  /**
   * The two conversions are inverse on the named standards: a standard's
   * string reads back as that standard, and a string that reads as a
   * standard is exactly that standard's string. Anything else is
   * "Unknown", which reads back as invalid.
   */
  lemma StandardRoundTrip(standard: int, s: string)
    ensures STANDARD_ED247 <= standard <= STANDARD_ED247A ==> StandardFromString(StandardString(standard)) == standard
    ensures StandardFromString(s) != STANDARD_INVALID ==> StandardString(StandardFromString(s)) == s
    ensures !(STANDARD_ED247 <= standard <= STANDARD_ED247A) ==> StandardString(standard) == UNKNOWN
    ensures StandardFromString(UNKNOWN) == STANDARD_INVALID
  {
  }

  // --- direction ------------------------------------------------------------

  /** `ed247_direction_string`. */
  function DirectionString(direction: int): string
  {
    if direction == DIR_IN then "In"
    else if direction == DIR_OUT then "Out"
    else if direction == DIR_INOUT then "InOut"
    else UNKNOWN
  }

  /** `ed247_direction_from_string`. */
  function DirectionFromString(s: string): Direction
  {
    if s == "In" then DIR_IN
    else if s == "Out" then DIR_OUT
    else if s == "InOut" then DIR_INOUT
    else DIR_INVALID
  }

  /** The direction conversions are inverse on IN, OUT and INOUT; see `StandardRoundTrip`. */
  lemma DirectionRoundTrip(direction: int, s: string)
    ensures DIR_IN <= direction <= DIR_INOUT ==> DirectionFromString(DirectionString(direction)) == direction
    ensures DirectionFromString(s) != DIR_INVALID ==> DirectionString(DirectionFromString(s)) == s
    ensures !(DIR_IN <= direction <= DIR_INOUT) ==> DirectionString(direction) == UNKNOWN
    ensures DirectionFromString(UNKNOWN) == DIR_INVALID
  {
  }

  // --- yes/no ---------------------------------------------------------------

  /** `ed247_yesno_string`. */
  function YesNoString(yesno: int): string
  {
    if yesno == YESNO_NO then "No"
    else if yesno == YESNO_YES then "Yes"
    else UNKNOWN
  }

  /** `ed247_yesno_from_string` of this file: exact "No" or "Yes". */
  function YesNoFromString(s: string): int
  {
    if s == "No" then YESNO_NO
    else if s == "Yes" then YESNO_YES
    else YESNO_INVALID
  }

  /** The yes/no conversions are inverse on NO and YES; matching is exact, so " YES" and "NO " are invalid. */
  lemma YesNoRoundTrip(yesno: int, s: string)
    ensures YESNO_NO <= yesno <= YESNO_YES ==> YesNoFromString(YesNoString(yesno)) == yesno
    ensures YesNoFromString(s) != YESNO_INVALID ==> YesNoString(YesNoFromString(s)) == s
    ensures !(YESNO_NO <= yesno <= YESNO_YES) ==> YesNoString(yesno) == UNKNOWN
    ensures YesNoFromString(UNKNOWN) == YESNO_INVALID
    ensures YesNoFromString(" YES") == YESNO_INVALID && YesNoFromString("NO ") == YESNO_INVALID
  {
  }

  // --- component type -------------------------------------------------------

  /** `ed247_component_type_string`. */
  function ComponentTypeString(componentType: int): string
  {
    if componentType == COMPONENT_VIRTUAL then "Virtual"
    else if componentType == COMPONENT_BRIDGE then "Bridge"
    else UNKNOWN
  }

  /** `ed247_component_type_from_string`. */
  function ComponentTypeFromString(s: string): int
  {
    if s == "Virtual" then COMPONENT_VIRTUAL
    else if s == "Bridge" then COMPONENT_BRIDGE
    else COMPONENT_INVALID
  }

  /** The component type conversions are inverse on VIRTUAL and BRIDGE; "virtual" is invalid. */
  lemma ComponentTypeRoundTrip(componentType: int, s: string)
    ensures COMPONENT_VIRTUAL <= componentType <= COMPONENT_BRIDGE ==>
      ComponentTypeFromString(ComponentTypeString(componentType)) == componentType
    ensures ComponentTypeFromString(s) != COMPONENT_INVALID ==> ComponentTypeString(ComponentTypeFromString(s)) == s
    ensures !(COMPONENT_VIRTUAL <= componentType <= COMPONENT_BRIDGE) ==> ComponentTypeString(componentType) == UNKNOWN
    ensures ComponentTypeFromString(UNKNOWN) == COMPONENT_INVALID && ComponentTypeFromString("virtual") == COMPONENT_INVALID
  {
  }

  // --- stream type ----------------------------------------------------------

  /** `ed247_stream_type_string`. */
  function StreamTypeString(streamType: int): string
  {
    if streamType == STREAM_A664 then "A664"
    else if streamType == STREAM_A429 then "A429"
    else if streamType == STREAM_A825 then "A825"
    else if streamType == STREAM_M1553 then "M1553"
    else if streamType == STREAM_SERIAL then "SERIAL"
    else if streamType == STREAM_AUDIO then "AUDIO"
    else if streamType == STREAM_VIDEO then "VIDEO"
    else if streamType == STREAM_ETHERNET then "ETHERNET"
    else if streamType == STREAM_ANALOG then "ANALOG"
    else if streamType == STREAM_DISCRETE then "DISCRETE"
    else if streamType == STREAM_NAD then "NAD"
    else if streamType == STREAM_VNAD then "VNAD"
    else UNKNOWN
  }

  /** `ed247_stream_type_from_string`. */
  function StreamTypeFromString(s: string): int
  {
    if s == "A664" then STREAM_A664
    else if s == "A429" then STREAM_A429
    else if s == "A825" then STREAM_A825
    else if s == "M1553" then STREAM_M1553
    else if s == "SERIAL" then STREAM_SERIAL
    else if s == "AUDIO" then STREAM_AUDIO
    else if s == "VIDEO" then STREAM_VIDEO
    else if s == "ETHERNET" then STREAM_ETHERNET
    else if s == "ANALOG" then STREAM_ANALOG
    else if s == "DISCRETE" then STREAM_DISCRETE
    else if s == "NAD" then STREAM_NAD
    else if s == "VNAD" then STREAM_VNAD
    else STREAM_INVALID
  }

  /** The stream type conversions are inverse on the twelve stream types; `__COUNT` is "Unknown". */
  lemma StreamTypeRoundTrip(streamType: int, s: string)
    ensures STREAM_A664 <= streamType <= STREAM_VNAD ==> StreamTypeFromString(StreamTypeString(streamType)) == streamType
    ensures StreamTypeFromString(s) != STREAM_INVALID ==> StreamTypeString(StreamTypeFromString(s)) == s
    ensures !(STREAM_A664 <= streamType <= STREAM_VNAD) ==> StreamTypeString(streamType) == UNKNOWN
    ensures StreamTypeFromString(UNKNOWN) == STREAM_INVALID && StreamTypeString(STREAM_COUNT) == UNKNOWN
  {
  }

  // --- signal type ----------------------------------------------------------

  /** `ed247_signal_type_string`. */
  function SignalTypeString(signalType: int): string
  {
    if signalType == SIGNAL_ANALOG then "ANALOG"
    else if signalType == SIGNAL_DISCRETE then "DISCRETE"
    else if signalType == SIGNAL_NAD then "NAD"
    else if signalType == SIGNAL_VNAD then "VNAD"
    else UNKNOWN
  }

  /** `ed247_signal_type_from_string`. */
  function SignalTypeFromString(s: string): int
  {
    if s == "ANALOG" then SIGNAL_ANALOG
    else if s == "DISCRETE" then SIGNAL_DISCRETE
    else if s == "NAD" then SIGNAL_NAD
    else if s == "VNAD" then SIGNAL_VNAD
    else SIGNAL_INVALID
  }

  predicate IsSignalType(signalType: int)
  {
    signalType == SIGNAL_ANALOG || signalType == SIGNAL_DISCRETE || signalType == SIGNAL_NAD || signalType == SIGNAL_VNAD
  }

  /**
   * The signal type conversions are inverse on the four signal types,
   * which share their names and codes with the stream types.
   */
  lemma SignalTypeRoundTrip(signalType: int, s: string)
    ensures IsSignalType(signalType) ==> SignalTypeFromString(SignalTypeString(signalType)) == signalType
    ensures SignalTypeFromString(s) != SIGNAL_INVALID ==> SignalTypeString(SignalTypeFromString(s)) == s
    ensures !IsSignalType(signalType) ==> SignalTypeString(signalType) == UNKNOWN
    ensures SignalTypeFromString(UNKNOWN) == SIGNAL_INVALID
    ensures IsSignalType(signalType) ==> SignalTypeString(signalType) == StreamTypeString(signalType)
  {
  }

  // --- NAD type -------------------------------------------------------------

  /** `ed247_nad_type_string`. */
  function NadTypeString(nadType: int): string
  {
    if nadType == NAD_INT8 then "int8"
    else if nadType == NAD_INT16 then "int16"
    else if nadType == NAD_INT32 then "int32"
    else if nadType == NAD_INT64 then "int64"
    else if nadType == NAD_UINT8 then "uint8"
    else if nadType == NAD_UINT16 then "uint16"
    else if nadType == NAD_UINT32 then "uint32"
    else if nadType == NAD_UINT64 then "uint64"
    else if nadType == NAD_FLOAT32 then "float32"
    else if nadType == NAD_FLOAT64 then "float64"
    else UNKNOWN
  }

  /** `ed247_nad_type_from_string`. */
  function NadTypeFromString(s: string): int
  {
    if s == "int8" then NAD_INT8
    else if s == "int16" then NAD_INT16
    else if s == "int32" then NAD_INT32
    else if s == "int64" then NAD_INT64
    else if s == "uint8" then NAD_UINT8
    else if s == "uint16" then NAD_UINT16
    else if s == "uint32" then NAD_UINT32
    else if s == "uint64" then NAD_UINT64
    else if s == "float32" then NAD_FLOAT32
    else if s == "float64" then NAD_FLOAT64
    else NAD_INVALID
  }

  /** The NAD type conversions are inverse on the ten element types. */
  lemma NadTypeRoundTrip(nadType: int, s: string)
    ensures NAD_INT8 <= nadType <= NAD_FLOAT64 ==> NadTypeFromString(NadTypeString(nadType)) == nadType
    ensures NadTypeFromString(s) != NAD_INVALID ==> NadTypeString(NadTypeFromString(s)) == s
    ensures !(NAD_INT8 <= nadType <= NAD_FLOAT64) ==> NadTypeString(nadType) == UNKNOWN
    ensures NadTypeFromString(UNKNOWN) == NAD_INVALID
  {
  }
}
