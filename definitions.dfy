/**
 * Ximu3Definitions.c: the settings index enumeration and the checked
 * conversion from a plain integer to it.
 *
 * The enumerator values come from a generated header that is not part of
 * this model; they are taken to be 0 to 7 in declaration order, as a C
 * enumeration without initialisers numbers them.
 */
module Definitions {

  datatype SettingsIndex =
    | SerialNumber
    | CalibrationDate
    | Offset
    | Sensitivity
    | FirmwareVersion
    | DeviceName
    | BinaryMode
    | MessageRateDivisor

  datatype Ximu3Result = ResultOk | ResultError

  /** The integer value of an enumerator. */
  function ToInt(index: SettingsIndex): (r: int)
    ensures 0 <= r < 8
  {
    match index
    case SerialNumber => 0
    case CalibrationDate => 1
    case Offset => 2
    case Sensitivity => 3
    case FirmwareVersion => 4
    case DeviceName => 5
    case BinaryMode => 6
    case MessageRateDivisor => 7
  }

  /**
   * Ximu3SettingsIndexFrom: `index` is what the caller's out-parameter held
   * before the call; the result pairs the status with what it holds after.
   */
  function IndexFrom(index: SettingsIndex, integer: int): (r: (Ximu3Result, SettingsIndex))
    ensures r.0 == ResultOk <==> 0 <= integer < 8
    ensures r.0 == ResultOk ==> ToInt(r.1) == integer
    ensures r.0 == ResultError ==> r.1 == index
  {
    if integer == ToInt(SerialNumber) then (ResultOk, SerialNumber)
    else if integer == ToInt(CalibrationDate) then (ResultOk, CalibrationDate)
    else if integer == ToInt(Offset) then (ResultOk, Offset)
    else if integer == ToInt(Sensitivity) then (ResultOk, Sensitivity)
    else if integer == ToInt(FirmwareVersion) then (ResultOk, FirmwareVersion)
    else if integer == ToInt(DeviceName) then (ResultOk, DeviceName)
    else if integer == ToInt(BinaryMode) then (ResultOk, BinaryMode)
    else if integer == ToInt(MessageRateDivisor) then (ResultOk, MessageRateDivisor)
    else (ResultError, index)
  }

  /** Converting an enumerator to its integer and back yields the same enumerator. */
  lemma IndexRoundTrip(index: SettingsIndex, previous: SettingsIndex)
    ensures IndexFrom(previous, ToInt(index)) == (ResultOk, index)
  {
  }

  /** Distinct enumerators have distinct integer values. */
  lemma ToIntInjective(a: SettingsIndex, b: SettingsIndex)
    ensures ToInt(a) == ToInt(b) ==> a == b
  {
  }

  /**
   * The buffer sizes Ximu3Definitions.h fixes for a device: a key buffer, a
   * value buffer, a whole-object (line) buffer, and the longest key name.
   * Their values are generated per device and are parameters here.
   */
  datatype Sizes = Sizes(keySize: nat, valueSize: nat, objectSize: nat, maxKeyLength: nat)

  predicate ValidSizes(sizes: Sizes) {
    sizes.keySize >= 1 && sizes.valueSize >= 1 && sizes.objectSize >= 1
  }
}
