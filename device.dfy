/** The energy storage device factory, buildEnergyStorageDevice. */
module Device {
  import opened Wrappers

  datatype Kind = SeriesRC | ParallelRC | NoName2 | NoName3

  /** A device of one kind, a missing "dim" entry (the tree's bad-path exception), or a runtime_error. */
  datatype Built = Device(kind: Kind) | MissingDim | Error(message: string)

  /** The decimal digits of n, without leading zeros. */
  function Digits(n: nat): (s: string)
    ensures |s| >= 1 && forall k :: 0 <= k < |s| ==> '0' <= s[k] <= '9'
    ensures |s| > 1 ==> s[0] != '0'
  {
    if n < 10 then [('0' as int + n) as char] else Digits(n / 10) + [('0' as int + n % 10) as char]
  }

  /** The value of a string of decimal digits. */
  function DigitsValue(s: string): int
    requires forall k :: 0 <= k < |s| ==> '0' <= s[k] <= '9'
  {
    if |s| == 0 then 0 else 10 * DigitsValue(s[..|s| - 1]) + (s[|s| - 1] as int - '0' as int)
  }

  /** Reading the digits back gives the number. */
  lemma {:induction false} DigitsRoundTrip(n: nat)
    ensures DigitsValue(Digits(n)) == n
  {
    if n >= 10 {
      DigitsRoundTrip(n / 10);
      var s := Digits(n);
      assert s[..|s| - 1] == Digits(n / 10);
    }
  }

  /** std::to_string of an int: an optional minus sign and the digits of the magnitude. */
  function IntToString(n: int): (s: string)
    ensures |s| >= 1
  {
    if n < 0 then "-" + Digits(-n) else Digits(n)
  }

  /** The inverse of IntToString. */
  function ParseInt(s: string): int
    requires |s| >= 1
  {
    if s[0] == '-' && forall k :: 1 <= k < |s| ==> '0' <= s[k] <= '9' then -DigitsValue(s[1..])
    else if forall k :: 0 <= k < |s| ==> '0' <= s[k] <= '9' then DigitsValue(s)
    else 0
  }

  lemma IntToStringRoundTrip(n: int)
    ensures ParseInt(IntToString(n)) == n
  {
    var s := IntToString(n);
    if n < 0 {
      var d := Digits(-n);
      DigitsRoundTrip(-n);
      assert s[1..] == d;
      assert forall k :: 1 <= k < |s| ==> s[k] == d[k - 1];
    } else {
      DigitsRoundTrip(n);
      assert s[0] != '-';
    }
  }

  const UnknownType: string := "unknown_type"

  /** The runtime_error for a NoName device whose dimension is neither 2 nor 3. */
  function DimMessage(dim: int): string {
    "dim=" + IntToString(dim) + " must be 2 or 3"
  }

  /** The runtime_error for an unknown device type. */
  function TypeMessage(deviceType: string): string {
    "invalid energy storage type ``" + deviceType + "''\n"
  }

  /**
   * buildEnergyStorageDevice: the "type" entry, defaulting to "unknown_type",
   * selects the device; a NoName device also reads "dim", which must be 2 or 3.
   */
  function BuildEnergyStorageDevice(deviceType: Option<string>, dim: Option<int>): (b: Built)
    ensures b.Device? <==> deviceType.Some? && (deviceType.value in {"SeriesRC", "ParallelRC"}
                                                || (deviceType.value == "NoName" && dim in {Some(2), Some(3)}))
  {
    var t := if deviceType.Some? then deviceType.value else UnknownType;
    if t == "SeriesRC" then Device(SeriesRC)
    else if t == "ParallelRC" then Device(ParallelRC)
    else if t == "NoName" then
      if dim.None? then MissingDim
      else if dim.value == 2 then Device(NoName2)
      else if dim.value == 3 then Device(NoName3)
      else Error(DimMessage(dim.value))
    else Error(TypeMessage(t))
  }

  /** The device built, as a function of the configured type and dimension, and the only inputs that build one. */
  lemma DeviceKinds(deviceType: Option<string>, dim: Option<int>)
    ensures BuildEnergyStorageDevice(deviceType, dim) == Device(SeriesRC) <==> deviceType == Some("SeriesRC")
    ensures BuildEnergyStorageDevice(deviceType, dim) == Device(ParallelRC) <==> deviceType == Some("ParallelRC")
    ensures BuildEnergyStorageDevice(deviceType, dim) == Device(NoName2) <==> deviceType == Some("NoName") && dim == Some(2)
    ensures BuildEnergyStorageDevice(deviceType, dim) == Device(NoName3) <==> deviceType == Some("NoName") && dim == Some(3)
    ensures BuildEnergyStorageDevice(deviceType, dim) == MissingDim <==> deviceType == Some("NoName") && dim.None?
  {
  }

  /** "dim" matters only for NoName. */
  lemma DimOnlyForNoName(deviceType: Option<string>, dim1: Option<int>, dim2: Option<int>)
    requires deviceType != Some("NoName")
    ensures BuildEnergyStorageDevice(deviceType, dim1) == BuildEnergyStorageDevice(deviceType, dim2)
  {
  }

  /** An unknown or missing type fails with the type in the message; a missing type reads as unknown_type. */
  lemma UnknownTypeFails(deviceType: Option<string>, dim: Option<int>)
    requires deviceType.None? || deviceType.value !in {"SeriesRC", "ParallelRC", "NoName"}
    ensures BuildEnergyStorageDevice(deviceType, dim)
         == Error(TypeMessage(if deviceType.Some? then deviceType.value else "unknown_type"))
  {
  }

  /** A bad dimension fails with a message from which the dimension can be read back. */
  lemma BadDimMessage(dim: int)
    requires dim != 2 && dim != 3
    ensures var b := BuildEnergyStorageDevice(Some("NoName"), Some(dim));
      && b.Error? && b.message == "dim=" + IntToString(dim) + " must be 2 or 3"
      && ParseInt(b.message[4..|b.message| - 15]) == dim
  {
    var m := BuildEnergyStorageDevice(Some("NoName"), Some(dim)).message;
    assert m[4..|m| - 15] == IntToString(dim);
    IntToStringRoundTrip(dim);
  }
}
