/** Optional results, for lookups that the controller lets fall through. */
module Wrappers {
  datatype Option<+T> = None | Some(value: T)
}

/**
 * The DL485D4 register map: symbolic IO names to Modbus register
 * addresses (`io`) and IO-type names to one-byte configuration masks
 * (`setup_io`).
 */
module Registers {
  import opened Wrappers

  /** Outcome of resolving a symbolic name; the controller exits on an unknown one. */
  datatype Resolution = Address(address: nat) | UnknownSymbol(name: string)

  /** ASCII case folding of one character (what `str.lower` does on ASCII). */
  function LowerChar(c: char): (d: char)
    ensures 'A' <= c <= 'Z' ==> 'a' <= d <= 'z' && d as int - c as int == 32
    ensures !('A' <= c <= 'Z') ==> d == c
  {
    if 'A' <= c <= 'Z' then (c as int + 32) as char else c
  }

  function Lower(s: string): (r: string)
    ensures |r| == |s|
    ensures forall i :: 0 <= i < |s| ==> r[i] == LowerChar(s[i])
  {
    seq(|s|, i requires 0 <= i < |s| => LowerChar(s[i]))
  }

  /** The fixed symbol table of the device, keyed by lower-case name. */
  const AddressTable: map<string, nat> := map[
    "out1" := 11, "out2" := 12, "out3" := 13, "out4" := 14,
    "out1_i" := 21, "out2_i" := 22, "out3_i" := 23, "out4_i" := 24,
    "io1" := 1, "io2" := 2, "io3" := 3, "io4" := 4,
    "io5" := 5, "general" := 5, "master" := 5, "io6" := 6,
    "reset" := 97, "vin" := 98, "temp_micro" := 99
  ]

  /** The register that reboots the device when written. */
  const ResetRegister: nat := 97

  /** The address categories of the register map that `io` can reach. */
  predicate IsDigitalIo(a: int) { 1 <= a <= 6 }
  predicate IsOutput(a: int) { 11 <= a <= 14 }
  predicate IsImmediateOutput(a: int) { 21 <= a <= 24 }
  predicate IsSystem(a: int) { 97 <= a <= 99 }

  /**
   * `io`: the if/elif chain over the lower-cased name. Agrees with
   * AddressTable, and an unknown name is a failure, never an address.
   */
  function Io(name: string): (r: Resolution)
    ensures r.Address? <==> Lower(name) in AddressTable
    ensures r.Address? ==> r.address == AddressTable[Lower(name)]
    ensures r.UnknownSymbol? ==> r.name == name
  {
    var n := Lower(name);
    if n == "out1" then Address(11)
    else if n == "out2" then Address(12)
    else if n == "out3" then Address(13)
    else if n == "out4" then Address(14)
    else if n == "out1_i" then Address(21)
    else if n == "out2_i" then Address(22)
    else if n == "out3_i" then Address(23)
    else if n == "out4_i" then Address(24)
    else if n == "io1" then Address(1)
    else if n == "io2" then Address(2)
    else if n == "io3" then Address(3)
    else if n == "io4" then Address(4)
    else if n in ["io5", "general", "master"] then Address(5)
    else if n == "io6" then Address(6)
    else if n == "reset" then Address(97)
    else if n == "vin" then Address(98)
    else if n == "temp_micro" then Address(99)
    else UnknownSymbol(name)
  }

  /** Every address `io` yields lies in exactly one category of the register map. */
  lemma IoCategories(name: string)
    requires Io(name).Address?
    ensures var a := Io(name).address;
      (IsDigitalIo(a) || IsOutput(a) || IsImmediateOutput(a) || IsSystem(a)) &&
      !(IsDigitalIo(a) && IsOutput(a)) && !(IsOutput(a) && IsImmediateOutput(a)) &&
      !(IsImmediateOutput(a) && IsSystem(a)) && !(IsDigitalIo(a) && IsSystem(a)) &&
      !(IsDigitalIo(a) && IsImmediateOutput(a)) && !(IsOutput(a) && IsSystem(a))
  {
  }

  /** Names that differ only in ASCII letter case resolve alike. */
  lemma IoCaseInsensitive(a: string, b: string)
    requires Lower(a) == Lower(b)
    ensures Io(a).Address? <==> Io(b).Address?
    ensures Io(a).Address? ==> Io(a).address == Io(b).address
  {
  }

  /** A few concrete resolutions, including upper- and mixed-case spellings. */
  lemma IoExamples()
    ensures Io("OUT1") == Address(11) && Io("Out4_I") == Address(24)
    ensures Io("General") == Address(5) && Io("MASTER") == Address(5) && Io("io5") == Address(5)
    ensures Io("RESET") == Address(ResetRegister)
    ensures Io("out5") == UnknownSymbol("out5") && Io("") == UnknownSymbol("")
  {
    assert Lower("OUT1") == "out1";
    assert Lower("Out4_I") == "out4_i";
    assert Lower("General") == "general";
    assert Lower("MASTER") == "master";
    assert Lower("io5") == "io5";
    assert Lower("RESET") == "reset";
    assert Lower("out5") == "out5";
  }

  /** The configuration masks of the six IO types (case-sensitive names). */
  const IoTypeMasks: map<string, nat> := map[
    "DIGITAL_OUT" := 0x01, "DIGITAL_OUT_INVERTED" := 0x81,
    "DIGITAL_IN" := 0x00, "DIGITAL_IN_PULLUP" := 0x40,
    "ANALOG_IN" := 0x02, "DS18B20" := 0x04
  ]

  /**
   * `setup_io`: the fixed mask for each of the six IO-type names; any
   * other name falls through and yields nothing.
   */
  function SetupIo(ioType: string): (r: Option<nat>)
    ensures r.Some? <==> ioType in IoTypeMasks
    ensures r.Some? ==> r.value == IoTypeMasks[ioType] && r.value < 256
  {
    if ioType == "DIGITAL_OUT" then Some(0x01)
    else if ioType == "DIGITAL_OUT_INVERTED" then Some(0x81)
    else if ioType == "DIGITAL_IN" then Some(0x00)
    else if ioType == "DIGITAL_IN_PULLUP" then Some(0x40)
    else if ioType == "ANALOG_IN" then Some(0x02)
    else if ioType == "DS18B20" then Some(0x04)
    else None
  }

  /** Distinct IO types never share a mask, so a mask identifies its type. */
  lemma SetupIoInjective(a: string, b: string)
    requires SetupIo(a).Some? && SetupIo(b).Some?
    ensures SetupIo(a) == SetupIo(b) ==> a == b
  {
  }
}
