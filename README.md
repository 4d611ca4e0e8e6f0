# DL485D4 Modbus controller — Dafny model

This project models the device-control layer of the DL485D4 four-channel
LED dimmer, which is driven over Modbus RTU (class `DL485D4` in
`DL485D4_modbus.py`). The model covers these parts:

- **Register map** (`registers.dfy`, module `Registers`). `io` resolves a
  case-insensitive symbolic name to a register address, and an unknown name
  is a failure. `setup_io` maps the six IO-type names to their one-byte
  configuration masks, and any other name yields nothing (`Option.None`).
- **Conversions** (`conversion.dfy`, module `Conversion`).
  `get_temp_micro` converts on integers. `get_temp_ds18b20` converts on
  reals: a word below 2^16 divided by 16 is exact.
- **Transport** (`transport.dfy`, module `Transport`). The class `Bus`
  stands in for the minimalmodbus `Instrument` and the sleeps between
  commands. It holds the device's register store and a log of every read
  call, write call and pause, each with its outcome. The link decides
  whether a call succeeds; in the model that choice is nondeterministic,
  except that a frame the Modbus library would refuse to send is never
  acknowledged. The invariant `Bus.Valid()` says that the registers are the
  initial ones replayed through every acknowledged write in the log, and
  that every register is a 16-bit word at a 16-bit address.
- **Controller** (`device.dfy`, module `Device`). In the class `DL485D4`,
  `read`, `write`, `reboot`, `backup`, `reset` and `restore` are methods.
  Each method's postcondition gives the exact events it appends to the log
  (`ReadLog`, `WriteLog`, `BackupLog`, `ResetLog`, `RestoreLog`) and the
  resulting registers. Lemmas then say what those event sequences mean:
  which addresses are read and written, in which order, with which values,
  and which registers change.

At these points the model keeps the code's behaviour where a reader might
expect something else:

- `read` sleeps only after an answered read, not after every call. A failed
  read records its call but no pause. `write` likewise pauses only after an
  acknowledged write.
- `setup_io` returns nothing for an unknown type. It does not raise an
  error, unlike `io` for an unknown name.
- A failed `read` returns an error in place of the word. The model keeps
  this as the `ErrorText` variant of `Value`. A backup can hold such entries,
  and `restore` passes them to `write` like any other entry. That write call
  is made and recorded, but it is never acknowledged and never stored.
- `reset` and `restore` return nothing; `reset` only prints what it reads
  back. The model returns the outcomes of their calls as ghost
  out-parameters, so that the postconditions can name them.

## Model

| member | source | states |
|---|---|---|
| `Registers.Lower` | DL485D4_modbus.py:70 | lower-casing keeps the length and folds each ASCII capital to its small letter, leaving every other character alone |
| `Registers.Io` | DL485D4_modbus.py:68-107 | the name resolves to an address exactly when its lower-cased form is a key of the fixed table (out1..4 → 11..14, out1_i..out4_i → 21..24, io1..io6 → 1..6, io5/general/master → 5, reset → 97, vin → 98, temp_micro → 99), and then to that entry; any other name is an `UnknownSymbol` failure, never an address |
| `Registers.IoCategories` | DL485D4_modbus.py:68-103 | every resolved address falls in at least one category (digital IO 1-6, output 11-14, immediate output 21-24, system 97-99), and all six pairs of categories are disjoint, so it falls in exactly one |
| `Registers.IoCaseInsensitive` | DL485D4_modbus.py:68-103 | two names that differ only in letter case resolve alike |
| `Registers.IoExamples` | DL485D4_modbus.py:68-106 | upper- and mixed-case spellings resolve (OUT1 → 11, Out4_I → 24, General/MASTER/io5 → 5, RESET → 97), and out5 and the empty name fail |
| `Registers.SetupIo` | DL485D4_modbus.py:141-159 | a mask exists exactly for the six IO-type names and equals the fixed table entry (0x01, 0x81, 0x00, 0x40, 0x02, 0x04), always below 256; any other name yields none |
| `Registers.SetupIoInjective` | DL485D4_modbus.py:141-159 | no two IO types share a mask |
| `Conversion.TempMicro` | DL485D4_modbus.py:48-50 | the temperature is the one whose raw reading (temperature + 245) is the given word; `TempMicroRoundTrip` completes the inverse pair |
| `Conversion.TempMicroRoundTrip` | DL485D4_modbus.py:48-50 | the micro-temperature conversion is inverted exactly by adding back the offset 245, in both directions |
| `Conversion.TempMicroMonotonic` | DL485D4_modbus.py:48-50 | the conversion is strictly increasing, both ways, and a reading of 270 is 25 degrees |
| `Conversion.TempDs18b20` | DL485D4_modbus.py:52-57 | for every 16-bit word the result lies in [0, 32767/16], and it is always a whole number of sixteenths |
| `Conversion.Ds18b20Mirror` | DL485D4_modbus.py:52-57 | the word 65535 - d decodes to the same value as d, for every d below 32768 |
| `Conversion.Ds18b20Monotonic` | DL485D4_modbus.py:52-57 | the result increases with the word below 32768 and decreases with it from 32768 up |
| `Conversion.Ds18b20Examples` | DL485D4_modbus.py:52-57 | f(0) = 0, f(16) = 1, f(1) = 1/16, f(65535) = 0, f(32768) = 2047.9375, f(32767) = 32767/16 |
| `Transport.Bus.ReadRegister` | DL485D4_modbus.py:113 | one read call is logged with its reply, and no register changes; a word reply is the register's stored value, read from a 16-bit address, and lies in 0..65535 |
| `Transport.Bus.GenericCommand` | DL485D4_modbus.py:164-172 | one write call is logged with its frame and outcome; only a frame the library sends can be acknowledged (a word value, address in 0..65535, 0..10 decimals, value × 10^decimals in 0..65535); an acknowledged write stores that scaled word, and a failed one changes nothing; the store stays 16-bit |
| `Transport.SendableValue` | DL485D4_modbus.py:164-172 | the value of a frame the library sends is itself in 0..65535 and no larger than the scaled word, whatever the decimals |
| `Transport.Bus.Sleep` | DL485D4_modbus.py:114 | one pause of the given duration is logged, and nothing else changes |
| `Device.DL485D4.constructor` | DL485D4_modbus.py:23-37 | the node id, baud rate and port are kept as given (defaults 11, 19200, /dev/ttyUSB0), and the inter-command delay is 0.08 s |
| `Device.DL485D4.Read` | DL485D4_modbus.py:109-122 | appends exactly one read call, plus one pause of 0.08 s if and only if the read answered; registers unchanged; an answer is the register's value, a word in 0..65535 from an address in 0..65535, and a failure is returned as an error value |
| `Device.DL485D4.Write` | DL485D4_modbus.py:161-177 | appends exactly one write call with frame (6, io, command, decimalPoint, 1, 0, false), then one pause of 0.08 s if and only if it succeeded; returns true if and only if it succeeded; success implies a word command in 0..65535 at an address in 0..65535, 0..10 decimals and command × 10^decimalPoint in 0..65535, and stores that scaled word; failure leaves every register unchanged |
| `Device.DL485D4.Reboot` | DL485D4_modbus.py:124-126 | is exactly a write of 1 to register 97, the register that the name `reset` resolves to |
| `Device.DL485D4.Backup` | DL485D4_modbus.py:40-46 | returns exactly 32 pairs whose i-th address is 1000 + 100·ch + i; the log gains one read per pair in that order, and each value is that read's outcome; registers unchanged |
| `Device.DL485D4.Reset` | DL485D4_modbus.py:128-133 | the log gains, for each of the 32 block addresses in ascending order, a write of 0 and then a read of that address, whatever the outcomes; afterwards each acknowledged block address holds 0, and every other register is as before; every answered read-back equals the value its register holds at the end |
| `Device.DL485D4.Restore` | DL485D4_modbus.py:135-139 | the log gains one write per pair, in list order, none skipped; the registers are the old ones replayed through those writes |
| `Device.ReadLogCalls` | DL485D4_modbus.py:109-122 | one read is one read call carrying its address and reply, with no write call, and one pause exactly when it answered |
| `Device.WriteLogCalls` | DL485D4_modbus.py:161-177 | one write is one write call carrying its address and value, with no read call, and one pause exactly when it was acknowledged |
| `Device.ReplaySingleCalls` | DL485D4_modbus.py:161-177 | a read leaves the registers unchanged; a write changes only its own address, to its scaled word, and only when it is acknowledged with a word |
| `Device.BackupLogCalls` | DL485D4_modbus.py:40-46 | the read calls of a backup are exactly its entries, address and reply, in order; it makes no write call |
| `Device.BackupKeepsRegisters` | DL485D4_modbus.py:40-46 | a backup changes no register |
| `Device.ResetLogCalls` | DL485D4_modbus.py:128-133 | the write calls of a reset are (start + i, 0) for i = 0..31 in ascending order, even after failures, and its reads are start + i in the same order |
| `Device.ResetRegisters` | DL485D4_modbus.py:128-133 | after a reset, every acknowledged block address holds 0, and every other register (unacknowledged or outside the block) is unchanged |
| `Device.RestoreLogCalls` | DL485D4_modbus.py:135-139 | the write calls of a restore are exactly its (address, value) pairs, in order and skipping none; it makes no read call |
| `Device.BackupRestoreRoundTrip` | DL485D4_modbus.py:135-139 | restoring a backup re-issues exactly the (address, value) pairs the backup read, in the same order, including error entries |
| `Device.RestoreRegisters` | DL485D4_modbus.py:135-139 | a restore changes no register except those where an acknowledged write stored a word; an error entry or a failed write is never stored |
| `Device.RestoreStores` | DL485D4_modbus.py:135-139 | an acknowledged word entry of a restore holds its value in its register afterwards, unless a later entry writes the same address |
| `Device.BackupThenRestore` | DL485D4_modbus.py:135-139 | restoring the pairs a backup just read (distinct addresses, each word the register's value) leaves every register exactly as it was, whichever writes are acknowledged |
| `Device.BlockAvoidsNamedRegisters` | DL485D4_modbus.py:42 | the 32-register EEPROM block of a channel 0 or above never contains an address that a symbolic name resolves to |
| `Device.BlockOverlapsNamedRegisters` | DL485D4_modbus.py:42 | the block of channel -10 starts at 0, so it does contain the addresses of io1..io6, general, master, out1..out4 and out1_i..out4_i: the channel is not range-checked |

## Left out

- `get_vin` (DL485D4_modbus.py:59-66): floating-point arithmetic with the constant 930.0, which is not exact.
- Serial configuration in `__init__` (port, parity, byte size, stop bits, timeout, RTU mode, buffer clearing): this configures the external Modbus library. The model keeps only node id, baud rate, port and delay, as immutable fields, and receives the bus as a parameter.
- minimalmodbus internals (`read_register`, `_generic_command`, framing, CRC): these are replaced by `Bus`, whose calls succeed or fail nondeterministically. Of the library's argument checks for a function-code-6 write, the model keeps the ones that decide whether a frame can be acknowledged: address 0..65535, decimals 0..10, and the value times 10^decimals in 0..65535, unsigned. A command is an integer; a float command, which the library would scale and truncate, is not modelled.
- Which of the three caught exception kinds a failed read raises is chosen freely. Exceptions other than the three that `read` catches are not modelled, and neither is the text of the error strings.
- The device's own register behaviour. The store is idealised in these ways:
  - registers change only through acknowledged writes;
  - a write that the device applied but whose reply was lost (DL485D4_modbus.py:175-177) counts as not applied;
  - io1..io6, vin and temp_micro never change on their own;
  - writing 1 to register 97 stores 1; the device's reboot is not modelled.
- `time.sleep` as real time: it is only the `Pause` event, which records the requested duration (0.08 s).
- `sys.exit()` for an unknown name in `io`: modelled as the `UnknownSymbol` result, not as process termination.
- `Registers.Lower`: Python's `str.lower` folds non-ASCII letters too. This model folds only ASCII. No name in the table contains `k`, the only ASCII letter that a non-ASCII character lower-cases to on its own, so `io` resolves the same names either way.
- `Conversion.TempMicro`: takes an integer. The `int(...)` cast in the source, on a float or string argument, is not modelled.
- `print` output, the `__main__` smoke test, and the unused `backup_data` field.
