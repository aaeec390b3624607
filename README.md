# HUSB238 USB-PD sink driver, modelled in Dafny

This project models the register-level driver for the HUSB238 USB
Power-Delivery sink controller (`husb238-rs`). The controller sits at the
fixed 7-bit bus address 0x08. The driver reads the negotiated voltage and
current from PD_STATUS0 and reads which voltage rails the source offers from
the six rail registers. It reads and writes the selected source profile (the
PDO-select register) and triggers one-shot commands through GO_COMMAND.
Every read is one write-read followed by masking and table decoding. Every
write is a single two-byte write. A transport error is returned unchanged.

Files:

- `wrappers.dfy`: `Option` and `Result`.
- `registers.dfy` (module `Registers`): the register addresses. It also holds
  `Voltage`, `Current`, `SrcPdo` and `Command` with their raw encodings (the
  `#[repr(u8)]` discriminants), the `From<u8>` decoding tables, the display
  labels and the masks. A byte is `bv8`, so `&` and `|` are the source's own
  bit operations. A decimal renderer (`NatText`, `HundredthsText`) serves as
  an independent reference that the labels are checked against.
- `bus.dfy` (module `Bus`): the transport as a class `I2c<E>`. It records
  every transaction in `trace`, answers reads with the bytes in `reply` and
  fails every transaction with `fault` when that is set. `E` is the
  transport's own error type.
- `driver.dfy` (module `Driver`): the pure decoding steps (`DecodeStatus`,
  `DecodeSrcPdo`, `DecodeDetection`) and the numeric readings (`Volts`,
  `CentiAmps`). It also holds the class `Husb238<E>`, with one method per
  driver method. Each method is proved to append exactly one transaction to
  the bus trace. Each read is proved to return the bus's error or the
  decoding of the reply byte; each write returns the bus's outcome.
- `scenarios.dfy` (module `Scenarios`): concrete exchanges, each set up on a
  fresh bus. Four reproduce the exchanges of the repository's tests
  (tests/basic.rs); `DetectionScenario` exercises the rail registers
  (src/lib.rs:283-295) and `BusFailureScenario` the error path
  (src/lib.rs:211-212). `TableExamples` holds the table examples.

`Current::from` panics (`unreachable!`) on any byte above 15. The model gives
`CurrentFrom` the precondition `value < 16`. Dafny checks this precondition at
every call site. The call sites all pass `b & 0x0F`, so the verified model
shows that the driver never reaches the panic.

Two properties of the decoding tables shape the model:

- `Voltage::from` matches whole bytes, so 0x51 decodes to `Reserved`. Only
  the driver's 0xF0 mask makes it a nibble decode (src/lib.rs:41-49, 256).
  `VoltageFrom` is modelled on whole bytes, and `DecodeStatus` applies the
  mask.
- `Current::from` is partial: it panics above 15 (src/lib.rs:110).

## Model

| member | source | states |
|---|---|---|
| `Registers.RegisterAddress` | src/lib.rs:11-23 | register addresses are at most 0x09 and never 0x01; address 0x00 is PD_STATUS0 exactly, and 0x02..0x07 are exactly the six rail registers |
| `Registers.RegisterAddressInjective` | src/lib.rs:11-23 | distinct registers have distinct addresses |
| `Registers.VoltageCode` | src/lib.rs:25-37 | every voltage encoding has a zero low nibble and is at most 0x70 |
| `Registers.VoltageFrom` | src/lib.rs:39-52 | total decode: a non-`Reserved` result is the voltage whose encoding is the input byte; a `Reserved` result means that no defined voltage is encoded by that byte |
| `Registers.VoltageRoundTrip` | src/lib.rs:28-52 | decoding a voltage's encoding gives that voltage back, including `Reserved` = 0x70 |
| `Registers.VoltageLabelInjective` | src/lib.rs:54-67 | distinct voltages have distinct labels |
| `Registers.VoltageLabel` | src/lib.rs:54-67 | the label ends in "V" exactly when it names a voltage (not `Unattached` or `Reserved`); `Driver.Volts` pins each such label to its number of volts, and `VoltageLabelInjective` makes the labels distinct |
| `Registers.CurrentCode` | src/lib.rs:69-89 | every current encoding is a nibble (below 16) |
| `Registers.CurrentFrom` | src/lib.rs:91-113 | defined only below 16 (the panic arm is the precondition); the result is the current step whose encoding is the input |
| `Registers.CurrentRoundTrip` | src/lib.rs:72-113 | decoding a current's encoding gives that current back |
| `Registers.CurrentLabel` | src/lib.rs:115-136 | every label ends in the unit "A"; `Driver.CurrentLabelIsAmps` pins each label to its value in amperes, written in decimal |
| `Registers.CurrentLabelInjective` | src/lib.rs:115-136 | distinct current steps have distinct labels |
| `Registers.SrcPdoCode` | src/lib.rs:138-150 | every profile encoding has a zero low nibble |
| `Registers.SrcPdoFrom` | src/lib.rs:152-165 | total decode: a non-`PdoReserved` result is the profile whose encoding is the input byte; a `PdoReserved` result means that no defined profile is encoded by that byte |
| `Registers.SrcPdoRoundTrip` | src/lib.rs:141-165 | decoding a profile's encoding gives that profile back, including `PdoReserved` = 0xF0 |
| `Registers.SrcPdoLabelInjective` | src/lib.rs:167-180 | distinct profiles have distinct labels |
| `Registers.SrcPdoLabel` | src/lib.rs:167-180 | the label ends in "V" exactly when the profile selects a voltage; `PdoVoltage` pins each such label to the label of the voltage it selects |
| `Registers.PdoVoltage` | src/lib.rs:167-180 | exactly `NotSelected` and `PdoReserved` select no voltage; every other profile selects an attached, non-reserved voltage whose label is the profile's label |
| `Registers.PdoEncodingDiffersAbove12V` | src/lib.rs:141-165 | the profile and status encodings agree exactly on 5, 9 and 12 V; for 15, 18 and 20 V the status encoding decodes to `PdoReserved` as a profile, and the profile encoding decodes to `Reserved` as a voltage |
| `Registers.CommandCode` | src/lib.rs:186-191 | no command encodes as 0 |
| `Registers.CommandCodeInjective` | src/lib.rs:186-191 | distinct commands have distinct encodings |
| `Registers.NatTextInjective` | src/lib.rs:54-67 | the decimal numerals used to check the voltage labels name exactly one number |
| `Registers.HundredthsTextInjective` | src/lib.rs:115-136 | the decimal rendering used to check the current labels names exactly one amount |
| `Driver.DecodeStatus` | src/lib.rs:255-258 | the voltage is `Reserved` exactly when the byte is at least 0x70, and otherwise it is the voltage encoded by the high nibble; the current is the one encoded by the low nibble; decoding never panics |
| `Driver.StatusRoundTrip` | src/lib.rs:248-259 | a status byte built from any voltage and current decodes back to that pair |
| `Driver.DecodeSrcPdo` | src/lib.rs:268 | the high nibble is decoded with the profile table: `PdoReserved` exactly for the bytes 0x40..0x7F and 0xB0..0xFF, and otherwise the profile encoded by the high nibble |
| `Driver.DecodeDetection` | src/lib.rs:290-294 | `None` exactly when bit 7 is clear; otherwise the current encoded by the low nibble |
| `Driver.DetectionIgnoresBits4To6` | src/lib.rs:290-294 | changing bits 4 to 6 of a rail register never changes the result |
| `Driver.Volts` | src/lib.rs:214-222 | `None` exactly for `Unattached` and `Reserved`; otherwise between 5 and 20 volts, and the voltage's label is that number followed by "V" |
| `Driver.CentiAmps` | src/lib.rs:224-241 | the current lies between 0.5 A and 5.0 A (50 to 500 hundredths) |
| `Driver.CurrentLabelIsAmps` | src/lib.rs:115-136 | each current's label is its value in amperes written in decimal, followed by "A" |
| `Driver.VoltsFromLabel` | src/lib.rs:54-67 | a voltage label of the form "<n>V" determines the reading: the voltage is `n` volts |
| `Driver.CentiAmpsFromLabel` | src/lib.rs:115-136 | a current label of the form "<amount>A" determines the reading: the current is that amount in hundredths of an ampere |
| `Driver.CentiAmpsIncreasing` | src/lib.rs:224-241 | the current is strictly increasing in the raw nibble |
| `Driver.Husb238.constructor` | src/lib.rs:205-207 | the driver owns the given bus |
| `Driver.Husb238.GetPdStatus0` | src/lib.rs:248-259 | exactly one write-read of [0x00] reading 1 byte from 0x08 is added to the trace; the result is the bus error when the bus fails, and otherwise `DecodeStatus` of the reply byte |
| `Driver.Husb238.GetActualVoltageAndCurrent` | src/lib.rs:211-244 | the same single transaction as `GetPdStatus0`; on success the result is `Volts` and `CentiAmps` of the decoded status, and otherwise the bus error |
| `Driver.Husb238.GetSrcPdo` | src/lib.rs:261-269 | exactly one write-read of [0x08] reading 1 byte; the result is the bus error or `DecodeSrcPdo` of the reply byte |
| `Driver.Husb238.SetSrcPdo` | src/lib.rs:271-275 | exactly one write of [0x08, encoding of the profile]; the result is the bus's outcome |
| `Driver.Husb238.GoCommand` | src/lib.rs:277-281 | exactly one write of [0x09, encoding of the command]; the result is the bus's outcome |
| `Driver.Husb238.GetDetectionStatus` | src/lib.rs:283-295 | exactly one write-read of [the register's address] reading 1 byte; the result is the bus error or `DecodeDetection` of the reply byte |
| `Driver.Husb238.Get5vStatus` | src/lib.rs:297-300 | reads register 0x02 as a detection register |
| `Driver.Husb238.Get9vStatus` | src/lib.rs:302-305 | reads register 0x03 as a detection register |
| `Driver.Husb238.Get12vStatus` | src/lib.rs:307-310 | reads register 0x04 as a detection register |
| `Driver.Husb238.Get15vStatus` | src/lib.rs:312-315 | reads register 0x05 as a detection register |
| `Driver.Husb238.Get18vStatus` | src/lib.rs:317-320 | reads register 0x06 as a detection register |
| `Driver.Husb238.Get20vStatus` | src/lib.rs:322-325 | reads register 0x07 as a detection register |
| `Scenarios.ReadSrcPdoScenario` | tests/basic.rs:6-20 | a reply of 0x20 reads as the 9 V profile after one write-read of [0x08] |
| `Scenarios.SetSrcPdoScenario` | tests/basic.rs:22-34 | selecting 12 V is one write of [0x08, 0x30] |
| `Scenarios.GoCommandScenario` | tests/basic.rs:36-48 | `Request` is one write of [0x09, 0x01] |
| `Scenarios.PdStatus0Scenario` | tests/basic.rs:50-80 | a reply of 0x58 reads as (18 V, 2.5 A), which is 18 volts and 250 hundredths; each read is one write-read of [0x00] |
| `Scenarios.DetectionScenario` | src/lib.rs:283-295 | a rail register reading 0x0F (flag clear) gives `None`; one reading 0x83 gives 1.25 A; each read is one write-read of [0x05] on its own bus |
| `Scenarios.BusFailureScenario` | src/lib.rs:211-212 | on a failing bus the reading returns the bus's own error, and only the one transaction is issued |
| `Scenarios.TableExamples` | tests/basic.rs:82-116 | 0x20 decodes to the 9 V profile labelled "9V"; 0x06 decodes to 2.0 A labelled "2.0A"; 0x50 decodes to 18 V labelled "18V"; 0x40 is a reserved profile but a 15 V status |

## Left out

- The asynchronous build. The source generates a blocking and an
  asynchronous variant from one definition. Only the blocking one is
  modelled, because the suspension points change no byte on the bus and no
  result.
- The real transport (`embedded_hal` / `embedded_hal_async` `I2c`) is
  platform code. `Bus.I2c` stands in for it. It replies with configured bytes
  (0xFF for any byte beyond them) and fails with a configured error. Timing,
  NACK detection and arbitration are not modelled.
- `f64` readings. Volts are whole numbers and amperes are whole hundredths.
  Every value in the source's tables is exact in these units.
- The `Debug` and `defmt::Format` derives. They are display plumbing. The
  labels themselves are modelled.
- `Register::PdStatus1`. No driver method reads or writes it.
- `HUSB238_ADDR`'s type `SevenBitAddress` is modelled as a plain byte (0x08).
