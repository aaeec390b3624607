/** Concrete exchanges with the controller, each against a fresh bus that
    answers with a fixed reply byte: what the driver sends and what it makes
    of the answer. */
module Scenarios {

  import opened Wrappers
  import opened Registers
  import opened Bus
  import opened Driver

  /** A transport error, for the scenarios where the bus fails. */
  datatype BusFault = Nack

  /** PDO-select register answering 0x20: the 9 V profile. */
  method ReadSrcPdoScenario() returns (r: Result<SrcPdo, BusFault>, trace: seq<Transaction>)
    ensures r == Ok(Pdo9V)
    ensures trace == [WriteRead(0x08, [0x08], 1)]
  {
    var bus := new I2c<BusFault>([0x20], None);
    var husb := new Husb238(bus);
    r := husb.GetSrcPdo();
    trace := bus.trace;
  }

  /** Selecting the 12 V profile is one write of [0x08, 0x30]. */
  method SetSrcPdoScenario() returns (r: Result<(), BusFault>, trace: seq<Transaction>)
    ensures r == Ok(())
    ensures trace == [Write(0x08, [0x08, 0x30])]
  {
    var bus := new I2c<BusFault>([], None);
    var husb := new Husb238(bus);
    r := husb.SetSrcPdo(Pdo12V);
    trace := bus.trace;
  }

  /** Requesting a new contract is one write of [0x09, 0x01]. */
  method GoCommandScenario() returns (r: Result<(), BusFault>, trace: seq<Transaction>)
    ensures r == Ok(())
    ensures trace == [Write(0x08, [0x09, 0x01])]
  {
    var bus := new I2c<BusFault>([], None);
    var husb := new Husb238(bus);
    r := husb.GoCommand(Request);
    trace := bus.trace;
  }

  /** PD_STATUS0 answering 0x58: 18 V at 2.5 A, both as enumerations and as
      numbers, each from a single write-read of register 0x00. */
  method PdStatus0Scenario()
    returns (status: Result<(Voltage, Current), BusFault>,
             actual: Result<(Option<nat>, nat), BusFault>,
             trace: seq<Transaction>)
    ensures status == Ok((V18, A2_5))
    ensures actual == Ok((Some(18), 250))
    ensures trace == [WriteRead(0x08, [0x00], 1), WriteRead(0x08, [0x00], 1)]
  {
    var bus := new I2c<BusFault>([0x58], None);
    var husb := new Husb238(bus);
    status := husb.GetPdStatus0();
    actual := husb.GetActualVoltageAndCurrent();
    trace := bus.trace;
  }

  /** A 15 V detection register with its flag clear reads as "not offered",
      whatever its low nibble holds; with the flag set and 0x3 in the low
      nibble it reads as 1.25 A offered. */
  method DetectionScenario()
    returns (absent: Result<Option<Current>, BusFault>,
             present: Result<Option<Current>, BusFault>,
             quietTrace: seq<Transaction>,
             trace: seq<Transaction>)
    ensures absent == Ok(None)
    ensures present == Ok(Some(A1_25))
    ensures quietTrace == [WriteRead(0x08, [0x05], 1)]
    ensures trace == [WriteRead(0x08, [0x05], 1)]
  {
    var quiet := new I2c<BusFault>([0x0F], None);
    var husb := new Husb238(quiet);
    absent := husb.Get15vStatus();
    quietTrace := quiet.trace;
    var bus := new I2c<BusFault>([0x83], None);
    husb := new Husb238(bus);
    present := husb.Get15vStatus();
    trace := bus.trace;
  }

  /** A failing bus: the read returns the bus's own error and nothing more
      is sent. */
  method BusFailureScenario() returns (r: Result<(Option<nat>, nat), BusFault>, trace: seq<Transaction>)
    ensures r == Err(Nack)
    ensures trace == [WriteRead(0x08, [0x00], 1)]
  {
    var bus := new I2c<BusFault>([0x58], Some(Nack));
    var husb := new Husb238(bus);
    r := husb.GetActualVoltageAndCurrent();
    trace := bus.trace;
  }

  /** The table examples: the decodings and labels of single values. */
  lemma TableExamples()
    ensures SrcPdoFrom(0x20) == Pdo9V && SrcPdoLabel(Pdo9V) == "9V"
    ensures CurrentFrom(0x06) == A2_0 && CurrentLabel(A2_0) == "2.0A"
    ensures VoltageFrom(0x50) == V18 && VoltageLabel(V18) == "18V"
    ensures SrcPdoFrom(0x40) == PdoReserved && VoltageFrom(0x40) == V15
  {
  }
}
