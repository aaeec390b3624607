/** The HUSB238 driver: each operation builds one register-address byte and
    performs a single transaction with the controller at address 0x08. A
    read masks the reply byte and decodes it; a write returns the bus's
    outcome. Either way a transport error is forwarded unchanged.
    The decoding steps and the numeric readings are pure functions here;
    the methods of `Husb238` are proved against them. */
module Driver {

  import opened Wrappers
  import opened Registers
  import opened Bus

  // ---------------------------------------------------------------------
  // Decoding the reply bytes

  /** PD_STATUS0: the high nibble is the negotiated voltage, the low nibble
      the negotiated current. Never fails: the current is decoded from a
      masked nibble, so `CurrentFrom` cannot be handed a byte above 15. */
  function DecodeStatus(b: u8): (r: (Voltage, Current))
    ensures r.0 == Reserved <==> b >= 0x70
    ensures r.0 != Reserved ==> VoltageCode(r.0) == b & 0xF0
    ensures CurrentCode(r.1) == b & 0x0F
  {
    (VoltageFrom(b & STATUS0_VOLTAGE_MASK), CurrentFrom(b & STATUS0_CURRENT_MASK))
  }

  /** Encoding a voltage and a current into the two nibbles of PD_STATUS0
      and decoding the byte gives both back. */
  lemma StatusRoundTrip(v: Voltage, c: Current)
    ensures DecodeStatus(VoltageCode(v) | CurrentCode(c)) == (v, c)
  {
  }

  /** The PDO-select register: only the high nibble is decoded, with the
      profile table. */
  function DecodeSrcPdo(b: u8): (p: SrcPdo)
    ensures p != PdoReserved ==> SrcPdoCode(p) == b & 0xF0
    ensures p == PdoReserved <==> 0x40 <= b < 0x80 || 0xB0 <= b
  {
    SrcPdoFrom(b & SRC_PDO_MASK)
  }

  /** A rail detection register: bit 7 says whether the source offers the
      rail; if it does, the low nibble is the current it offers there. */
  function DecodeDetection(b: u8): (r: Option<Current>)
    ensures r.None? <==> b & 0x80 == 0
    ensures r.Some? ==> CurrentCode(r.value) == b & 0x0F
  {
    if b & 0x80 != 0 then Some(CurrentFrom(b & 0x0F)) else None
  }

  /** Bits 4 to 6 of a detection register never affect the result. */
  lemma DetectionIgnoresBits4To6(b: u8, junk: u8)
    ensures DecodeDetection(b) == DecodeDetection((b & 0x8F) | (junk & 0x70))
  {
  }

  // ---------------------------------------------------------------------
  // Numeric readings: volts as whole numbers, amperes in hundredths

  /** The voltage in volts, or `None` when nothing is attached or the value
      is reserved. It agrees with the voltage's label. */
  function Volts(v: Voltage): (r: Option<nat>)
    ensures r.None? <==> v == Unattached || v == Reserved
    ensures r.Some? ==> 5 <= r.value <= 20
    ensures r.Some? ==> VoltageLabel(v) == NatText(r.value) + "V"
  {
    match v
    case V5 => Some(5)
    case V9 => Some(9)
    case V12 => Some(12)
    case V15 => Some(15)
    case V18 => Some(18)
    case V20 => Some(20)
    case _ => None
  }

  /** The current in hundredths of an ampere, from 0.5 A to 5.0 A. */
  function CentiAmps(c: Current): (r: nat)
    ensures 50 <= r <= 500
  {
    match c
    case A0_5 => 50
    case A0_7 => 70
    case A1_0 => 100
    case A1_25 => 125
    case A1_5 => 150
    case A1_75 => 175
    case A2_0 => 200
    case A2_25 => 225
    case A2_5 => 250
    case A2_75 => 275
    case A3_0 => 300
    case A3_25 => 325
    case A3_5 => 350
    case A4_0 => 400
    case A4_5 => 450
    case A5_0 => 500
  }

  /** A current's label is its value in amperes, written out in decimal. */
  lemma CurrentLabelIsAmps(c: Current)
    ensures CurrentLabel(c) == HundredthsText(CentiAmps(c)) + "A"
  {
    if CurrentCode(c) < 8 {
      CurrentLabelIsAmpsBelow2_5(c);
    } else {
      CurrentLabelIsAmpsFrom2_5(c);
    }
  }

  // The two halves below are separate lemmas only to keep each proof
  // obligation small: stated over all sixteen steps at once, the solver's
  // cost comes close to the resource limit.

  lemma CurrentLabelIsAmpsBelow2_5(c: Current)
    requires CurrentCode(c) < 8
    ensures CurrentLabel(c) == HundredthsText(CentiAmps(c)) + "A"
  {
  }

  lemma CurrentLabelIsAmpsFrom2_5(c: Current)
    requires CurrentCode(c) >= 8
    ensures CurrentLabel(c) == HundredthsText(CentiAmps(c)) + "A"
  {
  }

  /** A voltage label determines the voltage in volts. */
  lemma VoltsFromLabel(v: Voltage, n: nat)
    requires VoltageLabel(v) == NatText(n) + "V"
    ensures Volts(v) == Some(n)
  {
    var s := VoltageLabel(v);
    assert s[|s| - 1] == 'V';
    var m := Volts(v).value;
    assert NatText(m) == s[..|s| - 1] == NatText(n);
    NatTextInjective(m, n);
  }

  /** A current label determines the current in hundredths of an ampere. */
  lemma CentiAmpsFromLabel(c: Current, h: nat)
    requires CurrentLabel(c) == HundredthsText(h) + "A"
    ensures CentiAmps(c) == h
  {
    var s := CurrentLabel(c);
    CurrentLabelIsAmps(c);
    assert HundredthsText(CentiAmps(c)) == s[..|s| - 1] == HundredthsText(h);
    HundredthsTextInjective(CentiAmps(c), h);
  }

  /** The current is strictly increasing in the raw nibble. */
  lemma CentiAmpsIncreasing(i: u8, j: u8)
    requires i < j < 16
    ensures CentiAmps(CurrentFrom(i)) < CentiAmps(CurrentFrom(j))
  {
  }

  // ---------------------------------------------------------------------
  // The driver

  class Husb238<E> {
    /** The bus the driver owns for its whole life. */
    const i2c: I2c<E>

    constructor (i2c: I2c<E>)
      ensures this.i2c == i2c
    {
      this.i2c := i2c;
    }

    /** The byte a one-byte read delivers in the bus's current configuration. */
    function ReplyByte(): u8
      reads i2c
    {
      Clocked(i2c.reply, 1)[0]
    }

    /** Reads PD_STATUS0 and decodes it into the negotiated voltage and current. */
    method GetPdStatus0() returns (r: Result<(Voltage, Current), E>)
      modifies i2c`trace
      ensures i2c.trace == old(i2c.trace) + [WriteRead(HUSB238_ADDR, [0x00], 1)]
      ensures r == if i2c.fault.Some? then Err(i2c.fault.value) else Ok(DecodeStatus(ReplyByte()))
    {
      var buf := new u8[1];
      var res := i2c.WriteRead(HUSB238_ADDR, [RegisterAddress(PdStatus0)], buf);
      if res.Err? {
        return Err(res.error);
      }
      r := Ok((VoltageFrom(buf[0] & STATUS0_VOLTAGE_MASK), CurrentFrom(buf[0] & STATUS0_CURRENT_MASK)));
    }

    /** The same single transaction as `GetPdStatus0`, with the reading
        converted to volts and hundredths of an ampere. */
    method GetActualVoltageAndCurrent() returns (r: Result<(Option<nat>, nat), E>)
      modifies i2c`trace
      ensures i2c.trace == old(i2c.trace) + [WriteRead(HUSB238_ADDR, [0x00], 1)]
      ensures r == if i2c.fault.Some? then Err(i2c.fault.value)
                   else Ok((Volts(DecodeStatus(ReplyByte()).0), CentiAmps(DecodeStatus(ReplyByte()).1)))
    {
      var status := GetPdStatus0();
      if status.Err? {
        return Err(status.error);
      }
      var (voltage, current) := status.value;
      r := Ok((Volts(voltage), CentiAmps(current)));
    }

    /** Reads the PDO-select register and decodes its high nibble as a profile. */
    method GetSrcPdo() returns (r: Result<SrcPdo, E>)
      modifies i2c`trace
      ensures i2c.trace == old(i2c.trace) + [WriteRead(HUSB238_ADDR, [0x08], 1)]
      ensures r == if i2c.fault.Some? then Err(i2c.fault.value) else Ok(DecodeSrcPdo(ReplyByte()))
    {
      var buf := new u8[1];
      var res := i2c.WriteRead(HUSB238_ADDR, [RegisterAddress(SrcPdoSel)], buf);
      if res.Err? {
        return Err(res.error);
      }
      r := Ok(SrcPdoFrom(buf[0] & SRC_PDO_MASK));
    }

    /** Writes a profile's encoding to the PDO-select register. */
    method SetSrcPdo(p: SrcPdo) returns (r: Result<(), E>)
      modifies i2c`trace
      ensures i2c.trace == old(i2c.trace) + [Write(HUSB238_ADDR, [0x08, SrcPdoCode(p)])]
      ensures r == if i2c.fault.Some? then Err(i2c.fault.value) else Ok(())
    {
      r := i2c.Write(HUSB238_ADDR, [RegisterAddress(SrcPdoSel), SrcPdoCode(p)]);
    }

    /** Writes a command's encoding to the GO_COMMAND register. */
    method GoCommand(c: Command) returns (r: Result<(), E>)
      modifies i2c`trace
      ensures i2c.trace == old(i2c.trace) + [Write(HUSB238_ADDR, [0x09, CommandCode(c)])]
      ensures r == if i2c.fault.Some? then Err(i2c.fault.value) else Ok(())
    {
      r := i2c.Write(HUSB238_ADDR, [RegisterAddress(Register.GoCommand), CommandCode(c)]);
    }

    /** Reads register `src` and decodes it as a rail detection register. */
    method GetDetectionStatus(src: Register) returns (r: Result<Option<Current>, E>)
      modifies i2c`trace
      ensures i2c.trace == old(i2c.trace) + [WriteRead(HUSB238_ADDR, [RegisterAddress(src)], 1)]
      ensures r == if i2c.fault.Some? then Err(i2c.fault.value) else Ok(DecodeDetection(ReplyByte()))
    {
      var buf := new u8[1];
      var res := i2c.WriteRead(HUSB238_ADDR, [RegisterAddress(src)], buf);
      if res.Err? {
        return Err(res.error);
      }
      if buf[0] & 0x80 != 0 {
        r := Ok(Some(CurrentFrom(buf[0] & 0x0F)));
      } else {
        r := Ok(None);
      }
    }

    method Get5vStatus() returns (r: Result<Option<Current>, E>)
      modifies i2c`trace
      ensures i2c.trace == old(i2c.trace) + [WriteRead(HUSB238_ADDR, [0x02], 1)]
      ensures r == if i2c.fault.Some? then Err(i2c.fault.value) else Ok(DecodeDetection(ReplyByte()))
    {
      r := GetDetectionStatus(SrcPdo5V);
    }

    method Get9vStatus() returns (r: Result<Option<Current>, E>)
      modifies i2c`trace
      ensures i2c.trace == old(i2c.trace) + [WriteRead(HUSB238_ADDR, [0x03], 1)]
      ensures r == if i2c.fault.Some? then Err(i2c.fault.value) else Ok(DecodeDetection(ReplyByte()))
    {
      r := GetDetectionStatus(SrcPdo9V);
    }

    method Get12vStatus() returns (r: Result<Option<Current>, E>)
      modifies i2c`trace
      ensures i2c.trace == old(i2c.trace) + [WriteRead(HUSB238_ADDR, [0x04], 1)]
      ensures r == if i2c.fault.Some? then Err(i2c.fault.value) else Ok(DecodeDetection(ReplyByte()))
    {
      r := GetDetectionStatus(SrcPdo12V);
    }

    method Get15vStatus() returns (r: Result<Option<Current>, E>)
      modifies i2c`trace
      ensures i2c.trace == old(i2c.trace) + [WriteRead(HUSB238_ADDR, [0x05], 1)]
      ensures r == if i2c.fault.Some? then Err(i2c.fault.value) else Ok(DecodeDetection(ReplyByte()))
    {
      r := GetDetectionStatus(SrcPdo15V);
    }

    method Get18vStatus() returns (r: Result<Option<Current>, E>)
      modifies i2c`trace
      ensures i2c.trace == old(i2c.trace) + [WriteRead(HUSB238_ADDR, [0x06], 1)]
      ensures r == if i2c.fault.Some? then Err(i2c.fault.value) else Ok(DecodeDetection(ReplyByte()))
    {
      r := GetDetectionStatus(SrcPdo18V);
    }

    method Get20vStatus() returns (r: Result<Option<Current>, E>)
      modifies i2c`trace
      ensures i2c.trace == old(i2c.trace) + [WriteRead(HUSB238_ADDR, [0x07], 1)]
      ensures r == if i2c.fault.Some? then Err(i2c.fault.value) else Ok(DecodeDetection(ReplyByte()))
    {
      r := GetDetectionStatus(SrcPdo20V);
    }
  }
}
