/** Register map and value tables of the HUSB238 USB Power-Delivery sink
    controller: the register addresses, the four enumerations with their raw
    encodings (the `#[repr(u8)]` discriminants), the byte-to-enumeration
    decoding tables and the display labels. Everything here is pure. */
module Registers {

  import opened Wrappers

  /** An unsigned byte as it travels on the bus. */
  type u8 = bv8

  /** The controller's fixed 7-bit bus address. */
  const HUSB238_ADDR: u8 := 0x08

  /** Masks applied to a register byte before it is decoded. */
  const SRC_PDO_MASK: u8 := 0xF0
  const STATUS0_VOLTAGE_MASK: u8 := 0xF0
  const STATUS0_CURRENT_MASK: u8 := 0x0F

  // ---------------------------------------------------------------------
  // Registers

  /** The registers the driver addresses. `SrcPdoSel` is the PDO-select
      register (called `SrcPdo` in the driver); the six `SrcPdoNV` registers
      report whether the attached source offers that voltage rail. */
  datatype Register =
    | PdStatus0
    | SrcPdo5V | SrcPdo9V | SrcPdo12V | SrcPdo15V | SrcPdo18V | SrcPdo20V
    | SrcPdoSel
    | GoCommand

  function RegisterAddress(r: Register): (a: u8)
    ensures a <= 0x09 && a != 0x01
    ensures a == 0x00 <==> r == PdStatus0
    ensures 0x02 <= a <= 0x07 <==> IsRail(r)
  {
    match r
    case PdStatus0 => 0x00
    case SrcPdo5V => 0x02
    case SrcPdo9V => 0x03
    case SrcPdo12V => 0x04
    case SrcPdo15V => 0x05
    case SrcPdo18V => 0x06
    case SrcPdo20V => 0x07
    case SrcPdoSel => 0x08
    case GoCommand => 0x09
  }

  /** The per-rail detection registers. */
  predicate IsRail(r: Register) {
    r.SrcPdo5V? || r.SrcPdo9V? || r.SrcPdo12V? || r.SrcPdo15V? || r.SrcPdo18V? || r.SrcPdo20V?
  }

  /** Distinct registers have distinct addresses, so an address names its register. */
  lemma RegisterAddressInjective(r: Register, s: Register)
    ensures RegisterAddress(r) == RegisterAddress(s) ==> r == s
  {
  }

  // ---------------------------------------------------------------------
  // Voltage: the high nibble of PD_STATUS0

  datatype Voltage = Unattached | V5 | V9 | V12 | V15 | V18 | V20 | Reserved

  /** The raw encoding of a voltage. It always lies in the high nibble. */
  function VoltageCode(v: Voltage): (b: u8)
    ensures b & 0x0F == 0
    ensures b <= 0x70
  {
    match v
    case Unattached => 0x00
    case V5 => 0x10
    case V9 => 0x20
    case V12 => 0x30
    case V15 => 0x40
    case V18 => 0x50
    case V20 => 0x60
    case Reserved => 0x70
  }

  /** Decodes a byte into a voltage. Total: the seven defined encodings give
      their voltage back, and every other byte is `Reserved`. */
  function VoltageFrom(value: u8): (v: Voltage)
    ensures v != Reserved ==> VoltageCode(v) == value
    ensures v == Reserved ==> forall w :: w != Reserved ==> VoltageCode(w) != value
  {
    match value
    case 0x00 => Unattached
    case 0x10 => V5
    case 0x20 => V9
    case 0x30 => V12
    case 0x40 => V15
    case 0x50 => V18
    case 0x60 => V20
    case _ => Reserved
  }

  /** Decoding inverts encoding for every voltage, `Reserved` (0x70) included. */
  lemma VoltageRoundTrip(v: Voltage)
    ensures VoltageFrom(VoltageCode(v)) == v
  {
  }

  /** A voltage's display label. It ends in the unit "V" exactly when it
      names a voltage. */
  function VoltageLabel(v: Voltage): (s: string)
    ensures 2 <= |s|
    ensures s[|s| - 1] == 'V' <==> v != Unattached && v != Reserved
  {
    match v
    case Unattached => "Unattached"
    case V5 => "5V"
    case V9 => "9V"
    case V12 => "12V"
    case V15 => "15V"
    case V18 => "18V"
    case V20 => "20V"
    case Reserved => "Reserved"
  }

  /** Distinct voltages have distinct labels. */
  lemma VoltageLabelInjective(v: Voltage, w: Voltage)
    ensures VoltageLabel(v) == VoltageLabel(w) ==> v == w
  {
  }

  // ---------------------------------------------------------------------
  // Current: a 4-bit step, the low nibble of PD_STATUS0 and of the rail registers

  datatype Current =
    | A0_5 | A0_7 | A1_0 | A1_25 | A1_5 | A1_75 | A2_0 | A2_25
    | A2_5 | A2_75 | A3_0 | A3_25 | A3_5 | A4_0 | A4_5 | A5_0

  /** The raw encoding of a current step: a nibble. */
  function CurrentCode(c: Current): (b: u8)
    ensures b < 16
  {
    match c
    case A0_5 => 0x00
    case A0_7 => 0x01
    case A1_0 => 0x02
    case A1_25 => 0x03
    case A1_5 => 0x04
    case A1_75 => 0x05
    case A2_0 => 0x06
    case A2_25 => 0x07
    case A2_5 => 0x08
    case A2_75 => 0x09
    case A3_0 => 0x0A
    case A3_25 => 0x0B
    case A3_5 => 0x0C
    case A4_0 => 0x0D
    case A4_5 => 0x0E
    case A5_0 => 0x0F
  }

  /** Decodes a nibble into a current step. Any byte above 15 makes the
      driver panic (`unreachable!`), so callers must pass a nibble; every
      nibble is a defined step, and decoding inverts `CurrentCode`. */
  function CurrentFrom(value: u8): (c: Current)
    requires value < 16
    ensures CurrentCode(c) == value
  {
    match value
    case 0x00 => A0_5
    case 0x01 => A0_7
    case 0x02 => A1_0
    case 0x03 => A1_25
    case 0x04 => A1_5
    case 0x05 => A1_75
    case 0x06 => A2_0
    case 0x07 => A2_25
    case 0x08 => A2_5
    case 0x09 => A2_75
    case 0x0A => A3_0
    case 0x0B => A3_25
    case 0x0C => A3_5
    case 0x0D => A4_0
    case 0x0E => A4_5
    case 0x0F => A5_0
  }

  lemma CurrentRoundTrip(c: Current)
    ensures CurrentFrom(CurrentCode(c)) == c
  {
  }

  /** A current's display label: a decimal number of amperes with the unit "A". */
  function CurrentLabel(c: Current): (s: string)
    ensures 4 <= |s| && s[|s| - 1] == 'A'
  {
    match c
    case A0_5 => "0.5A"
    case A0_7 => "0.7A"
    case A1_0 => "1.0A"
    case A1_25 => "1.25A"
    case A1_5 => "1.5A"
    case A1_75 => "1.75A"
    case A2_0 => "2.0A"
    case A2_25 => "2.25A"
    case A2_5 => "2.5A"
    case A2_75 => "2.75A"
    case A3_0 => "3.0A"
    case A3_25 => "3.25A"
    case A3_5 => "3.5A"
    case A4_0 => "4.0A"
    case A4_5 => "4.5A"
    case A5_0 => "5.0A"
  }

  /** Distinct current steps have distinct labels. */
  lemma CurrentLabelInjective(c: Current, d: Current)
    ensures CurrentLabel(c) == CurrentLabel(d) ==> c == d
  {
  }

  // ---------------------------------------------------------------------
  // SrcPdo: the high nibble of the PDO-select register

  /** A selectable source power profile. Its 15/18/20 V encodings differ
      from those of `Voltage`: that is how the chip numbers them. */
  datatype SrcPdo = NotSelected | Pdo5V | Pdo9V | Pdo12V | Pdo15V | Pdo18V | Pdo20V | PdoReserved

  function SrcPdoCode(p: SrcPdo): (b: u8)
    ensures b & 0x0F == 0
  {
    match p
    case NotSelected => 0x00
    case Pdo5V => 0x10
    case Pdo9V => 0x20
    case Pdo12V => 0x30
    case Pdo15V => 0x80
    case Pdo18V => 0x90
    case Pdo20V => 0xA0
    case PdoReserved => 0xF0
  }

  /** Decodes a byte into a profile. Total: the seven defined encodings give
      their profile back, and every other byte is `PdoReserved`. */
  function SrcPdoFrom(value: u8): (p: SrcPdo)
    ensures p != PdoReserved ==> SrcPdoCode(p) == value
    ensures p == PdoReserved ==> forall q :: q != PdoReserved ==> SrcPdoCode(q) != value
  {
    match value
    case 0x00 => NotSelected
    case 0x10 => Pdo5V
    case 0x20 => Pdo9V
    case 0x30 => Pdo12V
    case 0x80 => Pdo15V
    case 0x90 => Pdo18V
    case 0xA0 => Pdo20V
    case _ => PdoReserved
  }

  /** Decoding inverts encoding for every profile, `PdoReserved` (0xF0) included. */
  lemma SrcPdoRoundTrip(p: SrcPdo)
    ensures SrcPdoFrom(SrcPdoCode(p)) == p
  {
  }

  /** A profile's display label. It ends in the unit "V" exactly when the
      profile selects a voltage. */
  function SrcPdoLabel(p: SrcPdo): (s: string)
    ensures 2 <= |s|
    ensures s[|s| - 1] == 'V' <==> p != NotSelected && p != PdoReserved
  {
    match p
    case NotSelected => "NotSelected"
    case Pdo5V => "5V"
    case Pdo9V => "9V"
    case Pdo12V => "12V"
    case Pdo15V => "15V"
    case Pdo18V => "18V"
    case Pdo20V => "20V"
    case PdoReserved => "Reserved"
  }

  /** Distinct profiles have distinct labels. */
  lemma SrcPdoLabelInjective(p: SrcPdo, q: SrcPdo)
    ensures SrcPdoLabel(p) == SrcPdoLabel(q) ==> p == q
  {
  }

  /** The status voltage a profile asks the source for; `NotSelected` and
      `PdoReserved` ask for none. */
  function PdoVoltage(p: SrcPdo): (v: Option<Voltage>)
    ensures v.None? <==> p == NotSelected || p == PdoReserved
    ensures v.Some? ==> v.value != Unattached && v.value != Reserved
    ensures v.Some? ==> SrcPdoLabel(p) == VoltageLabel(v.value)
  {
    match p
    case Pdo5V => Some(V5)
    case Pdo9V => Some(V9)
    case Pdo12V => Some(V12)
    case Pdo15V => Some(V15)
    case Pdo18V => Some(V18)
    case Pdo20V => Some(V20)
    case _ => None
  }

  /** The two tables agree on the 5, 9 and 12 V encodings and disagree on
      15, 18 and 20 V: decoding 0x40..0x60 as a profile gives `PdoReserved`,
      and decoding 0x80..0xA0 as a status voltage gives `Reserved`. */
  lemma PdoEncodingDiffersAbove12V(p: SrcPdo)
    requires PdoVoltage(p).Some?
    ensures SrcPdoCode(p) == VoltageCode(PdoVoltage(p).value) <==> p in {Pdo5V, Pdo9V, Pdo12V}
    ensures p in {Pdo15V, Pdo18V, Pdo20V} ==>
              SrcPdoFrom(VoltageCode(PdoVoltage(p).value)) == PdoReserved &&
              VoltageFrom(SrcPdoCode(p)) == Reserved
  {
  }

  // ---------------------------------------------------------------------
  // Command: the one-shot triggers of the GO_COMMAND register

  datatype Command = Request | GetSrcCap | HardReset

  function CommandCode(c: Command): (b: u8)
    ensures b != 0
  {
    match c
    case Request => 0x01
    case GetSrcCap => 0x04
    case HardReset => 0x10
  }

  lemma CommandCodeInjective(c: Command, d: Command)
    ensures CommandCode(c) == CommandCode(d) ==> c == d
  {
  }

  // ---------------------------------------------------------------------
  // Decimal rendering, the reference the labels are checked against

  function Digit(d: nat): (ch: char)
    requires d < 10
    ensures '0' <= ch <= '9'
  {
    (48 + d) as char
  }

  /** The decimal numeral of `n`, without leading zeros. */
  function NatText(n: nat): (s: string)
    ensures 1 <= |s|
    ensures (s[0] == '0') <==> n == 0
  {
    if n < 10 then [Digit(n)] else NatText(n / 10) + [Digit(n % 10)]
  }

  /** A numeral is made of digits only. */
  lemma {:induction false} NatTextDigits(n: nat)
    ensures forall i :: 0 <= i < |NatText(n)| ==> '0' <= NatText(n)[i] <= '9'
  {
    if n >= 10 {
      NatTextDigits(n / 10);
    }
  }

  /** An amount in hundredths written as a decimal with one fractional
      digit, or two when the hundredths digit is not zero (50 is "0.5",
      125 is "1.25", 300 is "3.0"). */
  function HundredthsText(h: nat): string {
    NatText(h / 100) + "." + Fraction(h)
  }

  /** A numeral names exactly one number. */
  lemma {:induction false} NatTextInjective(m: nat, n: nat)
    requires NatText(m) == NatText(n)
    ensures m == n
    decreases m
  {
    var a, b := NatText(m), NatText(n);
    if m < 10 && n < 10 {
      assert Digit(m) == a[0] == b[0] == Digit(n);
    } else if m < 10 || n < 10 {
      assert false;  // a one-digit numeral against a longer one
    } else {
      assert a[..|a| - 1] == NatText(m / 10);
      assert b[..|b| - 1] == NatText(n / 10);
      NatTextInjective(m / 10, n / 10);
      assert Digit(m % 10) == a[|a| - 1] == b[|b| - 1] == Digit(n % 10);
    }
  }

  /** The fractional digits of `HundredthsText(h)`. */
  function Fraction(h: nat): (f: string)
    ensures 1 <= |f| <= 2
  {
    if h % 10 == 0 then [Digit(h / 10 % 10)] else [Digit(h / 10 % 10), Digit(h % 10)]
  }

  /** The last two decimal digits of `h`, as a number. */
  lemma LastTwoDigits(h: nat)
    ensures h % 100 == 10 * (h / 10 % 10) + h % 10
  {
  }

  /** The fractional digits determine the hundredths. */
  lemma FractionInjective(h: nat, k: nat)
    requires Fraction(h) == Fraction(k)
    ensures h % 100 == k % 100
  {
    var tens, units := h / 10 % 10, h % 10;
    var tens', units' := k / 10 % 10, k % 10;
    assert Fraction(h)[0] == Digit(tens) && Fraction(k)[0] == Digit(tens');
    assert tens == tens';
    assert |Fraction(h)| == 1 <==> units == 0;
    assert |Fraction(k)| == 1 <==> units' == 0;
    if units != 0 {
      assert Fraction(h)[1] == Digit(units) && Fraction(k)[1] == Digit(units');
    }
    assert units == units';
    LastTwoDigits(h);
    LastTwoDigits(k);
  }

  /** An amount written in hundredths names exactly one amount: the digits
      before the point cannot contain the point, so both renderings split at
      the same place. */
  lemma HundredthsTextInjective(h: nat, k: nat)
    requires HundredthsText(h) == HundredthsText(k)
    ensures h == k
  {
    var p, q := NatText(h / 100), NatText(k / 100);
    NatTextDigits(h / 100);
    NatTextDigits(k / 100);
    var s := HundredthsText(h);
    assert s == p + "." + Fraction(h);
    assert s == q + "." + Fraction(k);
    // The point sits right after each numeral; had one numeral been shorter,
    // its point would face a digit of the other.
    assert s[|p|] == '.' && s[|q|] == '.';
    assert |p| == |q|;
    assert p == s[..|p|] == q;
    NatTextInjective(h / 100, k / 100);
    assert Fraction(h) == s[|p| + 1..] == Fraction(k);
    FractionInjective(h, k);
  }
}
