/** The port settings set_baud_rate and set_custom_baud_rate (uim.c lines
    195-278) leave behind. The terminal calls themselves are not modelled:
    whether each one succeeds is an input, and its effect is the flag
    arithmetic below on c_cflag, with the Linux values of the constants. */
module Termios {

  /** Character size mask and its eight-bit setting. */
  const CSIZE: bv32 := 0x30
  const CS8: bv32 := 0x30
  /** Parity enable. */
  const PARENB: bv32 := 0x100
  /** The speed code bits of c_cflag, and the code of a speed given in c_ospeed. */
  const CBAUD: bv32 := 0x100F
  const BOTHER: bv32 := 0x1000
  /** The speed code of 115200 baud. */
  const B115200: bv32 := 0x1002
  /** Hardware (RTS/CTS) flow control. */
  const CRTSCTS: bv32 := 0x8000_0000
  /** The flags the default-speed setting touches. */
  const DEFAULT_TOUCHED: bv32 := CBAUD | CSIZE | PARENB | CRTSCTS

  /** What the model follows of the port: the control flags, and the
      output speed last written through the termios2 interface. */
  datatype Port = Port(cflag: bv32, ospeed: nat)

  /** The result of a speed setting: its return value and the port after it. */
  datatype Outcome = Outcome(ret: int, port: Port)

  /** cfmakeraw on c_cflag: eight data bits, no parity; nothing else. */
  function MakeRaw(c: bv32): (r: bv32)
    ensures r & CSIZE == CS8 && r & PARENB == 0
    ensures r & !(CSIZE | PARENB) == c & !(CSIZE | PARENB)
  {
    (c & !(CSIZE | PARENB)) | CS8
  }

  /** cfsetospeed and cfsetispeed with a standard speed code: the code
      replaces the CBAUD bits; nothing else changes. */
  function SetSpeedCode(c: bv32, code: bv32): (r: bv32)
    requires code & !CBAUD == 0
    ensures r & CBAUD == code
    ensures r & !CBAUD == c & !CBAUD
  {
    (c & !CBAUD) | code
  }

  /** The flags of set_baud_rate's first tcsetattr: raw mode, then bit 0 and
      hardware flow control turned on (uim.c lines 210-213). */
  function RawFlags(c: bv32): (r: bv32)
    ensures r & 1 == 1 && r & CRTSCTS == CRTSCTS && r & CSIZE == CS8 && r & PARENB == 0
    ensures r & !(1 | CSIZE | PARENB | CRTSCTS) == c & !(1 | CSIZE | PARENB | CRTSCTS)
  {
    MakeRaw(c) | 1 | CRTSCTS
  }

  /** The flags of its second tcsetattr: the same with the speed code of
      115200 baud, which also overrides the bit 0 set before. */
  function DefaultFlags(c: bv32): (r: bv32)
    ensures r & CBAUD == B115200 && r & CRTSCTS == CRTSCTS && r & CSIZE == CS8 && r & PARENB == 0
    ensures r & !DEFAULT_TOUCHED == c & !DEFAULT_TOUCHED
  {
    SetSpeedCode(RawFlags(c), B115200)
  }

  /** set_baud_rate: fails only when the attributes cannot be read; both
      tcsetattr results are ignored (uim.c lines 218 and 223), so the port
      ends with whichever of the two settings took effect last. */
  function SetBaudRate(p: Port, getOk: bool, rawSetOk: bool, speedSetOk: bool): (o: Outcome)
    ensures o.ret == 0 || o.ret == -1
    ensures o.ret == -1 <==> !getOk
    ensures o.port.ospeed == p.ospeed
    ensures o.ret == -1 || !(rawSetOk || speedSetOk) ==> o.port == p
    ensures getOk && speedSetOk ==> o.port.cflag == DefaultFlags(p.cflag)
    ensures getOk && rawSetOk && !speedSetOk ==> o.port.cflag == RawFlags(p.cflag)
  {
    if !getOk then Outcome(-1, p)
    else if speedSetOk then Outcome(0, p.(cflag := DefaultFlags(p.cflag)))
    else if rawSetOk then Outcome(0, p.(cflag := RawFlags(p.cflag)))
    else Outcome(0, p)
  }

  /** Hardware flow control on exactly when the flow flag is non-zero
      (uim.c lines 253-256); no other flag changes. */
  function FlowFlags(c: bv32, flow: int): (r: bv32)
    ensures r & CRTSCTS != 0 <==> flow != 0
    ensures r & !CRTSCTS == c & !CRTSCTS
  {
    if flow != 0 then c | CRTSCTS else c & !CRTSCTS
  }

  /** The termios2 speed setting: the CBAUD bits replaced by BOTHER
      (uim.c lines 271-272). */
  function OtherSpeedFlags(c: bv32): (r: bv32)
    ensures r & CBAUD == BOTHER
    ensures r & !CBAUD == c & !CBAUD
  {
    SetSpeedCode(c, BOTHER)
  }

  /** speed_t is 32 bits wide: the int baud rate is stored modulo 2^32. */
  function SpeedT(baud: int): (v: nat)
    ensures v < 0x1_0000_0000
    ensures 0 <= baud < 0x1_0000_0000 ==> v == baud
  {
    baud % 0x1_0000_0000
  }

  /** What set_custom_baud_rate does once the attributes were read and set:
      the flow flag, then, when the termios2 ioctls go through, the speed
      code BOTHER with the baud rate as output speed. */
  function CustomSpeedPort(p: Port, baud: int, flow: int, ioctlOk: bool): (q: Port)
    ensures q.cflag & CRTSCTS != 0 <==> flow != 0
    ensures q.cflag & !(CRTSCTS | CBAUD) == p.cflag & !(CRTSCTS | CBAUD)
    ensures ioctlOk ==> q.cflag & CBAUD == BOTHER && q.ospeed == SpeedT(baud)
    ensures !ioctlOk ==> q.cflag & CBAUD == p.cflag & CBAUD && q.ospeed == p.ospeed
  {
    var c := FlowFlags(p.cflag, flow);
    if ioctlOk then Port(OtherSpeedFlags(c), SpeedT(baud))
    else p.(cflag := c)
  }

  /** set_custom_baud_rate: -1 exactly when the attributes cannot be read
      or set, and then the port is as it was; the ioctl results are not
      checked. */
  function SetCustomBaudRate(p: Port, baud: int, flow: int, getOk: bool, setOk: bool, ioctlOk: bool): (o: Outcome)
    ensures o.ret == 0 || o.ret == -1
    ensures o.ret == -1 <==> !getOk || !setOk
    ensures o.ret == -1 ==> o.port == p
    ensures o.ret == 0 ==> o.port == CustomSpeedPort(p, baud, flow, ioctlOk)
  {
    if !getOk || !setOk then Outcome(-1, p)
    else Outcome(0, CustomSpeedPort(p, baud, flow, ioctlOk))
  }
}
