/** HCI command packets as the daemon puts them on the UART: the H4 packet
    indicator, then the HCI Command packet of the Bluetooth Core
    Specification, Volume 2 Part E, section 5.4.1 (a 16-bit opcode sent low
    byte first, a one-byte parameter length, the parameters). */
module Hci {
  import opened Bytes

  /** H4 indicator of a command packet: the first byte of the wire form
      01 01 10 00 shown in uim.c at line 63. */
  const HCI_COMMAND_PKT: byte := 0x01
  /** Vendor opcode of the change-speed command (defined in uim.h, which is
      not part of this model). */
  const HCI_HDR_OPCODE: u16
  /** Vendor opcode of the write-device-address command (uim.h). */
  const WRITE_BD_ADDR_OPCODE: u16
  /** HCI_Read_Local_Version_Information, the 0x1001 of the wire form 01 01 10 00. */
  const READ_LOCAL_VERSION_OPCODE: u16 := 0x1001
  /** sizeof(unsigned long) on the 32-bit target: the declared length of the
      change-speed parameters. */
  const ULONG_SIZE: byte := 4
  /** Width of the speed field of the change-speed packet. */
  const SPEED_FIELD_LEN: nat := 4
  /** sizeof(bdaddr_t). */
  const BD_ADDR_BIN_LEN: nat := 6

  /** A device address as six raw octets, b[0] first. */
  type Addr = s: seq<byte> | |s| == BD_ADDR_BIN_LEN witness [0, 0, 0, 0, 0, 0]

  /** The fields of a command packet. */
  datatype Command = Command(opcode: u16, plen: byte, params: seq<byte>)

  /** How the controller reads a command packet off the wire. */
  function ParseCommand(f: seq<byte>): Option<Command>
  {
    if |f| < 4 || f[0] != HCI_COMMAND_PKT then None
    else Some(Command(FromLe16(f[1], f[2]), f[3], f[4..]))
  }

  /** Indicator, opcode, declared length and parameters, in that order. */
  function CommandFrame(c: Command): (f: seq<byte>)
    ensures |f| == 4 + |c.params|
    ensures ParseCommand(f) == Some(c)
  {
    var f := [HCI_COMMAND_PKT] + Le16(c.opcode) + [c.plen] + c.params;
    assert f[4..] == c.params;
    f
  }

  /** Every packet the controller accepts is the frame of its own fields. */
  lemma ParseCommandExact(f: seq<byte>)
    requires ParseCommand(f).Some?
    ensures CommandFrame(ParseCommand(f).value) == f
  {
    var c := ParseCommand(f).value;
    var g := CommandFrame(c);
    assert FromLe16(g[1], g[2]) == FromLe16(f[1], f[2]);
    ModUnique(FromLe16(f[1], f[2]), 0x100, f[2], f[1]);
    ModUnique(FromLe16(g[1], g[2]), 0x100, g[2], g[1]);
    assert g == g[..4] + g[4..];
    assert f == f[..4] + f[4..];
  }

  /** The change-speed command: the baud rate in the speed field, the
      declared length sizeof(unsigned long). */
  function SpeedCommand(baud: int): (f: seq<byte>)
    ensures |f| == 4 + SPEED_FIELD_LEN
    ensures ParseCommand(f) == Some(Command(HCI_HDR_OPCODE, ULONG_SIZE, f[4..]))
  {
    CommandFrame(Command(HCI_HDR_OPCODE, ULONG_SIZE, LeBytes(baud, SPEED_FIELD_LEN)))
  }

  /** The change-speed command declares exactly the parameter bytes it
      carries (on a 32-bit target, where sizeof(unsigned long) is the speed
      field's width), and its speed field holds the baud rate modulo 2^32,
      low byte first. */
  lemma SpeedCommandFields(baud: int)
    ensures var f := SpeedCommand(baud);
      && ParseCommand(f).value.plen as nat == |f[4..]|
      && FromLe(f[4..]) == baud % Pow256(SPEED_FIELD_LEN)
  {
    var f := SpeedCommand(baud);
    LeBytesValue(baud, SPEED_FIELD_LEN);
    assert f[4..] == LeBytes(baud, SPEED_FIELD_LEN);
  }

  /** The write-address command: the six address octets as given, b[0] first. */
  function AddressCommand(a: Addr): (f: seq<byte>)
    ensures ParseCommand(f) == Some(Command(WRITE_BD_ADDR_OPCODE, BD_ADDR_BIN_LEN, a))
  {
    CommandFrame(Command(WRITE_BD_ADDR_OPCODE, BD_ADDR_BIN_LEN, a))
  }

  /** The firmware-version query sent after a speed change. */
  function VersionQuery(): (f: seq<byte>)
    ensures f == [0x01, 0x01, 0x10, 0x00]
  {
    CommandFrame(Command(READ_LOCAL_VERSION_OPCODE, 0, []))
  }
}
