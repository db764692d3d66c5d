/** The uim daemon (uim.c lines 284-455 and 489-606): on each change of the
    install entry of the shared-transport driver it configures the UART and
    installs the line discipline, or closes the UART again. */
module Daemon {
  import opened Bytes
  import opened Hci
  import opened EventReader
  import opened CommandComplete
  import opened Termios
  import opened Address

  /** The shared-transport line discipline (uim.h). */
  const N_TI_WL: int
  /** The speed set_baud_rate leaves the UART at. */
  const DEFAULT_BAUD: int := 115200
  /** The install entry's value that asks for the line discipline. */
  const INSTALL: char := '1'

  /** The three values read from sysfs (lines 297-341): the UART's device
      name, the baud rate and the flow-control flag. */
  datatype Sysfs = Sysfs(devName: string, baud: int, flow: int)

  /** What the system answers during one st_uart_config call. */
  datatype Env = Env(
    sysfs: Option<Sysfs>,     // None: a sysfs file could not be opened or read
    devOpens: bool,           // open of the UART
    getOk: bool,              // tcgetattr in set_baud_rate
    rawSetOk: bool,           // its first tcsetattr (result ignored)
    speedSetOk: bool,         // its second tcsetattr (result ignored)
    speedWriteOk: bool,       // write of the change-speed command
    customGetOk: bool,        // tcgetattr in set_custom_baud_rate
    customSetOk: bool,        // its tcsetattr
    ioctlOk: bool,            // its TCGETS2 and TCSETS2 (results ignored)
    addrWriteOk: bool,        // write of the write-address command
    versionWriteOk: bool,     // write of the version query (result ignored)
    ldiscOk: bool,            // TIOCSETD
    link: seq<ReadOutcome>,         // what the controller sends back after the change-speed command
    addressLink: seq<ReadOutcome>)  // what it sends back after the write-address command; the
                                    // tcflush calls of set_custom_baud_rate (lines 245 and 267)
                                    // drop whatever was still unread before it

  /** The calls st_uart_config makes on the UART, in order. */
  datatype Step =
    | OpenDevice(name: string)
    | DefaultSpeed
    | NonBlocking
    | Write(frame: seq<byte>)
    | AwaitComplete(op: u16)
    | CustomSpeed(baud: int, flow: int)
    | SetDiscipline(ldisc: int)
    | CloseDevice

  /** The UART as the daemon leaves it: whether dev_fd is open, its
      settings, whether it is non-blocking, its line discipline and the
      command frames the controller has been sent. */
  datatype Dev = Dev(open: bool, port: Port, nonBlocking: bool, discipline: int, sent: seq<seq<byte>>)

  /** The result of st_uart_config or of one of its stages: the return
      value, the calls made and the UART after them. */
  datatype Config = Config(ret: int, steps: seq<Step>, dev: Dev)

  // ----- the calls a successful install makes -----

  /** The version query and the line discipline (lines 434-446). */
  function VersionSchedule(): seq<Step>
  {
    [Write(VersionQuery()), SetDiscipline(N_TI_WL)]
  }

  /** The write-address exchange, only with an address (lines 403-432). */
  function AddressSchedule(bdAddr: Option<Addr>): seq<Step>
  {
    match bdAddr
    case None => VersionSchedule()
    case Some(a) => [Write(AddressCommand(a)), AwaitComplete(WRITE_BD_ADDR_OPCODE)] + VersionSchedule()
  }

  /** The change-speed exchange and the host-side speed (lines 365-400). */
  function SpeedSchedule(cfg: Sysfs, bdAddr: Option<Addr>): seq<Step>
  {
    [Write(SpeedCommand(cfg.baud)), AwaitComplete(HCI_HDR_OPCODE), CustomSpeed(cfg.baud, cfg.flow)]
    + AddressSchedule(bdAddr)
  }

  /** Every install run that succeeds makes these calls, in this order:
      commands go to the controller only when the baud rate is not the
      default, and the line discipline is installed last. */
  function Schedule(cfg: Sysfs, bdAddr: Option<Addr>): seq<Step>
  {
    [OpenDevice(cfg.devName), DefaultSpeed, NonBlocking]
    + (if cfg.baud == DEFAULT_BAUD then [SetDiscipline(N_TI_WL)] else SpeedSchedule(cfg, bdAddr))
  }

  // ----- what st_uart_config does -----

  /** A failure after the open: dev_fd is closed and -1 returned. */
  function Fail(d: Dev): Config
  {
    Config(-1, [CloseDevice], d.(open := false))
  }

  /** A stage that first makes the calls pre. */
  function Prefixed(pre: seq<Step>, c: Config): Config
  {
    c.(steps := pre + c.steps)
  }

  /** TIOCSETD with N_TI_WL (lines 441-446). */
  function DisciplineStage(e: Env, d: Dev): Config
  {
    Prefixed([SetDiscipline(N_TI_WL)],
      if e.ldiscOk then Config(0, [], d.(discipline := N_TI_WL)) else Fail(d))
  }

  /** read_firmware_version (lines 59-73, called at line 434): the version
      query is written and its result not checked. */
  function VersionStage(e: Env, d: Dev): Config
  {
    var q := VersionQuery();
    Prefixed([Write(q)], DisciplineStage(e, d.(sent := d.sent + if e.versionWriteOk then [q] else [])))
  }

  /** Whether the controller completes the change-speed command, and then
      the write-address command. */
  datatype Acks = Acks(speed: bool, address: bool)

  /** The two replies (lines 387 and 424). set_custom_baud_rate flushes the
      UART's input in between, so the write-address reply is read from what
      arrives after the flush, not from what the first reply left. */
  function AcksOf(e: Env): (a: Acks)
    ensures a.speed || a.address ==> HCI_EVENT_PKT == RESP_PREFIX
  {
    Acks(AwaitCompletion(e.link, HCI_HDR_OPCODE).ok, AwaitCompletion(e.addressLink, WRITE_BD_ADDR_OPCODE).ok)
  }

  /** The write-address exchange; ack: whether its reply completes it. */
  function AddressStage(a: Addr, e: Env, ack: bool, d: Dev): Config
  {
    var cmd := AddressCommand(a);
    var d1 := d.(sent := d.sent + [cmd]);
    Prefixed([Write(cmd)],
      if !e.addrWriteOk then Fail(d)
      else Prefixed([AwaitComplete(WRITE_BD_ADDR_OPCODE)],
        if ack then VersionStage(e, d1) else Fail(d1)))
  }

  /** set_custom_baud_rate, then the address exchange when there is an
      address. */
  function HostSpeedStage(cfg: Sysfs, e: Env, bdAddr: Option<Addr>, addressAck: bool, d: Dev): Config
  {
    var cs := SetCustomBaudRate(d.port, cfg.baud, cfg.flow, e.customGetOk, e.customSetOk, e.ioctlOk);
    var d1 := d.(port := cs.port);
    Prefixed([CustomSpeed(cfg.baud, cfg.flow)],
      if cs.ret < 0 then Fail(d1)
      else match bdAddr
        case None => VersionStage(e, d1)
        case Some(a) => AddressStage(a, e, addressAck, d1))
  }

  /** The change-speed exchange, then the host-side speed. */
  function SpeedStage(cfg: Sysfs, e: Env, bdAddr: Option<Addr>, acks: Acks, d: Dev): Config
  {
    var cmd := SpeedCommand(cfg.baud);
    var d1 := d.(sent := d.sent + [cmd]);
    Prefixed([Write(cmd)],
      if !e.speedWriteOk then Fail(d)
      else Prefixed([AwaitComplete(HCI_HDR_OPCODE)],
        if !acks.speed then Fail(d1) else HostSpeedStage(cfg, e, bdAddr, acks.address, d1)))
  }

  /** After the open (lines 345-446): set_baud_rate, non-blocking mode,
      then the speed change when the baud rate is not the default, and the
      line discipline. */
  function SetupStage(cfg: Sysfs, e: Env, bdAddr: Option<Addr>, acks: Acks, d: Dev): Config
  {
    var sb := SetBaudRate(d.port, e.getOk, e.rawSetOk, e.speedSetOk);
    var d1 := d.(open := true, port := sb.port);
    var d2 := d1.(nonBlocking := true);
    Prefixed([DefaultSpeed],
      if sb.ret < 0 then Fail(d1)
      else Prefixed([NonBlocking],
        if cfg.baud == DEFAULT_BAUD then DisciplineStage(e, d2) else SpeedStage(cfg, e, bdAddr, acks, d2)))
  }

  /** st_uart_config(install) on the UART d, with the address main kept:
      any value but INSTALL closes dev_fd; INSTALL reads sysfs, opens the
      UART and sets it up. */
  function Configure(install: char, e: Env, bdAddr: Option<Addr>, d: Dev): Config
  {
    if install != INSTALL then Config(0, [CloseDevice], d.(open := false))
    else match e.sysfs
      case None => Config(-1, [], d)
      case Some(cfg) =>
        if !e.devOpens then Config(-1, [OpenDevice(cfg.devName)], d.(open := false))
        else Prefixed([OpenDevice(cfg.devName)], SetupStage(cfg, e, bdAddr, AcksOf(e), d.(open := true)))
  }

  // ----- how a run ends -----

  /** How a stage that starts on the UART d can end: 0 or -1; -1 only
      with dev_fd closed, closing it being the last call made; 0 with the
      line discipline installed and dev_fd open exactly when it was before
      (or the stage opened it); and no command sent is ever taken back. */
  predicate Settles(d: Dev, c: Config, opens: bool)
  {
    && (c.ret == 0 || c.ret == -1)
    && (c.ret == -1 ==> !c.dev.open && c.steps != [] && c.steps[|c.steps| - 1] == CloseDevice)
    && (c.ret == 0 ==> c.dev.open == (opens || d.open) && c.dev.discipline == N_TI_WL)
    && d.sent <= c.dev.sent
  }

  /** Calls made before a stage do not change how it ends. */
  lemma PrefixedSettles(pre: seq<Step>, d: Dev, c: Config, opens: bool)
    requires Settles(d, c, opens)
    ensures Settles(d, Prefixed(pre, c), opens)
  {
    if c.ret == -1 {
      assert Prefixed(pre, c).steps[|pre + c.steps| - 1] == c.steps[|c.steps| - 1];
    }
  }

  /** A stage that starts where an earlier one left dev_fd, after more
      commands were sent, ends as the earlier one would. */
  lemma LaterSettles(d: Dev, d1: Dev, c: Config, opens: bool)
    requires d.open == d1.open && d.sent <= d1.sent
    requires Settles(d1, c, opens)
    ensures Settles(d, c, opens)
  {
  }

  lemma DisciplineSettles(e: Env, d: Dev)
    ensures Settles(d, DisciplineStage(e, d), false)
  {
    PrefixedSettles([SetDiscipline(N_TI_WL)], d,
      if e.ldiscOk then Config(0, [], d.(discipline := N_TI_WL)) else Fail(d), false);
  }

  lemma VersionSettles(e: Env, d: Dev)
    ensures Settles(d, VersionStage(e, d), false)
  {
    var q := VersionQuery();
    var d1 := d.(sent := d.sent + if e.versionWriteOk then [q] else []);
    DisciplineSettles(e, d1);
    LaterSettles(d, d1, DisciplineStage(e, d1), false);
    PrefixedSettles([Write(q)], d, DisciplineStage(e, d1), false);
  }

  lemma AddressSettles(a: Addr, e: Env, ack: bool, d: Dev)
    ensures Settles(d, AddressStage(a, e, ack, d), false)
  {
    var cmd := AddressCommand(a);
    var d1 := d.(sent := d.sent + [cmd]);
    if e.addrWriteOk {
      var c := if ack then VersionStage(e, d1) else Fail(d1);
      VersionSettles(e, d1);
      LaterSettles(d, d1, c, false);
      PrefixedSettles([AwaitComplete(WRITE_BD_ADDR_OPCODE)], d, c, false);
      PrefixedSettles([Write(cmd)], d, Prefixed([AwaitComplete(WRITE_BD_ADDR_OPCODE)], c), false);
    } else {
      PrefixedSettles([Write(cmd)], d, Fail(d), false);
    }
  }

  lemma HostSpeedSettles(cfg: Sysfs, e: Env, bdAddr: Option<Addr>, addressAck: bool, d: Dev)
    ensures Settles(d, HostSpeedStage(cfg, e, bdAddr, addressAck, d), false)
  {
    var cs := SetCustomBaudRate(d.port, cfg.baud, cfg.flow, e.customGetOk, e.customSetOk, e.ioctlOk);
    var d1 := d.(port := cs.port);
    var c := if cs.ret < 0 then Fail(d1)
      else match bdAddr
        case None => VersionStage(e, d1)
        case Some(a) => AddressStage(a, e, addressAck, d1);
    if cs.ret >= 0 {
      match bdAddr
      case None => VersionSettles(e, d1);
      case Some(a) => AddressSettles(a, e, addressAck, d1);
    }
    LaterSettles(d, d1, c, false);
    PrefixedSettles([CustomSpeed(cfg.baud, cfg.flow)], d, c, false);
  }

  /** The change-speed stage once its command is written. */
  lemma SpeedReplySettles(cfg: Sysfs, e: Env, bdAddr: Option<Addr>, acks: Acks, d: Dev)
    ensures Settles(d, Prefixed([AwaitComplete(HCI_HDR_OPCODE)],
      if !acks.speed then Fail(d) else HostSpeedStage(cfg, e, bdAddr, acks.address, d)), false)
  {
    var c := if !acks.speed then Fail(d) else HostSpeedStage(cfg, e, bdAddr, acks.address, d);
    HostSpeedSettles(cfg, e, bdAddr, acks.address, d);
    PrefixedSettles([AwaitComplete(HCI_HDR_OPCODE)], d, c, false);
  }

  lemma SpeedSettles(cfg: Sysfs, e: Env, bdAddr: Option<Addr>, acks: Acks, d: Dev)
    ensures Settles(d, SpeedStage(cfg, e, bdAddr, acks, d), false)
  {
    var cmd := SpeedCommand(cfg.baud);
    var d1 := d.(sent := d.sent + [cmd]);
    if e.speedWriteOk {
      var c := Prefixed([AwaitComplete(HCI_HDR_OPCODE)],
        if !acks.speed then Fail(d1) else HostSpeedStage(cfg, e, bdAddr, acks.address, d1));
      SpeedReplySettles(cfg, e, bdAddr, acks, d1);
      LaterSettles(d, d1, c, false);
      PrefixedSettles([Write(cmd)], d, c, false);
    } else {
      PrefixedSettles([Write(cmd)], d, Fail(d), false);
    }
  }

  /** The stages after non-blocking mode: the speed change, or at the
      default speed the line discipline alone. */
  lemma NonBlockingSettles(cfg: Sysfs, e: Env, bdAddr: Option<Addr>, acks: Acks, d: Dev)
    ensures Settles(d, Prefixed([NonBlocking],
      if cfg.baud == DEFAULT_BAUD then DisciplineStage(e, d) else SpeedStage(cfg, e, bdAddr, acks, d)), false)
  {
    var c := if cfg.baud == DEFAULT_BAUD then DisciplineStage(e, d) else SpeedStage(cfg, e, bdAddr, acks, d);
    if cfg.baud == DEFAULT_BAUD {
      DisciplineSettles(e, d);
    } else {
      SpeedSettles(cfg, e, bdAddr, acks, d);
    }
    PrefixedSettles([NonBlocking], d, c, false);
  }

  lemma SetupSettles(cfg: Sysfs, e: Env, bdAddr: Option<Addr>, acks: Acks, d: Dev)
    ensures Settles(d, SetupStage(cfg, e, bdAddr, acks, d), true)
  {
    var sb := SetBaudRate(d.port, e.getOk, e.rawSetOk, e.speedSetOk);
    var d1 := d.(open := true, port := sb.port);
    var d2 := d1.(nonBlocking := true);
    if sb.ret < 0 {
      PrefixedSettles([DefaultSpeed], d, Fail(d1), true);
    } else {
      var c := Prefixed([NonBlocking],
        if cfg.baud == DEFAULT_BAUD then DisciplineStage(e, d2) else SpeedStage(cfg, e, bdAddr, acks, d2));
      NonBlockingSettles(cfg, e, bdAddr, acks, d2);
      OpenedSettles(d, d2, c);
      PrefixedSettles([DefaultSpeed], d, c, true);
    }
  }

  /** A stage run on the UART just opened ends as one that opened it. */
  lemma OpenedSettles(d: Dev, d1: Dev, c: Config)
    requires d1.open && d1.sent == d.sent
    requires Settles(d1, c, false)
    ensures Settles(d, c, true)
  {
  }

  /** st_uart_config returns 0 or -1: any value but INSTALL closes dev_fd
      and returns 0; an install that returns 0 leaves dev_fd open with the
      line discipline installed; one that returns -1 has closed dev_fd,
      unless sysfs could not be read, which changes nothing. Commands sent
      are never taken back. */
  lemma ConfigureSettles(install: char, e: Env, bdAddr: Option<Addr>, d: Dev)
    ensures var c := Configure(install, e, bdAddr, d);
      && (install != INSTALL ==> c.ret == 0 && !c.dev.open)
      && (c.ret == 0 || c.ret == -1)
      && (c.ret == -1 ==> (e.sysfs.None? && c == Config(-1, [], d)) || !c.dev.open)
      && (c.ret == 0 && install == INSTALL ==> c.dev.open && c.dev.discipline == N_TI_WL)
      && d.sent <= c.dev.sent
  {
    if install == INSTALL && e.sysfs.Some? && e.devOpens {
      var d1 := d.(open := true);
      SetupSettles(e.sysfs.value, e, bdAddr, AcksOf(e), d1);
      PrefixedSettles([OpenDevice(e.sysfs.value.devName)], d1, SetupStage(e.sysfs.value, e, bdAddr, AcksOf(e), d1), true);
    }
  }

  // ----- what it promises -----

  /** Every checked call of an install run succeeds. */
  predicate InstallSucceeds(cfg: Sysfs, e: Env, bdAddr: Option<Addr>)
  {
    && e.devOpens && e.getOk
    && (cfg.baud != DEFAULT_BAUD ==> SpeedSucceeds(e, bdAddr, AcksOf(e)))
    && e.ldiscOk
  }

  /** Every checked call of the speed and address exchanges succeeds. */
  predicate SpeedSucceeds(e: Env, bdAddr: Option<Addr>, acks: Acks)
  {
    && e.speedWriteOk && acks.speed && e.customGetOk && e.customSetOk
    && (bdAddr.Some? ==> e.addrWriteOk && acks.address)
  }

  /** A run against the calls full: it returns 0 or -1; 0 after making
      exactly those calls, with the UART open and the line discipline set;
      -1 after making a prefix of them and closing the UART. */
  predicate Follows(c: Config, full: seq<Step>)
  {
    && (c.ret == 0 || c.ret == -1)
    && (c.ret == 0 ==> c.steps == full && c.dev.open && c.dev.discipline == N_TI_WL)
    && (c.ret != 0 ==>
         && !c.dev.open && |c.steps| >= 1
         && c.steps[|c.steps| - 1] == CloseDevice && c.steps[..|c.steps| - 1] <= full)
  }

  lemma FailFollows(d: Dev, full: seq<Step>)
    ensures Follows(Fail(d), full)
  {
  }

  lemma PrefixedFollows(pre: seq<Step>, c: Config, full: seq<Step>)
    requires Follows(c, full)
    ensures Follows(Prefixed(pre, c), pre + full)
  {
    if c.ret != 0 {
      var k := |c.steps| - 1;
      assert (pre + c.steps)[..|pre| + k] == pre + c.steps[..k];
      assert (pre + full)[..|pre| + k] == pre + full[..k];
    }
  }

  lemma Cons3(x: Step, y: Step, z: Step, tail: seq<Step>)
    ensures [x] + ([y] + ([z] + tail)) == [x, y, z] + tail
  {
  }

  lemma Append1(t: seq<Step>, x: Step, rest: seq<Step>)
    ensures (t + [x]) + rest == t + ([x] + rest)
  {
  }

  lemma Append2(t: seq<Step>, x: Step, y: Step, rest: seq<Step>)
    ensures ((t + [x]) + [y]) + rest == t + ([x] + ([y] + rest))
  {
  }

  lemma Cons2(x: Step, y: Step, tail: seq<Step>)
    ensures [x] + ([y] + tail) == [x, y] + tail
  {
  }

  lemma Cons1Then2(x: Step, y: Step, z: Step, tail: seq<Step>)
    ensures [x] + ([y, z] + tail) == [x, y, z] + tail
  {
  }

  lemma DisciplineFollows(e: Env, d: Dev)
    requires d.open
    ensures var c := DisciplineStage(e, d);
      Follows(c, [SetDiscipline(N_TI_WL)]) && (c.ret == 0 <==> e.ldiscOk)
  {
    var inner := if e.ldiscOk then Config(0, [], d.(discipline := N_TI_WL)) else Fail(d);
    assert Follows(inner, []);
    PrefixedFollows([SetDiscipline(N_TI_WL)], inner, []);
  }

  lemma VersionFollows(e: Env, d: Dev)
    requires d.open
    ensures var c := VersionStage(e, d);
      Follows(c, VersionSchedule()) && (c.ret == 0 <==> e.ldiscOk)
  {
    var q := VersionQuery();
    var d1 := d.(sent := d.sent + if e.versionWriteOk then [q] else []);
    DisciplineFollows(e, d1);
    PrefixedFollows([Write(q)], DisciplineStage(e, d1), [SetDiscipline(N_TI_WL)]);
  }

  /** The wait for the write-address reply and what follows it. */
  lemma AddressReplyFollows(e: Env, ack: bool, d: Dev)
    requires d.open
    ensures var c := Prefixed([AwaitComplete(WRITE_BD_ADDR_OPCODE)], if ack then VersionStage(e, d) else Fail(d));
      && Follows(c, [AwaitComplete(WRITE_BD_ADDR_OPCODE)] + VersionSchedule())
      && (c.ret == 0 <==> ack && e.ldiscOk)
  {
    var inner := if ack then VersionStage(e, d) else Fail(d);
    if ack {
      VersionFollows(e, d);
    } else {
      FailFollows(d, VersionSchedule());
    }
    PrefixedFollows([AwaitComplete(WRITE_BD_ADDR_OPCODE)], inner, VersionSchedule());
  }

  lemma AddressFollows(a: Addr, e: Env, ack: bool, d: Dev)
    requires d.open
    ensures var c := AddressStage(a, e, ack, d);
      && Follows(c, AddressSchedule(Some(a)))
      && (c.ret == 0 <==> e.addrWriteOk && ack && e.ldiscOk)
  {
    var cmd := AddressCommand(a);
    var d1 := d.(sent := d.sent + [cmd]);
    var await := [AwaitComplete(WRITE_BD_ADDR_OPCODE)];
    var inner := if !e.addrWriteOk then Fail(d)
      else Prefixed(await, if ack then VersionStage(e, d1) else Fail(d1));
    if !e.addrWriteOk {
      FailFollows(d, await + VersionSchedule());
    } else {
      AddressReplyFollows(e, ack, d1);
    }
    PrefixedFollows([Write(cmd)], inner, await + VersionSchedule());
    Cons2(Write(cmd), AwaitComplete(WRITE_BD_ADDR_OPCODE), VersionSchedule());
  }

  lemma HostSpeedFollows(cfg: Sysfs, e: Env, bdAddr: Option<Addr>, addressAck: bool, d: Dev)
    requires d.open
    ensures var c := HostSpeedStage(cfg, e, bdAddr, addressAck, d);
      && Follows(c, [CustomSpeed(cfg.baud, cfg.flow)] + AddressSchedule(bdAddr))
      && (c.ret == 0 <==>
           && e.customGetOk && e.customSetOk
           && (bdAddr.Some? ==> e.addrWriteOk && addressAck)
           && e.ldiscOk)
  {
    var cs := SetCustomBaudRate(d.port, cfg.baud, cfg.flow, e.customGetOk, e.customSetOk, e.ioctlOk);
    var d1 := d.(port := cs.port);
    var tail := AddressSchedule(bdAddr);
    var inner := if cs.ret < 0 then Fail(d1)
      else match bdAddr
        case None => VersionStage(e, d1)
        case Some(a) => AddressStage(a, e, addressAck, d1);
    if cs.ret < 0 {
      FailFollows(d1, tail);
    } else if bdAddr.Some? {
      AddressFollows(bdAddr.value, e, addressAck, d1);
    } else {
      VersionFollows(e, d1);
    }
    PrefixedFollows([CustomSpeed(cfg.baud, cfg.flow)], inner, tail);
  }

  /** The wait for the change-speed reply and what follows it. */
  lemma SpeedReplyFollows(cfg: Sysfs, e: Env, bdAddr: Option<Addr>, acks: Acks, d: Dev)
    requires d.open
    ensures var c := Prefixed([AwaitComplete(HCI_HDR_OPCODE)],
        if !acks.speed then Fail(d) else HostSpeedStage(cfg, e, bdAddr, acks.address, d));
      && Follows(c, [AwaitComplete(HCI_HDR_OPCODE)] + ([CustomSpeed(cfg.baud, cfg.flow)] + AddressSchedule(bdAddr)))
      && (c.ret == 0 <==>
           && acks.speed && e.customGetOk && e.customSetOk
           && (bdAddr.Some? ==> e.addrWriteOk && acks.address)
           && e.ldiscOk)
  {
    var tail := [CustomSpeed(cfg.baud, cfg.flow)] + AddressSchedule(bdAddr);
    var inner := if !acks.speed then Fail(d) else HostSpeedStage(cfg, e, bdAddr, acks.address, d);
    if !acks.speed {
      FailFollows(d, tail);
    } else {
      HostSpeedFollows(cfg, e, bdAddr, acks.address, d);
    }
    PrefixedFollows([AwaitComplete(HCI_HDR_OPCODE)], inner, tail);
  }

  lemma SpeedFollows(cfg: Sysfs, e: Env, bdAddr: Option<Addr>, acks: Acks, d: Dev)
    requires d.open
    ensures var c := SpeedStage(cfg, e, bdAddr, acks, d);
      Follows(c, SpeedSchedule(cfg, bdAddr)) && (c.ret == 0 <==> SpeedSucceeds(e, bdAddr, acks) && e.ldiscOk)
  {
    var cmd := SpeedCommand(cfg.baud);
    var d1 := d.(sent := d.sent + [cmd]);
    var await := [AwaitComplete(HCI_HDR_OPCODE)];
    var tail := [CustomSpeed(cfg.baud, cfg.flow)] + AddressSchedule(bdAddr);
    var inner := if !e.speedWriteOk then Fail(d)
      else Prefixed(await, if !acks.speed then Fail(d1) else HostSpeedStage(cfg, e, bdAddr, acks.address, d1));
    if !e.speedWriteOk {
      FailFollows(d, await + tail);
    } else {
      SpeedReplyFollows(cfg, e, bdAddr, acks, d1);
    }
    PrefixedFollows([Write(cmd)], inner, await + tail);
    Cons3(Write(cmd), AwaitComplete(HCI_HDR_OPCODE), CustomSpeed(cfg.baud, cfg.flow), AddressSchedule(bdAddr));
  }

  lemma SetupFollows(cfg: Sysfs, e: Env, bdAddr: Option<Addr>, acks: Acks, d: Dev)
    ensures var c := SetupStage(cfg, e, bdAddr, acks, d);
      var tail := if cfg.baud == DEFAULT_BAUD then [SetDiscipline(N_TI_WL)] else SpeedSchedule(cfg, bdAddr);
      && Follows(c, [DefaultSpeed, NonBlocking] + tail)
      && (c.ret == 0 <==> e.getOk && (cfg.baud != DEFAULT_BAUD ==> SpeedSucceeds(e, bdAddr, acks)) && e.ldiscOk)
  {
    var sb := SetBaudRate(d.port, e.getOk, e.rawSetOk, e.speedSetOk);
    var d1 := d.(open := true, port := sb.port);
    var d2 := d1.(nonBlocking := true);
    var tail := if cfg.baud == DEFAULT_BAUD then [SetDiscipline(N_TI_WL)] else SpeedSchedule(cfg, bdAddr);
    var inner2 := if cfg.baud == DEFAULT_BAUD then DisciplineStage(e, d2) else SpeedStage(cfg, e, bdAddr, acks, d2);
    if cfg.baud == DEFAULT_BAUD {
      DisciplineFollows(e, d2);
    } else {
      SpeedFollows(cfg, e, bdAddr, acks, d2);
    }
    PrefixedFollows([NonBlocking], inner2, tail);
    var inner1 := if sb.ret < 0 then Fail(d1) else Prefixed([NonBlocking], inner2);
    if sb.ret < 0 {
      FailFollows(d1, [NonBlocking] + tail);
    }
    PrefixedFollows([DefaultSpeed], inner1, [NonBlocking] + tail);
    Cons2(DefaultSpeed, NonBlocking, tail);
  }

  /** An install run past the open, with the controller's replies acks. */
  lemma OpenedFollows(cfg: Sysfs, e: Env, bdAddr: Option<Addr>, acks: Acks, d: Dev)
    ensures var c := Prefixed([OpenDevice(cfg.devName)], SetupStage(cfg, e, bdAddr, acks, d));
      && c.steps[0] == OpenDevice(cfg.devName)
      && Follows(c, Schedule(cfg, bdAddr))
      && (c.ret == 0 <==> e.getOk && (cfg.baud != DEFAULT_BAUD ==> SpeedSucceeds(e, bdAddr, acks)) && e.ldiscOk)
  {
    var tail := if cfg.baud == DEFAULT_BAUD then [SetDiscipline(N_TI_WL)] else SpeedSchedule(cfg, bdAddr);
    SetupFollows(cfg, e, bdAddr, acks, d);
    PrefixedFollows([OpenDevice(cfg.devName)], SetupStage(cfg, e, bdAddr, acks, d), [DefaultSpeed, NonBlocking] + tail);
    Cons1Then2(OpenDevice(cfg.devName), DefaultSpeed, NonBlocking, tail);
  }

  /** An install run whose UART opens returns 0 exactly when every checked
      call succeeds, and then it has made the scheduled calls and left the
      UART open with the line discipline set; otherwise it has made a
      prefix of the schedule and closed the UART. One whose open fails has
      made only the open and returns -1. */
  lemma InstallFollowsSchedule(e: Env, bdAddr: Option<Addr>, d: Dev)
    requires e.sysfs.Some?
    ensures var c := Configure(INSTALL, e, bdAddr, d);
      var cfg := e.sysfs.value;
      && c.steps[0] == OpenDevice(cfg.devName)
      && (c.ret == 0 <==> InstallSucceeds(cfg, e, bdAddr))
      && (e.devOpens ==> Follows(c, Schedule(cfg, bdAddr)))
      && (!e.devOpens ==> c.ret == -1 && c.steps == [OpenDevice(cfg.devName)] && !c.dev.open)
  {
    if e.devOpens {
      OpenedFollows(e.sysfs.value, e, bdAddr, AcksOf(e), d.(open := true));
    }
  }

  /** Any value but INSTALL only closes dev_fd; a failed sysfs read
      returns -1 and touches nothing. */
  lemma UninstallAndSysfsFailure(install: char, e: Env, bdAddr: Option<Addr>, d: Dev)
    ensures install != INSTALL ==> Configure(install, e, bdAddr, d) == Config(0, [CloseDevice], d.(open := false))
    ensures install == INSTALL && e.sysfs.None? ==> Configure(install, e, bdAddr, d) == Config(-1, [], d)
  {
  }

  /** At the default baud rate no command frame reaches the controller. */
  lemma NoCommandsAtDefaultSpeed(e: Env, bdAddr: Option<Addr>, d: Dev)
    requires e.sysfs.Some? && e.sysfs.value.baud == DEFAULT_BAUD
    ensures var c := Configure(INSTALL, e, bdAddr, d);
      c.dev.sent == d.sent && forall k :: 0 <= k < |c.steps| ==> !c.steps[k].Write?
  {
  }

  /** A write-address command that cannot be written or is not completed
      aborts the exchange: -1, the UART closed, no line discipline set. */
  lemma AddressFailureAborts(a: Addr, e: Env, ack: bool, d: Dev)
    requires !e.addrWriteOk || !ack
    ensures var c := AddressStage(a, e, ack, d);
      c.ret == -1 && !c.dev.open && c.dev.discipline == d.discipline && SetDiscipline(N_TI_WL) !in c.steps
  {
  }

  /** The same for the whole install run. */
  lemma InstallAbortsOnAddressFailure(e: Env, a: Addr, d: Dev)
    requires e.sysfs.Some? && e.sysfs.value.baud != DEFAULT_BAUD
    requires !e.addrWriteOk || !AcksOf(e).address
    ensures var c := Configure(INSTALL, e, Some(a), d);
      c.ret == -1 && !c.dev.open && c.dev.discipline == d.discipline && SetDiscipline(N_TI_WL) !in c.steps
  {
    var cfg := e.sysfs.value;
    if e.devOpens {
      var d0 := d.(open := true);
      var sb := SetBaudRate(d0.port, e.getOk, e.rawSetOk, e.speedSetOk);
      var d2 := d0.(port := sb.port, nonBlocking := true);
      var d3 := d2.(sent := d2.sent + [SpeedCommand(cfg.baud)]);
      var cs := SetCustomBaudRate(d3.port, cfg.baud, cfg.flow, e.customGetOk, e.customSetOk, e.ioctlOk);
      AddressFailureAborts(a, e, AcksOf(e).address, d3.(port := cs.port));
    }
  }

  // ----- the poll loop of main (lines 554-599) -----

  /** One wake-up of the poll: whether the install entry could be opened
      again, what the one-byte read of it gave (None: nothing), and how the
      system answers the st_uart_config call it may trigger. */
  datatype Wake = Wake(reopenOk: bool, read: Option<char>, env: Env)

  /** What the poll does: the values st_uart_config is called with, how
      main ends (None: still polling), the UART after the last wake-up and
      the calls made on it on the way. */
  datatype Polling = Polling(calls: seq<char>, ret: Option<int>, dev: Dev, steps: seq<Step>)

  /** The poll loop from install value cur on, over the UART d: a wake-up
      whose byte differs from the value before it runs st_uart_config on
      the UART as the previous call left it. */
  function PollLoop(cur: char, bdAddr: Option<Addr>, d: Dev, wakes: seq<Wake>): (p: Polling)
    ensures |p.calls| <= |wakes|
    ensures p.ret.Some? ==> p.ret.value == -1
    ensures p.calls == [] ==> p.dev == d && p.steps == []
    decreases |wakes|
  {
    if wakes == [] then Polling([], None, d, [])
    else if !wakes[0].reopenOk then Polling([], Some(-1), d, [])
    else match wakes[0].read
      case None => PollLoop(cur, bdAddr, d, wakes[1..])
      case Some(c) =>
        if c == cur then PollLoop(c, bdAddr, d, wakes[1..])
        else
          var cfg := Configure(c, wakes[0].env, bdAddr, d);
          var rest := PollLoop(c, bdAddr, cfg.dev, wakes[1..]);
          Polling([c] + rest.calls, rest.ret, rest.dev, cfg.steps + rest.steps)
  }

  /** main from the read that starts the poll on (lines 553-599): an INSTALL
      read there runs st_uart_config at once, then the loop polls on from
      the value read. */
  function Polled(first: Option<char>, firstEnv: Env, cur: char, bdAddr: Option<Addr>, d: Dev, wakes: seq<Wake>): (p: Polling)
    ensures |p.calls| <= |wakes| + 1
    ensures p.ret.Some? ==> p.ret.value == -1
    ensures first != Some(INSTALL) ==> p == PollLoop(if first.Some? then first.value else cur, bdAddr, d, wakes)
  {
    if first == Some(INSTALL) then
      var cfg := Configure(INSTALL, firstEnv, bdAddr, d);
      var rest := PollLoop(INSTALL, bdAddr, cfg.dev, wakes);
      Polling([INSTALL] + rest.calls, rest.ret, rest.dev, cfg.steps + rest.steps)
    else PollLoop(if first.Some? then first.value else cur, bdAddr, d, wakes)
  }

  /** The debounce: st_uart_config is only called with a value that differs
      from the install value before it, so consecutive calls never repeat a
      value (never two installs in a row). */
  lemma {:induction false} PollCallsAlternate(cur: char, bdAddr: Option<Addr>, d: Dev, wakes: seq<Wake>)
    decreases |wakes|
    ensures var p := PollLoop(cur, bdAddr, d, wakes).calls;
      (p != [] ==> p[0] != cur) && forall i :: 0 <= i < |p| - 1 ==> p[i] != p[i + 1]
  {
    if wakes != [] && wakes[0].reopenOk {
      var next := if wakes[0].read.Some? then wakes[0].read.value else cur;
      var d' := if next != cur then Configure(next, wakes[0].env, bdAddr, d).dev else d;
      PollCallsAlternate(next, bdAddr, d', wakes[1..]);
      if next != cur {
        var rest := PollLoop(next, bdAddr, d', wakes[1..]).calls;
        var p := PollLoop(cur, bdAddr, d, wakes).calls;
        assert p == [next] + rest;
        forall i | 0 <= i < |p| - 1
          ensures p[i] != p[i + 1]
        {
          if i > 0 {
            assert p[i] == rest[i - 1] && p[i + 1] == rest[i];
          }
        }
      }
    }
  }

  /** However many reconfigurations the poll makes, a command once sent
      to the controller stays sent. */
  lemma {:induction false} PollKeepsSent(cur: char, bdAddr: Option<Addr>, d: Dev, wakes: seq<Wake>)
    decreases |wakes|
    ensures d.sent <= PollLoop(cur, bdAddr, d, wakes).dev.sent
  {
    if wakes != [] && wakes[0].reopenOk {
      var next := if wakes[0].read.Some? then wakes[0].read.value else cur;
      var d' := if next != cur then Configure(next, wakes[0].env, bdAddr, d).dev else d;
      ConfigureSettles(next, wakes[0].env, bdAddr, d);
      PollKeepsSent(next, bdAddr, d', wakes[1..]);
    }
  }

  /** PollLoop from the i-th wake-up on, one step unfolded. */
  lemma PollLoopAt(cur: char, bdAddr: Option<Addr>, d: Dev, wakes: seq<Wake>, i: nat)
    requires i < |wakes|
    ensures var w := wakes[i];
      var next := if w.read.Some? then w.read.value else cur;
      var cfg := Configure(next, w.env, bdAddr, d);
      var rest := PollLoop(next, bdAddr, if next != cur then cfg.dev else d, wakes[i + 1..]);
      PollLoop(cur, bdAddr, d, wakes[i..]) ==
        if !w.reopenOk then Polling([], Some(-1), d, [])
        else if next != cur then Polling([next] + rest.calls, rest.ret, rest.dev, cfg.steps + rest.steps)
        else rest
  {
    assert wakes[i..][0] == wakes[i] && wakes[i..][1..] == wakes[i + 1..];
  }

  /** What is left of the poll, after the calls made so far, completes
      the whole of it. */
  predicate Completes(done: seq<char>, tr: seq<Step>, rest: Polling, start: seq<char>, tstart: seq<Step>, all: Polling)
  {
    && done + rest.calls == start + all.calls
    && tr + rest.steps == tstart + all.steps
    && rest.ret == all.ret && rest.dev == all.dev
  }

  /** One wake-up of the loop, seen from the calls made before it. */
  lemma PollStep(done: seq<char>, tr: seq<Step>, cur: char, bdAddr: Option<Addr>, d: Dev, wakes: seq<Wake>, i: nat,
                 start: seq<char>, tstart: seq<Step>, all: Polling)
    requires i < |wakes|
    requires Completes(done, tr, PollLoop(cur, bdAddr, d, wakes[i..]), start, tstart, all)
    ensures !wakes[i].reopenOk ==> Completes(done, tr, Polling([], Some(-1), d, []), start, tstart, all)
    ensures wakes[i].reopenOk ==>
      var next := if wakes[i].read.Some? then wakes[i].read.value else cur;
      var cfg := Configure(next, wakes[i].env, bdAddr, d);
      Completes(done + (if next != cur then [next] else []), tr + (if next != cur then cfg.steps else []),
        PollLoop(next, bdAddr, if next != cur then cfg.dev else d, wakes[i + 1..]), start, tstart, all)
  {
    PollLoopAt(cur, bdAddr, d, wakes, i);
    if wakes[i].reopenOk {
      var next := if wakes[i].read.Some? then wakes[i].read.value else cur;
      var cfg := Configure(next, wakes[i].env, bdAddr, d);
      var p := PollLoop(next, bdAddr, if next != cur then cfg.dev else d, wakes[i + 1..]);
      if next != cur {
        CompletesAfter(done, tr, [next], cfg.steps, p, start, tstart, all);
      } else {
        CompletesAfter(done, tr, [], [], p, start, tstart, all);
      }
    }
  }

  /** Calls made in one step move from what is left to what is done. */
  lemma CompletesAfter(done: seq<char>, tr: seq<Step>, more: seq<char>, steps: seq<Step>, p: Polling,
                       start: seq<char>, tstart: seq<Step>, all: Polling)
    requires Completes(done, tr, Polling(more + p.calls, p.ret, p.dev, steps + p.steps), start, tstart, all)
    ensures Completes(done + more, tr + steps, p, start, tstart, all)
  {
    AppendAssoc(done, more, p.calls);
    AppendAssoc(tr, steps, p.steps);
  }

  /** A poll with nothing left to do: the calls made are the whole. */
  lemma CompletesAtEnd(done: seq<char>, tr: seq<Step>, ret: Option<int>, d: Dev, start: seq<char>, tstart: seq<Step>, all: Polling)
    requires Completes(done, tr, Polling([], ret, d, []), start, tstart, all)
    ensures done == start + all.calls && tr == tstart + all.steps && ret == all.ret && d == all.dev
  {
    assert done + [] == done && tr + [] == tr;
  }

  /** Polled after an INSTALL first read, seen from the calls made before
      it: the loop goes on from the UART that st_uart_config left. */
  lemma PolledAfterInstall(firstEnv: Env, cur: char, bdAddr: Option<Addr>, d: Dev, wakes: seq<Wake>,
                           done: seq<char>, tr: seq<Step>)
    ensures var whole := Polled(Some(INSTALL), firstEnv, cur, bdAddr, d, wakes);
      var cfg := Configure(INSTALL, firstEnv, bdAddr, d);
      var p := PollLoop(INSTALL, bdAddr, cfg.dev, wakes);
      && (done + [INSTALL]) + p.calls == done + whole.calls
      && (tr + cfg.steps) + p.steps == tr + whole.steps
      && p.ret == whole.ret && p.dev == whole.dev
  {
    var cfg := Configure(INSTALL, firstEnv, bdAddr, d);
    var p := PollLoop(INSTALL, bdAddr, cfg.dev, wakes);
    AppendAssoc(done, [INSTALL], p.calls);
    AppendAssoc(tr, cfg.steps, p.steps);
  }

  lemma AppendAssoc<T>(a: seq<T>, b: seq<T>, c: seq<T>)
    ensures (a + b) + c == a + (b + c)
  {
  }

  /** The daemon's state: the address to program, the UART, the install
      value read last and before, and (ghost) the calls made on the UART,
      the values st_uart_config was called with, and how many of those
      calls asked for an install while dev_fd was open. */
  class Uim {
    var bdAddr: Option<Addr>
    var devOpen: bool
    var port: Port
    var nonBlocking: bool
    var discipline: int
    var sent: seq<seq<byte>>
    var install: char
    var previous: char
    ghost var trace: seq<Step>
    ghost var calls: seq<char>
    ghost var installsWhileOpen: nat

    /** The daemon before main runs: no address, dev_fd not open, the UART
        with the settings and discipline it has. */
    constructor (p: Port, ldisc: int)
      ensures bdAddr == None && !devOpen && port == p && !nonBlocking && discipline == ldisc
      ensures sent == [] && trace == [] && calls == [] && installsWhileOpen == 0
    {
      bdAddr := None;
      devOpen := false;
      port := p;
      nonBlocking := false;
      discipline := ldisc;
      sent := [];
      trace := [];
      calls := [];
      installsWhileOpen := 0;
    }

    function State(): Dev
      reads this
    {
      Dev(devOpen, port, nonBlocking, discipline, sent)
    }

    /** A failure after the open: close dev_fd. */
    method Close()
      modifies this`devOpen, this`trace
      ensures State() == Fail(old(State())).dev && trace == old(trace) + Fail(old(State())).steps
    {
      devOpen := false;
      trace := trace + [CloseDevice];
    }

    /** The last stage (lines 441-446): TIOCSETD with N_TI_WL, closing
        dev_fd when it fails. */
    method InstallDiscipline(e: Env) returns (ret: int)
      modifies this`devOpen, this`discipline, this`trace
      ensures var c := DisciplineStage(e, old(State()));
        ret == c.ret && State() == c.dev && trace == old(trace) + c.steps
    {
      ghost var t0 := trace;
      trace := trace + [SetDiscipline(N_TI_WL)];
      if !e.ldiscOk {
        Close();
        Append1(t0, SetDiscipline(N_TI_WL), [CloseDevice]);
        return -1;
      }
      discipline := N_TI_WL;
      Append1(t0, SetDiscipline(N_TI_WL), []);
      return 0;
    }

    /** read_firmware_version (lines 59-73, called at line 434), then the
        stage after it, the line discipline. */
    method QueryVersionThenInstall(e: Env) returns (ret: int)
      modifies this`devOpen, this`discipline, this`sent, this`trace
      ensures var c := VersionStage(e, old(State()));
        ret == c.ret && State() == c.dev && trace == old(trace) + c.steps
    {
      ghost var t0 := trace;
      var q := VersionQuery();
      trace := trace + [Write(q)];
      if e.versionWriteOk {
        sent := sent + [q];
      }
      ghost var d1 := State();
      ret := InstallDiscipline(e);
      Append1(t0, Write(q), DisciplineStage(e, d1).steps);
    }

    /** The write-address exchange (lines 403-432), then everything after
        it: the version query and the line discipline. */
    method SendAddress(a: Addr, e: Env) returns (ret: int)
      modifies this`devOpen, this`discipline, this`sent, this`trace
      ensures var c := AddressStage(a, e, AcksOf(e).address, old(State()));
        ret == c.ret && State() == c.dev && trace == old(trace) + c.steps
    {
      ghost var t0 := trace;
      var cmd := AddressCommand(a);
      var await := AwaitComplete(WRITE_BD_ADDR_OPCODE);
      trace := trace + [Write(cmd)];
      if !e.addrWriteOk {
        Close();
        Append1(t0, Write(cmd), [CloseDevice]);
        return -1;
      }
      sent := sent + [cmd];
      trace := trace + [await];
      var r, _ := ReadCommandComplete(e.addressLink, WRITE_BD_ADDR_OPCODE);
      if r < 0 {
        Close();
        Append2(t0, Write(cmd), await, [CloseDevice]);
        return -1;
      }
      ghost var d1 := State();
      ret := QueryVersionThenInstall(e);
      Append2(t0, Write(cmd), await, VersionStage(e, d1).steps);
    }

    /** set_custom_baud_rate (line 394), then everything after it: the
        address exchange when there is an address, the version query and
        the line discipline. */
    method SetHostSpeed(cfg: Sysfs, e: Env) returns (ret: int)
      modifies this`devOpen, this`port, this`discipline, this`sent, this`trace
      ensures var c := HostSpeedStage(cfg, e, bdAddr, AcksOf(e).address, old(State()));
        ret == c.ret && State() == c.dev && trace == old(trace) + c.steps
    {
      ghost var t0 := trace;
      var custom := CustomSpeed(cfg.baud, cfg.flow);
      trace := trace + [custom];
      var cs := SetCustomBaudRate(port, cfg.baud, cfg.flow, e.customGetOk, e.customSetOk, e.ioctlOk);
      port := cs.port;
      if cs.ret < 0 {
        Close();
        Append1(t0, custom, [CloseDevice]);
        return -1;
      }
      ghost var d1 := State();
      if bdAddr.Some? {
        ret := SendAddress(bdAddr.value, e);
        Append1(t0, custom, AddressStage(bdAddr.value, e, AcksOf(e).address, d1).steps);
      } else {
        ret := QueryVersionThenInstall(e);
        Append1(t0, custom, VersionStage(e, d1).steps);
      }
    }

    /** The change-speed exchange (lines 365-392), then everything after
        it. */
    method ChangeSpeed(cfg: Sysfs, e: Env) returns (ret: int)
      modifies this`devOpen, this`port, this`discipline, this`sent, this`trace
      ensures var c := SpeedStage(cfg, e, bdAddr, AcksOf(e), old(State()));
        ret == c.ret && State() == c.dev && trace == old(trace) + c.steps
    {
      ghost var t0 := trace;
      var cmd := SpeedCommand(cfg.baud);
      var await := AwaitComplete(HCI_HDR_OPCODE);
      trace := trace + [Write(cmd)];
      if !e.speedWriteOk {
        Close();
        Append1(t0, Write(cmd), [CloseDevice]);
        return -1;
      }
      sent := sent + [cmd];
      trace := trace + [await];
      var r, _ := ReadCommandComplete(e.link, HCI_HDR_OPCODE);
      if r < 0 {
        Close();
        Append2(t0, Write(cmd), await, [CloseDevice]);
        return -1;
      }
      ghost var d1 := State();
      ret := SetHostSpeed(cfg, e);
      Append2(t0, Write(cmd), await, HostSpeedStage(cfg, e, bdAddr, AcksOf(e).address, d1).steps);
    }

    /** st_uart_config after the open (lines 345-446): set_baud_rate,
        non-blocking mode, then the speed change or the line discipline. */
    method Setup(cfg: Sysfs, e: Env) returns (ret: int)
      modifies this`devOpen, this`port, this`nonBlocking, this`discipline, this`sent, this`trace
      ensures var c := SetupStage(cfg, e, bdAddr, AcksOf(e), old(State()));
        ret == c.ret && State() == c.dev && trace == old(trace) + c.steps
    {
      ghost var t0 := trace;
      devOpen := true;
      trace := trace + [DefaultSpeed];
      var sb := SetBaudRate(port, e.getOk, e.rawSetOk, e.speedSetOk);
      port := sb.port;
      if sb.ret < 0 {
        Close();
        Append1(t0, DefaultSpeed, [CloseDevice]);
        return -1;
      }
      nonBlocking := true;
      trace := trace + [NonBlocking];
      ghost var d2 := State();
      if cfg.baud != DEFAULT_BAUD {
        ret := ChangeSpeed(cfg, e);
        Append2(t0, DefaultSpeed, NonBlocking, SpeedStage(cfg, e, bdAddr, AcksOf(e), d2).steps);
      } else {
        ret := InstallDiscipline(e);
        Append2(t0, DefaultSpeed, NonBlocking, DisciplineStage(e, d2).steps);
      }
    }

    /** st_uart_config(install): what it does is Configure's result. */
    method UartConfig(inst: char, e: Env) returns (ret: int)
      modifies this`devOpen, this`port, this`nonBlocking, this`discipline, this`sent, this`trace, this`calls, this`installsWhileOpen
      ensures var c := Configure(inst, e, bdAddr, old(State()));
        ret == c.ret && State() == c.dev && trace == old(trace) + c.steps
      ensures calls == old(calls) + [inst]
      ensures installsWhileOpen == old(installsWhileOpen) + if inst == INSTALL && old(devOpen) then 1 else 0
      ensures inst != INSTALL ==> !devOpen
    {
      calls := calls + [inst];
      if inst == INSTALL && devOpen {
        installsWhileOpen := installsWhileOpen + 1;
      }
      if inst != INSTALL {
        // UNINSTALL: close the UART
        devOpen := false;
        trace := trace + [CloseDevice];
        return 0;
      }
      if e.sysfs.None? {
        return -1;
      }
      var cfg := e.sysfs.value;
      ghost var t0 := trace;
      trace := trace + [OpenDevice(cfg.devName)];
      if !e.devOpens {
        devOpen := false;
        return -1;
      }
      devOpen := true;
      ghost var d1 := State();
      ret := Setup(cfg, e);
      Append1(t0, OpenDevice(cfg.devName), SetupStage(cfg, e, bdAddr, AcksOf(e), d1).steps);
    }

    /** The read that starts the poll (lines 553-561): a byte read from the
        install entry becomes the install value, and an INSTALL found there
        is acted on at once. */
    method FirstRead(first: Option<char>, e: Env)
      requires !devOpen
      modifies this`devOpen, this`port, this`nonBlocking, this`discipline, this`sent, this`trace, this`calls, this`installsWhileOpen,
        this`install
      ensures install == if first.Some? then first.value else old(install)
      ensures first == Some(INSTALL) ==>
        var c := Configure(INSTALL, e, bdAddr, old(State()));
        State() == c.dev && trace == old(trace) + c.steps && calls == old(calls) + [INSTALL]
      ensures first != Some(INSTALL) ==> State() == old(State()) && trace == old(trace) && calls == old(calls)
      ensures installsWhileOpen == old(installsWhileOpen)
      ensures devOpen ==> install == INSTALL
    {
      if first.Some? {
        install := first.value;
      }
      if first == Some(INSTALL) {
        var _ := UartConfig(install, e);
      }
    }

    /** One wake-up of the poll (lines 578-594): the install entry is opened
        again, and the byte read from it, if any, becomes the install value;
        st_uart_config is called with it when it differs from the previous
        one. */
    method OnWake(w: Wake) returns (stop: bool)
      requires devOpen ==> install == INSTALL
      modifies this`devOpen, this`port, this`nonBlocking, this`discipline, this`sent, this`trace, this`calls, this`installsWhileOpen,
        this`install, this`previous
      ensures stop <==> !w.reopenOk
      ensures !stop ==> previous == old(install)
      ensures install == if !stop && w.read.Some? then w.read.value else old(install)
      ensures !stop && install != old(install) ==>
        var c := Configure(install, w.env, bdAddr, old(State()));
        State() == c.dev && trace == old(trace) + c.steps && calls == old(calls) + [install]
      ensures stop || install == old(install) ==> State() == old(State()) && trace == old(trace)
      ensures calls == old(calls) + if !stop && install != old(install) then [install] else []
      ensures installsWhileOpen == old(installsWhileOpen)
      ensures devOpen ==> install == INSTALL
    {
      if !w.reopenOk {
        return true;
      }
      previous := install;
      if w.read.Some? {
        install := w.read.value;
        if previous != install {
          var _ := UartConfig(install, w.env);
        }
      }
      return false;
    }

    /** The poll of main (lines 546-599) once the install entry is open:
        the initial read, then one OnWake per wake-up; None when still
        polling after the last of them. */
    method Poll(first: Option<char>, firstEnv: Env, wakes: seq<Wake>) returns (ret: Option<int>)
      requires !devOpen
      modifies this`devOpen, this`port, this`nonBlocking, this`discipline, this`sent, this`trace, this`calls,
        this`installsWhileOpen, this`install, this`previous
      ensures var p := Polled(first, firstEnv, old(install), bdAddr, old(State()), wakes);
        && ret == p.ret
        && calls == old(calls) + p.calls
        && State() == p.dev && trace == old(trace) + p.steps
      ensures installsWhileOpen == old(installsWhileOpen)
      ensures devOpen ==> install == INSTALL
    {
      ghost var c0, t0, cur0, d0 := calls, trace, install, State();
      FirstRead(first, firstEnv);
      ghost var init, start, tstart := install, calls, trace;
      ghost var all := PollLoop(init, bdAddr, State(), wakes);
      if first == Some(INSTALL) {
        PolledAfterInstall(firstEnv, cur0, bdAddr, d0, wakes, c0, t0);
      }
      var i := 0;
      while i < |wakes|
        invariant 0 <= i <= |wakes|
        invariant Completes(calls, trace, PollLoop(install, bdAddr, State(), wakes[i..]), start, tstart, all)
        invariant installsWhileOpen == old(installsWhileOpen)
        invariant devOpen ==> install == INSTALL
      {
        ghost var done, tr, cur, d := calls, trace, install, State();
        var stop := OnWake(wakes[i]);
        PollStep(done, tr, cur, bdAddr, d, wakes, i, start, tstart, all);
        if stop {
          CompletesAtEnd(calls, trace, Some(-1), State(), start, tstart, all);
          return Some(-1);
        }
        i := i + 1;
      }
      assert wakes[i..] == [];
      CompletesAtEnd(calls, trace, None, State(), start, tstart, all);
      return None;
    }

    /** main (lines 489-606) over the arguments after the program name,
        whether the install entry opens, and the poll's inputs: a usage
        error or an entry that will not open ends it with -1 before any
        st_uart_config call and with the UART untouched; otherwise the
        address is kept and the poll runs. */
    method Run(args: seq<string>, stOpens: bool, first: Option<char>, firstEnv: Env, wakes: seq<Wake>)
      returns (ret: Option<int>)
      requires !devOpen
      modifies this
      ensures StartupOf(args).Usage? || !stOpens ==>
        ret == Some(-1) && calls == old(calls) && State() == old(State()) && trace == old(trace)
      ensures StartupOf(args).Start? ==> bdAddr == StartupOf(args).bdAddr
      ensures StartupOf(args).Start? && stOpens ==>
        var p := Polled(first, firstEnv, old(install), StartupOf(args).bdAddr, old(State()), wakes);
        && ret == p.ret
        && calls == old(calls) + p.calls
        && State() == p.dev && trace == old(trace) + p.steps
        && (devOpen ==> install == INSTALL)
      ensures installsWhileOpen == old(installsWhileOpen)
    {
      var s := ParseArguments(args);
      if s.Usage? {
        return Some(-1);
      }
      bdAddr := s.bdAddr;
      if !stOpens {
        return Some(-1);
      }
      ret := Poll(first, firstEnv, wakes);
    }
  }
}
