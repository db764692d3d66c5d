# uim and bd_provisioning, modelled in Dafny

`uim` is the user-mode init manager of the TI WiLink shared-transport
Bluetooth stack. It waits on the driver's install entry. When the entry reads
`'1'`, it does the following:

1. It opens the UART named in sysfs and sets the UART to 115200 baud.
2. When the configured speed differs from 115200, it sends the controller a
   vendor change-speed command. It waits for the Command Complete event, then
   switches the host side to the new speed.
3. Still only when the speed differs from 115200, and only when an address
   was given on the command line, it sends the write-device-address command
   and waits for that reply too. At 115200 baud no command is sent at all.
4. It installs the `N_TI_WL` line discipline.

Any other value of the entry closes the UART. `bd_provisioning` is the
factory tool that produces the address: it takes six octets from the secure
element and writes them as `XX:XX:XX:XX:XX:XX` to the file the address is
configured from.

The model consists of these files:

- `bytes.dfy`: octets, 16-bit fields, `Option` and the little-endian layout.
- `hci.dfy`: the H4 command packets uim builds. These are the Bluetooth Core
  Specification, Volume 2 Part E, section 5.4.1 HCI Command packet behind the
  one-byte packet indicator of Volume 4 Part A, section 2.
- `event_reader.dfy`: `read_hci_event`.
  - A functional reference (`SyncScan`, `FillTo`, `ReadEvent`) over the
    sequence of answers the UART's `read(2)` calls give.
  - An imperative version on an `array` (`ReadHciEvent` and its loops),
    proved equal to the reference.
  - Lemmas that characterise the reference by what the link delivers.
- `command_complete.dfy`: `read_command_complete`, which accepts only a
  Command Complete event (Volume 2 Part E, section 7.7.14).
- `termios.dfy`: the effect of `set_baud_rate` and `set_custom_baud_rate` on
  `c_cflag` and the output speed, with the Linux values of the flags.
- `address.dfy`: `strtoba`, and the argument and reserved-address rules of
  uim's `main`.
- `provisioning.dfy`: bd_provisioning's `main`, its `%02X:` formatting, and
  the round trips between that formatting and `strtoba`.
- `daemon.dfy`: `st_uart_config` and the poll loop of `main`.
  - `st_uart_config` is a function over its stages (`Configure`).
  - A class `Uim` holds the daemon's state (`dev_fd`, the port settings, the
    frames sent, `install`/`previous`). Its methods are proved to do what
    `Configure` says.
  - The lemmas show that every install run follows one fixed schedule of
    calls.

The operating system appears only as inputs:

- the answers of `read(2)` on the UART, as a sequence of `Failed` or
  `Chunk(bytes)`, where an empty chunk is a read returning 0. There is one
  such sequence for the change-speed reply and another for the
  write-address reply, because `set_custom_baud_rate` flushes the UART's
  input between them (`tcflush` at uim.c lines 245 and 267);
- the three sysfs values;
- for each checked system call, whether it succeeds;
- for each wake-up of the poll, what the install entry reads.

Constants that come from `uim.h` are declared without a value: `HCI_EVENT_PKT`,
`EVT_CMD_COMPLETE`, `HCI_HDR_OPCODE`, `WRITE_BD_ADDR_OPCODE` and `N_TI_WL`.
`RESPONSE_SIZE`, the size of `command_complete_t`, is only known to be at
least 7, the bytes `read_command_complete` looks at.
The other constants are pinned from evidence in `uim.c`:

- `RESP_PREFIX` is 0x04, from the comment at uim.c lines 96-97;
- the command indicator 0x01 comes from the wire form at line 63;
- `BD_ADDR_LEN` is 17, from the usage text at line 512.

## Model

| member | source | states |
|---|---|---|
| Bytes.Le16 | bluetooth/uim/uim.c:370 | a 16-bit opcode is stored low byte first and reads back as itself |
| Bytes.LeBytesValue | bluetooth/uim/uim.c:372 | a value stored into an n-byte little-endian field reads back as the value modulo 256^n (the 32-bit `speed` field keeps the baud rate modulo 2^32) |
| Hci.CommandFrame | bluetooth/uim/uim.c:369-372 | a command packet is the indicator, the opcode low byte first, the declared length and the parameters, and the controller parses it back to exactly those fields |
| Hci.ParseCommandExact | bluetooth/uim/uim.c:369-372 | conversely, every packet the controller accepts is the frame of the fields it parses from it |
| Hci.SpeedCommand | bluetooth/uim/uim.c:369-372 | the change-speed packet is 8 bytes and parses as opcode `HCI_HDR_OPCODE` with `plen = sizeof(unsigned long)` and the 4 speed bytes as parameters |
| Hci.SpeedCommandFields | bluetooth/uim/uim.c:369-372 | the change-speed packet declares exactly the parameter bytes it carries, and its speed field holds the baud rate modulo 2^32 |
| Hci.AddressCommand | bluetooth/uim/uim.c:405-410 | the write-address packet parses as opcode `WRITE_BD_ADDR_OPCODE`, `plen = 6`, the six address octets in order |
| Hci.VersionQuery | bluetooth/uim/uim.c:63 | the version query is exactly the bytes 01 01 10 00 |
| EventReader.ReadUpTo | bluetooth/uim/uim.c:115 | a positive `read` return is the number of bytes stored, at most the count asked for; a failed or empty read stores nothing |
| EventReader.ReadUpToDelivered | bluetooth/uim/uim.c:115 | a read takes its bytes off the front of what the link delivers; a read that returns nothing means the link delivers nothing more before a failure |
| EventReader.SyncScan | bluetooth/uim/uim.c:98-110 | when the sync scan succeeds, `buf[0]` holds `RESP_PREFIX` |
| EventReader.SyncScanReference | bluetooth/uim/uim.c:98-110 | the sync scan succeeds exactly when the prefix byte arrives while fewer than 4 failed or empty reads have accumulated (stray bytes cost nothing; the count is never reset), and it leaves the link just past that byte |
| EventReader.FillTo | bluetooth/uim/uim.c:114-119 | a fill only adds bytes after those already stored, never more than the target, and succeeds exactly when it reaches the target |
| EventReader.FillReference | bluetooth/uim/uim.c:114-132 | a fill succeeds exactly when the link delivers the missing bytes before a failed or empty read (no retry), stores the first of them and leaves the rest on the link; partial reads accumulate |
| EventReader.ReadEvent | bluetooth/uim/uim.c:82-135 | the return is -1 or at least 3. `size <= 0` gives -1 and stores nothing. On success `buf[0]` is `RESP_PREFIX`, the return counts the prefix and the stored bytes, and it is `3 + min(buf[2], size - 3)` when `size >= 3` and 3 when `size` is 1 or 2. For `size >= 3` no byte at or past `buf[size]` is stored; for a smaller `size` only the two header bytes are |
| EventReader.ParamsEvent | bluetooth/uim/uim.c:121-134 | after the header, the stored bytes keep the prefix and the header in front |
| EventReader.ParamsReference | bluetooth/uim/uim.c:121-134 | the parameter phase succeeds exactly when the link delivers the clamped parameter count, and the return counts header and parameters |
| EventReader.ReadEventReference | bluetooth/uim/uim.c:82-135 | read_hci_event succeeds exactly when the prefix arrives within the retry budget and the link then delivers the event code, the parameter length and the clamped parameters; it stores exactly those bytes after the prefix |
| EventReader.ReadInto | bluetooth/uim/uim.c:115 | `read(fd, buf + off, n)` stores what the read returns at `buf[off..]` and changes nothing else |
| EventReader.ReadOne | bluetooth/uim/uim.c:99 | one sync read overwrites `buf[0]` only when it returns a byte |
| EventReader.SyncLoop | bluetooth/uim/uim.c:98-110 | the sync loop on the array ends as `SyncScan` says and writes only `buf[0]` |
| EventReader.FillOnce | bluetooth/uim/uim.c:127-131 | one read of a fill loop stores its bytes just after those already stored and moves the fill one step of `FillTo` |
| EventReader.FillLoop | bluetooth/uim/uim.c:114-132 | each fill loop ends as `FillTo` says and writes only the bytes it stored |
| EventReader.ReadHeader | bluetooth/uim/uim.c:98-119 | the sync loop and the header fill leave `buf[0..3]` as the scan and the fill say and write nothing after `buf[2]` |
| EventReader.ReadParams | bluetooth/uim/uim.c:121-134 | the parameter fill returns and stores what `ParamsEvent` says |
| EventReader.ReadHciEvent | bluetooth/uim/uim.c:82-135 | read_hci_event on the array returns, consumes and stores exactly what `ReadEvent` says, and nothing else in the buffer changes |
| CommandComplete.AwaitCompletion | bluetooth/uim/uim.c:150-186 | one event is read into a `RESPONSE_SIZE`-byte record, and the reply is accepted when the read succeeds and the record passes `IsCompletion`: an event packet, a Command Complete event, `plen >= 4`, the awaited opcode echoed, status 0. A reply can be accepted only if `HCI_EVENT_PKT` is the sync byte `RESP_PREFIX` |
| CommandComplete.ReadCommandComplete | bluetooth/uim/uim.c:143-187 | returns 0 or -1, and 0 exactly when the event read succeeds and the record is an event packet, a Command Complete event, has `plen >= 4`, echoes the opcode and has status 0 |
| CommandComplete.CompletionAfterNoise | bluetooth/uim/uim.c:150-186 | a Command Complete event arriving after any amount of stray bytes is accepted exactly when it echoes the awaited opcode with status 0 |
| CommandComplete.StalledLinkRejected | bluetooth/uim/uim.c:98-110 | four failed reads before the prefix make the reply fail, whatever follows |
| Termios.MakeRaw | bluetooth/uim/uim.c:210 | `cfmakeraw` leaves eight data bits and no parity and no other control bit changed |
| Termios.SetSpeedCode | bluetooth/uim/uim.c:221-222 | `cfsetospeed`/`cfsetispeed` replace exactly the `CBAUD` bits |
| Termios.RawFlags | bluetooth/uim/uim.c:210-213 | the first setting: raw, bit 0 and `CRTSCTS` set, other bits kept |
| Termios.DefaultFlags | bluetooth/uim/uim.c:210-223 | the second setting: `B115200`, `CRTSCTS`, `CS8`, no parity; bits it does not touch are kept |
| Termios.SetBaudRate | bluetooth/uim/uim.c:195-229 | -1 exactly when `tcgetattr` fails; both `tcsetattr` results are ignored, and the port ends with the last setting that took effect |
| Termios.FlowFlags | bluetooth/uim/uim.c:252-256 | `CRTSCTS` is set exactly when `flow_ctrl != 0`; no other bit changes |
| Termios.OtherSpeedFlags | bluetooth/uim/uim.c:270-272 | the `CBAUD` bits become `BOTHER`; nothing else changes |
| Termios.SpeedT | bluetooth/uim/uim.c:273 | the baud rate stored in `c_ospeed` is taken modulo 2^32 and is itself when in range |
| Termios.CustomSpeedPort | bluetooth/uim/uim.c:252-274 | flow control as the flag says; other bits outside `CBAUD` kept; with the ioctls, speed code `BOTHER` and output speed the baud rate |
| Termios.SetCustomBaudRate | bluetooth/uim/uim.c:236-278 | -1 exactly when getting or setting the attributes fails, the port then unchanged; the ioctl results are not checked |
| Address.ScanReference | bluetooth/uim/uim.c:467-469 | `sscanf` converts all six fields exactly when the text starts with `XX:XX:XX:XX:XX:XX`, and field j is the value of the digits at 3j and 3j+1 |
| Address.FieldsAreOctets | bluetooth/uim/uim.c:474-479 | no converted field exceeds 255, so the check against 255 never rejects |
| Address.ScanFrom | bluetooth/uim/uim.c:467-469 | `sscanf` converts at most the six fields of its format, from field k on at most the remaining ones |
| Address.ParseAddress | bluetooth/uim/uim.c:458-486 | strtoba returns an address exactly when `sscanf` converts all six fields (a two-digit field never fails the 255 check), and octet j is field j |
| Address.StrToBa | bluetooth/uim/uim.c:458-486 | strtoba returns NULL unless exactly six fields convert; on success octet i is field i |
| Address.CopyOctets | bluetooth/uim/uim.c:474-482 | the copy loop succeeds exactly when every field is at most 255, and then yields the fields as octets |
| Address.ParseAddressReference | bluetooth/uim/uim.c:458-486 | strtoba succeeds exactly on text that starts with the address form, and octet j is the value of field j |
| Address.ReservedAreIgnored | bluetooth/uim/uim.c:496-498 | an address is reserved (all 0x00 or all 0xFF) exactly when it is one of the two table entries |
| Address.IsIgnored | bluetooth/uim/uim.c:522-539 | the `memcmp` loop over the table finds exactly the reserved addresses |
| Address.StartupOf | bluetooth/uim/uim.c:504-543 | more than one argument, or one whose length is not 17, is a usage error; an address is kept exactly when it parses and is not reserved |
| Address.ParseArguments | bluetooth/uim/uim.c:501-543 | main's argument handling computes `StartupOf` |
| Provisioning.HexChar | bluetooth/bd_prov/bd_provisioning.c:95 | `%X` prints an upper-case hex digit whose value is the nibble |
| Provisioning.Hex2 | bluetooth/bd_prov/bd_provisioning.c:95-98 | `%02X` prints two hex digits whose value is the octet |
| Provisioning.FormatAddress | bluetooth/bd_prov/bd_provisioning.c:95-98 | the formatted address is 17 characters |
| Provisioning.FormatFieldsAt | bluetooth/bd_prov/bd_provisioning.c:95-98 | character p of the formatted text is a colon after each field and otherwise a digit of octet p / 3, high nibble first |
| Provisioning.Snprintf | bluetooth/bd_prov/bd_provisioning.c:95 | `snprintf` keeps at most size - 1 characters, and all of a text that fits |
| Provisioning.FormatFitsBuffer | bluetooth/bd_prov/bd_provisioning.c:42-98 | the 17 characters plus the terminator fill `BD_LEN = 18` exactly, so nothing is truncated |
| Provisioning.FormatIsAddressText | bluetooth/bd_prov/bd_provisioning.c:95-98 | the formatted text has the address form, and field j reads as b[j] |
| Provisioning.FormatThenParse | bluetooth/bd_prov/bd_provisioning.c:95-98 | strtoba applied to the formatted text gives back the six octets |
| Provisioning.ParseThenFormat | bluetooth/uim/uim.c:458-486 | an address text strtoba accepts is, up to the case of its hex letters, the text bd_provisioning writes for the parsed octets |
| Provisioning.PlaceholderIsFormatted | bluetooth/bd_prov/bd_provisioning.c:51 | the initial buffer text is what the formatter writes for the all-zero address |
| Provisioning.PlaceholderIsReserved | bluetooth/bd_prov/bd_provisioning.c:51 | the placeholder parses as the all-zero address, which uim drops as reserved |
| Provisioning.Retrieved | bluetooth/bd_prov/bd_provisioning.c:59-90 | the address is used exactly when the secure element is built in, returned `BD_ADDRESS_LEN` and gave a buffer |
| Provisioning.Provision | bluetooth/bd_prov/bd_provisioning.c:44-116 | an argument count other than 1 returns -1 and writes nothing. The file is written exactly when an address was retrieved and the file opens, and then with the formatted address and return 0. A non-zero return otherwise is errno from a failed open |
| Provisioning.ProvisionedAddressReachesUim | bluetooth/bd_prov/bd_provisioning.c:90-99 | uim started with what bd_provisioning wrote programs the retrieved address itself unless that address is reserved |
| Daemon.AcksOf | bluetooth/uim/uim.c:386-427 | whether the controller completes the change-speed command and then the write-address command; either reply is accepted only if `HCI_EVENT_PKT` is the sync byte. The two replies come from separate inputs, since the UART's input is flushed between them |
| Daemon.DisciplineSettles | bluetooth/uim/uim.c:441-446 | the line-discipline stage returns 0 or -1; -1 with `dev_fd` closed, the close being its last call; 0 with the discipline set and `dev_fd` as before; no command sent is taken back |
| Daemon.VersionSettles | bluetooth/uim/uim.c:433-446 | the same for the version query and what follows it |
| Daemon.AddressSettles | bluetooth/uim/uim.c:402-446 | the same for the write-address exchange and what follows it |
| Daemon.HostSpeedSettles | bluetooth/uim/uim.c:394-446 | the same for `set_custom_baud_rate` and what follows it |
| Daemon.SpeedReplySettles | bluetooth/uim/uim.c:386-446 | the same for the change-speed reply and what follows it |
| Daemon.SpeedSettles | bluetooth/uim/uim.c:365-446 | the same for the change-speed exchange and what follows it |
| Daemon.SetupSettles | bluetooth/uim/uim.c:345-446 | the same for everything after the open, where a 0 return leaves `dev_fd` open |
| Daemon.ConfigureSettles | bluetooth/uim/uim.c:284-455 | `st_uart_config` returns 0 or -1. Any value but `'1'` returns 0 with `dev_fd` closed. An install returning 0 leaves `dev_fd` open with the line discipline set. An install returning -1 has closed `dev_fd`, unless sysfs could not be read, which changes nothing. Commands sent are never taken back |
| Daemon.DisciplineFollows | bluetooth/uim/uim.c:441-446 | `TIOCSETD` is the last call; success exactly when it succeeds, and a failure closes `dev_fd` |
| Daemon.VersionFollows | bluetooth/uim/uim.c:433-446 | the version query is written, its result ignored, then the line discipline is set |
| Daemon.AddressReplyFollows | bluetooth/uim/uim.c:423-427 | after the address command, a reply that does not complete it closes `dev_fd` and returns -1 |
| Daemon.AddressFollows | bluetooth/uim/uim.c:402-432 | the address exchange makes the write, the wait, the version query and `TIOCSETD` in that order; it succeeds exactly when the write, the reply and `TIOCSETD` succeed |
| Daemon.HostSpeedFollows | bluetooth/uim/uim.c:394-432 | the host speed precedes the address exchange; success exactly when the attributes can be read and set and the rest succeeds |
| Daemon.SpeedReplyFollows | bluetooth/uim/uim.c:386-432 | after the change-speed command, its reply must complete it before the host speed is set |
| Daemon.SpeedFollows | bluetooth/uim/uim.c:365-436 | the speed command precedes its reply, which precedes the host speed, which precedes the address command (only with an address); success exactly when each checked step succeeds |
| Daemon.SetupFollows | bluetooth/uim/uim.c:351-446 | the default speed and non-blocking mode come first; the speed exchange only when the baud rate is not 115200; the line discipline last |
| Daemon.OpenedFollows | bluetooth/uim/uim.c:345-446 | an install run past the open follows the schedule and starts with the open |
| Daemon.InstallFollowsSchedule | bluetooth/uim/uim.c:296-447 | an install run returns 0 exactly when every checked call succeeds. It then has made exactly the scheduled calls, with `dev_fd` open and the discipline set. Otherwise it has made a prefix of the schedule followed by `close(dev_fd)`. A failed open makes only the open |
| Daemon.UninstallAndSysfsFailure | bluetooth/uim/uim.c:296-453 | any value but `'1'` closes `dev_fd`, sends nothing and returns 0; a failed sysfs read returns -1 and touches nothing |
| Daemon.NoCommandsAtDefaultSpeed | bluetooth/uim/uim.c:365-446 | at 115200 baud no command frame is written or sent |
| Daemon.AddressFailureAborts | bluetooth/uim/uim.c:416-427 | a write-address command that cannot be written or is not completed returns -1 with `dev_fd` closed and no line discipline set |
| Daemon.InstallAbortsOnAddressFailure | bluetooth/uim/uim.c:403-427 | the same for the whole install run: an address failure aborts the install |
| Daemon.PollLoop | bluetooth/uim/uim.c:571-598 | the loop makes at most one `st_uart_config` call per wake-up and ends only with -1; when it makes no call, the UART is unchanged and no call is made on it |
| Daemon.Polled | bluetooth/uim/uim.c:553-598 | at most one call more than the wake-ups, for a `'1'` read before the loop; without that read the poll is `PollLoop` from the value read |
| Daemon.PollCallsAlternate | bluetooth/uim/uim.c:588-598 | `st_uart_config` is only called with a value that differs from the one before it, so consecutive calls never repeat a value, hence never two installs in a row |
| Daemon.PollKeepsSent | bluetooth/uim/uim.c:571-598 | however many times the poll reconfigures the UART, no command once sent is taken back |
| Daemon.Uim.constructor | bluetooth/uim/uim.c:44-51 | the daemon starts with no address and `dev_fd` not open |
| Daemon.Uim.Close | bluetooth/uim/uim.c:359 | a failure after the open closes `dev_fd` |
| Daemon.Uim.InstallDiscipline | bluetooth/uim/uim.c:441-446 | sets the line discipline or closes `dev_fd`, as `DisciplineStage` says |
| Daemon.Uim.QueryVersionThenInstall | bluetooth/uim/uim.c:59-73 | `read_firmware_version` writes the version query (recorded as sent only when the write succeeds); the method then sets the discipline (lines 441-446), as `VersionStage` says |
| Daemon.Uim.SendAddress | bluetooth/uim/uim.c:403-432 | the address exchange on the daemon's state, its reply read from the write-address input, as `AddressStage` says |
| Daemon.Uim.SetHostSpeed | bluetooth/uim/uim.c:394-432 | `set_custom_baud_rate` and what follows, as `HostSpeedStage` says |
| Daemon.Uim.ChangeSpeed | bluetooth/uim/uim.c:365-436 | the speed exchange on the daemon's state, as `SpeedStage` says |
| Daemon.Uim.Setup | bluetooth/uim/uim.c:351-446 | everything after the open, as `SetupStage` says |
| Daemon.Uim.UartConfig | bluetooth/uim/uim.c:284-455 | `st_uart_config` returns, calls and leaves the UART as `Configure` says; an uninstall leaves `dev_fd` closed |
| Daemon.Uim.FirstRead | bluetooth/uim/uim.c:553-561 | a byte read before the poll becomes the install value; only a `'1'` triggers `st_uart_config` |
| Daemon.Uim.OnWake | bluetooth/uim/uim.c:581-598 | a failed reopen ends main with -1. Otherwise `previous` takes the old value and the byte read becomes `install`. `st_uart_config` is called exactly when that byte differs from the old value, and its failure does not stop the loop |
| Daemon.Uim.Poll | bluetooth/uim/uim.c:553-599 | the return, the `st_uart_config` calls, the UART after the last wake-up and every call made on it are those of `Polled`. Install is never requested while `dev_fd` is open, and `dev_fd` is open only while the install value is `'1'` |
| Daemon.Uim.Run | bluetooth/uim/uim.c:489-606 | a usage error or an install entry that cannot be opened returns -1 before any `st_uart_config` call, with the UART untouched; otherwise the kept address is the one `StartupOf` gives and the poll runs as `Polled` says |

## Left out

- The terminal calls (`tcflush`, `tcgetattr`, `tcsetattr`, `cfmakeraw`, the `TCGETS2`/`TCSETS2` ioctls, `TIOCSETD`, `fcntl`) are not executed. Whether each succeeds is an input, and only their effect on `c_cflag` and the output speed is modelled. `c_iflag`, `c_oflag` and `c_lflag`, and the input speed of termios2, are not followed.
- Termios.CustomSpeedPort: when `TCGETS2` fails, the C sets the speed from an uninitialised `ti2`. The model has one input for both ioctls: when it is false, neither ioctl has an effect.
- The 50 ms `nanosleep` of the sync scan is not modelled. Only the retry count is kept.
- `poll` is not modelled: blocking, `EINTR`, and the `exiting` flag, which nothing sets. Each wake-up of the loop is an input: whether the install entry reopens and what its one-byte read gives.
- The opening and reading of the three sysfs files, and their `sscanf` conversions, are not modelled. The device name, baud rate and flow flag arrive as one input, and `None` stands for any open or read failure; those all return -1 without touching `dev_fd`. A conversion that fails and leaves `cust_baud_rate` or `flow_ctrl` uninitialised is not modelled.
- Address.ScanFrom: only the strict form of `%02X` is modelled: exactly two hex digits per field. glibc's `sscanf` also accepts a single digit, leading white space, a sign or a `0x` prefix within the two-character width. For those texts the model answers NULL where the C may not.
- Address.ParseArguments: arguments are Dafny strings. A C argument cannot contain a NUL, and `strncpy` into `uim_bd_address` copies the argument unchanged when its length is 17; the model assumes that case.
- Daemon.Uim.QueryVersionThenInstall: only the write of the version query is modelled. Its 15-byte read and the debug printing are left out: nothing is checked and nothing later reads the UART.
- Writes count as successful when `write` does not return a negative value. Partial writes are not distinguished, as the C does not distinguish them.
- `dev_fd` starts as the static 0 in the C, so an uninstall before any install closes descriptor 0. The model starts with `dev_fd` not open, and an uninstall just leaves it closed.
- On the 32-bit target `long` is 32 bits. The baud rate is an unbounded integer in the model. Truncation is explicit where it is stored: the `speed` field, modulo 2^32, and `c_ospeed`, modulo 2^32.
- EventReader.ReadHciEvent: the buffer must have room for the 3 header bytes and `size` must not exceed its length. For a `size` of 1 or 2 the C writes the event code and parameter length past the caller's buffer, which an `array` cannot represent. Every caller in `uim.c` passes a `command_complete_t` record, at least 7 bytes long.
- When the first read of the install entry fails, the C leaves `install` uninitialised. The model keeps the value the daemon held before.
- Logging, `malloc`/`free` and the packed struct layouts of `uim.h` (`uim.h` is not part of this model) are left out. The constants defined there are declared without a value.
- In bd_provisioning, `get_customer_data` is the secure-element call and is an input: its return value and buffer. `fopen`, `fprintf`, `fflush` and `fclose` are not modelled. Whether the file opens and the `errno` of a failed open are inputs, and the result of `fprintf` is ignored, as in the C.
