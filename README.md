# PyTmegaBOOT168 command loop in Dafny

PyTmegaBOOT168 emulates the STK500v1 bootloader ATmegaBOOT_168 on a serial
port. It reports the signature `1E 95 0F`, so a client identifies the target
as an ATmega328P. An `avrdude` client talks to it as if to a real board. The emulator
reads one opcode byte at a time, reads that command's argument bytes and a
closing sync byte (`' '`, 0x20), and answers with a framed reply: 0x14
(in-sync), any payload, then 0x10 (OK). If the sync byte is wrong it writes
nothing. The only state is the address pointer and the `done` flag. The
leave-program-mode command `'Q'` sets `done` and ends the session. No memory
is emulated: page reads answer 0xFF bytes and page writes are thrown away.

The model has three modules:

- `Stk500` (`stk500.dfy`) holds:
  - the wire constants, the identification values `HW_VER`..`SIG3` and the
    opcode set `Command`;
  - `Serve`, a reference definition of one command over a finite input
    sequence, giving the next position, the bytes written, the new address
    and `done`;
  - `Run`, a reference definition of the whole command loop.
- `Replies` (`properties.dfy`) holds what those definitions promise:
  - the exact outcome of every opcode, and the full command table;
  - the parameter and universal-instruction tables;
  - input consumption, framing and the address range;
  - locality: a command depends only on the bytes it read;
  - the fact that nothing is read after `'Q'`.
- `Emulator` (`emulator.dfy`) is the program as it runs. A `Port` class is the
  serial port: an input sequence fixed in advance, a read position, and an
  output sequence that only grows. `GetCh`, `GetNCh`, `PutCh`,
  `NothingResponse` and `ByteResponse` are methods that change the port one
  byte at a time, and `MainLoop` is the `while not done` loop. The port
  helpers and the per-command branch methods are proved against their own
  byte-level contracts. `Dispatch` is proved against the opcode table
  `OpcodeTable`, `ServeCommand` against `Serve`, and `MainLoop` against
  `Run`.

A read on an exhausted input stands for the blocking serial read. The
reading methods require a byte to be there. `Serve` returns `Starved` when
the input ends before a command is complete, and `MainLoop` stops there.

The body of the source's loop is one long `if`/`elif` chain. In the model it
is split up:

- `ServeCommand` connects one loop pass to `Serve`.
- `Dispatch` holds the chain itself.
- A short method holds each longer branch, for example `SignOnCommand` and
  `ReadPageCommand`.

The `address` and `done` variables stay locals of `MainLoop`, as they are
locals of `main_loop`. The `'t'` and `'d'` branches read the memory-type flag
and discard it. The source turns it into an `eeprom` boolean that only its
console trace uses, and the trace is not modelled.

## Model

| member | source | states |
|---|---|---|
| Stk500.Decode | PyTmegaBOOT168.py:59-157 | each recognised opcode byte selects the command whose opcode it is |
| Stk500.ErasedBytes | PyTmegaBOOT168.py:142 | a page read's payload has exactly the page length and every byte is 0xFF |
| Stk500.Serve | PyTmegaBOOT168.py:56-160 | a served command consumes at least its opcode and stays within the input; a session-ending command takes exactly two bytes |
| Stk500.Run | PyTmegaBOOT168.py:52-160 | the loop never moves backwards or past the input; it ends with done exactly after a leave-program-mode command, and otherwise only where the next command cannot complete |
| Stk500.Opcode | PyTmegaBOOT168.py:59-157 | the opcode byte that selects each command in the dispatch chain; pinned down by Replies.DecodeOpcode, which proves that Decode inverts it |
| Stk500.FixedLength | PyTmegaBOOT168.py:56-160 | the bytes a fixed-size command takes, counting the opcode and the sync byte; pinned down by Replies.ConsumedBytes |
| Stk500.ParameterValue | PyTmegaBOOT168.py:81-85 | the value get-parameter reports for each parameter id; pinned down by Replies.ParameterTable |
| Stk500.UniversalValue | PyTmegaBOOT168.py:112-121 | the result of an emulated ISP instruction; pinned down by Replies.UniversalTable |
| Stk500.ByteAddress | PyTmegaBOOT168.py:124-128 | the little-endian word address doubled into a byte address; pinned down by Replies.ByteAddressRange |
| Stk500.PageLength | PyTmegaBOOT168.py:135-136 | the big-endian 16-bit page length (read the same way at lines 147-148); pinned down by Replies.PageLengthBigEndian |
| Stk500.Framed | PyTmegaBOOT168.py:22-31 | the pure form of the framing helpers' reply; pinned down by Replies.FramedShape |
| Stk500.Payload | PyTmegaBOOT168.py:59-160 | the payload each fixed-size command puts between in-sync and OK; pinned down opcode by opcode by the Replies reply lemmas and Replies.ServeTable |
| Replies.FramedShape | PyTmegaBOOT168.py:22-31 | a framed reply is empty if and only if the sync byte is not 0x20; otherwise it is 0x14, the payload, 0x10 |
| Replies.PageLengthBigEndian | PyTmegaBOOT168.py:135-136 | the page length is at most 0xFFFF, with the first length byte as its high byte and the second as its low byte |
| Replies.DecodeOpcode | PyTmegaBOOT168.py:59-157 | decoding a command's opcode gives that command back |
| Replies.DecodeUnknown | PyTmegaBOOT168.py:59-157 | an opcode is unrecognised if and only if it is not one of the twelve bytes `0 1 A B E P Q U V d t u` |
| Replies.GetSyncReply | PyTmegaBOOT168.py:59-61 | `'0'` takes 2 bytes and answers `14 10` on a good sync, nothing otherwise; too short an input starves |
| Replies.SignOnReply | PyTmegaBOOT168.py:65-76 | `'1'` takes 2 bytes and answers the nine bytes `14 "AVR ISP" 10` on a good sync, nothing otherwise |
| Replies.GetParameterReply | PyTmegaBOOT168.py:78-85 | `'A'` takes 3 bytes and answers `14 value 10`, choosing the value by the parameter byte |
| Replies.ParameterTable | PyTmegaBOOT168.py:81-85 | parameter 0x80 gives 0x02, 0x81 gives 0x01, 0x82 gives 0x10, 0x98 gives 0x03, any other gives 0x00 |
| Replies.SetDeviceReply | PyTmegaBOOT168.py:87-90 | `'B'` takes 22 bytes, ignores the 20 parameter bytes and answers `14 10` on a good sync |
| Replies.SetDeviceExtReply | PyTmegaBOOT168.py:92-95 | `'E'` takes 7 bytes, ignores the 5 parameter bytes and answers `14 10` on a good sync |
| Replies.EnterProgModeReply | PyTmegaBOOT168.py:97-99 | `'P'` takes 2 bytes and answers `14 10` on a good sync |
| Replies.ReadSignReply | PyTmegaBOOT168.py:101-108 | `'u'` takes 2 bytes and answers `14 1E 95 0F 10` on a good sync |
| Replies.UniversalReply | PyTmegaBOOT168.py:110-121 | `'V'` always takes 6 bytes; the reply byte depends only on the first and third instruction bytes |
| Replies.UniversalTable | PyTmegaBOOT168.py:112-121 | instruction 0x30 answers SIG1 when the third byte is 0, SIG2 when it is 1 and SIG3 otherwise; any other instruction answers 0x00 |
| Replies.LoadAddressReply | PyTmegaBOOT168.py:123-131 | `'U'` takes 4 bytes and sets the address to (lo + 256*hi)*2, even when the sync byte is wrong |
| Replies.ByteAddressRange | PyTmegaBOOT168.py:124-128 | a loaded address is even, at most 131070, and half of it is the word address |
| Replies.LoadAddressExample | PyTmegaBOOT168.py:124-128 | bytes 0x00, 0x01 load byte address 0x200 |
| Replies.ReadPageReply | PyTmegaBOOT168.py:133-143 | `'t'` takes 5 bytes, reads the length big-endian, and on a good sync answers in-sync, length erased bytes, OK |
| Replies.ReadPageShape | PyTmegaBOOT168.py:139-143 | a good page read's reply is length+2 bytes: 0x14, then length copies of 0xFF, then 0x10 |
| Replies.ReadPageIgnoresAddressAndFlag | PyTmegaBOOT168.py:137-143 | a page read's reply is the same for any address and any memory-type flag |
| Replies.ProgPageReply | PyTmegaBOOT168.py:145-155 | `'d'` takes 5 + length bytes, keeps the address, and answers `14 10` on a good sync |
| Replies.ProgPageIgnoresData | PyTmegaBOOT168.py:151 | replacing the data bytes of a page write by any others of the same length changes nothing |
| Replies.LeaveProgModeReply | PyTmegaBOOT168.py:157-160 | `'Q'` takes 2 bytes, answers `14 10` on a good sync, and ends the session whatever the sync byte is |
| Replies.UnknownReply | PyTmegaBOOT168.py:56-59 | an unrecognised opcode takes that one byte, writes nothing and changes nothing |
| Replies.ConsumedBytes | PyTmegaBOOT168.py:52-160 | bytes consumed per opcode: 2 for `0 1 P u Q`, 3 for `A`, 4 for `U`, 5 for `t`, 6 for `V`, 7 for `E`, 22 for `B`, 5+length for `d`, 1 for any other |
| Replies.ReplyFraming | PyTmegaBOOT168.py:22-31 | a reply is empty if and only if the opcode is unrecognised or the command's last byte is not 0x20; a non-empty reply starts with 0x14 and ends with 0x10 |
| Replies.OnlyLoadAddressMovesAddress | PyTmegaBOOT168.py:52-160 | only `'U'` changes the address, and a command ends the session if and only if it is `'Q'` |
| Replies.ServeKeepsAddressRange | PyTmegaBOOT168.py:123-128 | every command keeps the address even and at most 131070 |
| Replies.ServeIsLocal | PyTmegaBOOT168.py:10-16 | a command's outcome depends only on the bytes it consumed, never on later ones |
| Replies.RunExtends | PyTmegaBOOT168.py:52-160 | on a longer input the loop reads and writes at least as much, its output extends the shorter input's, and a finished session is unchanged |
| Replies.LeaveIsFinal | PyTmegaBOOT168.py:56-160 | after `'Q'` nothing more is read: any bytes after the session's end give the same run |
| Replies.RunKeepsAddressRange | PyTmegaBOOT168.py:52-160 | the whole loop keeps the address even and at most 131070 |
| Replies.ServeTable | PyTmegaBOOT168.py:56-160 | the table-driven Serve agrees with the command table written out opcode by opcode |
| Emulator.Port.constructor | PyTmegaBOOT168.py:10-20 | a fresh port has read nothing and written nothing |
| Emulator.GetCh | PyTmegaBOOT168.py:10-13 | reads the next input byte, advancing the position by one and writing nothing |
| Emulator.GetNCh | PyTmegaBOOT168.py:15-16 | discards exactly count bytes and writes nothing |
| Emulator.PutCh | PyTmegaBOOT168.py:18-20 | appends exactly one byte to the output |
| Emulator.NothingResponse | PyTmegaBOOT168.py:22-25 | reads one byte; writes `14 10` if it is 0x20 and nothing otherwise |
| Emulator.ByteResponse | PyTmegaBOOT168.py:27-31 | reads one byte; writes `14 b 10` if it is 0x20 and nothing otherwise |
| Emulator.ServeCommand | PyTmegaBOOT168.py:56-160 | one pass of the loop reads, writes and sets the address and done exactly as Serve says |
| Emulator.Dispatch | PyTmegaBOOT168.py:57-160 | the opcode dispatch does what the opcode table gives for the opcode read |
| Emulator.SignOnCommand | PyTmegaBOOT168.py:65-76 | after `'1'`: one byte read; `14 "AVR ISP" 10` written on a good sync |
| Emulator.GetParameterCommand | PyTmegaBOOT168.py:78-85 | after `'A'`: two bytes read; `14 value 10` written on a good sync |
| Emulator.ReadSignCommand | PyTmegaBOOT168.py:101-108 | after `'u'`: one byte read; `14 SIG1 SIG2 SIG3 10` written on a good sync |
| Emulator.UniversalCommand | PyTmegaBOOT168.py:110-121 | after `'V'`: five bytes read whichever path is taken; the emulated instruction's result written on a good sync |
| Emulator.LoadAddressCommand | PyTmegaBOOT168.py:123-131 | after `'U'`: three bytes read; returns (lo + 256*hi)*2; `14 10` written on a good sync |
| Emulator.ReadPageCommand | PyTmegaBOOT168.py:133-143 | after `'t'`: four bytes read; in-sync, length erased bytes and OK written on a good sync, with a loop invariant tracking the bytes written so far |
| Emulator.ProgPageCommand | PyTmegaBOOT168.py:145-155 | after `'d'`: 4 + length bytes read; `14 10` written on a good sync |
| Emulator.MainLoop | PyTmegaBOOT168.py:52-160 | the loop, from address 0, reads, writes and ends exactly as Run says |

## Left out

- `main()` is not modelled: argument parsing, the baud-rate conversion and exit codes, and opening the serial port at the baud rate given on the command line, 57600 by default. These are process and serial-library plumbing.
- `KeyboardInterrupt` handling and closing the port are operating-system signal and resource handling.
- `print` tracing, `hex_ascii`, `rw_msg` and `usage` are not modelled. They format console messages and have no effect on the protocol.
- Real blocking and timeout behaviour of the serial read is not modelled. A read needs a byte to be present. A read timeout, where the source would index an empty read and raise, is not modelled.
- MainLoop: when the input ends part-way through a command, the model stops before that command's opcode. The loop decides this by looking ahead: its guard evaluates `Serve` on bytes it has not yet read, which the blocking source cannot do. The source would have consumed the partial bytes and be blocked in a read. The output is the same either way, because every command writes only after its last read.
- Flash and EEPROM contents are not modelled, because the program keeps none: page reads answer 0xFF and page data is discarded. So the address pointer and the memory-type flag never affect a reply.
