/** The STK500v1 command set as the emulated ATmegaBOOT_168 bootloader
    answers it (reporting the signature of an ATmega328P):
    the wire constants, the closed set of opcodes it recognises, and a
    reference definition of what one command consumes from the serial input
    and writes back (Serve), and of what the command loop does with a whole
    input stream (Run). The byte-by-byte emulator in module Emulator is proved
    against these definitions. */
module Stk500 {

  /** One byte on the serial line, as pyserial hands it over (0..255). */
  type byte = x: int | 0 <= x < 256

  // Identification values reported by the bootloader.
  const HwVer: byte := 0x02
  const SwMajor: byte := 0x01
  const SwMinor: byte := 0x10
  const Sig1: byte := 0x1E
  const Sig2: byte := 0x95
  const Sig3: byte := 0x0F
  /** Value reported for parameter 0x98 (the programmer type). */
  const ProgrammerType: byte := 0x03

  // Framing bytes.
  /** What the client sends to close every command (ASCII space). */
  const SyncCrcEop: byte := 0x20
  /** First byte of every reply. */
  const InSync: byte := 0x14
  /** Last byte of every reply. */
  const RespOk: byte := 0x10

  // Parameter identifiers of the get-parameter command.
  const ParamHwVer: byte := 0x80
  const ParamSwMajor: byte := 0x81
  const ParamSwMinor: byte := 0x82
  const ParamProgrammerType: byte := 0x98

  /** First byte of the ISP "read signature byte" instruction. */
  const IspReadSignature: byte := 0x30

  /** Fill value of every page read: erased memory. */
  const Erased: byte := 0xFF

  /** Payload of the sign-on command: "AVR ISP" in ASCII, no terminator. */
  const SignOnId: seq<byte> := [0x41, 0x56, 0x52, 0x20, 0x49, 0x53, 0x50]

  /** The opcodes the bootloader recognises; every other byte is Unknown. */
  datatype Command =
    | GetSync         // '0'
    | GetSignOn       // '1'
    | GetParameter    // 'A'
    | SetDevice       // 'B'
    | SetDeviceExt    // 'E'
    | EnterProgMode   // 'P'
    | ReadSign        // 'u'
    | Universal       // 'V'
    | LoadAddress     // 'U'
    | ReadPage        // 't'
    | ProgPage        // 'd'
    | LeaveProgMode   // 'Q'
    | Unknown

  /** The opcode byte of a recognised command. */
  function Opcode(c: Command): byte
    requires c != Unknown
  {
    match c
    case GetSync => '0' as int
    case GetSignOn => '1' as int
    case GetParameter => 'A' as int
    case SetDevice => 'B' as int
    case SetDeviceExt => 'E' as int
    case EnterProgMode => 'P' as int
    case ReadSign => 'u' as int
    case Universal => 'V' as int
    case LoadAddress => 'U' as int
    case ReadPage => 't' as int
    case ProgPage => 'd' as int
    case LeaveProgMode => 'Q' as int
  }

  /** The command an opcode byte selects. */
  function Decode(op: byte): (c: Command)
    ensures c != Unknown ==> Opcode(c) == op
  {
    if op == '0' as int then GetSync
    else if op == '1' as int then GetSignOn
    else if op == 'A' as int then GetParameter
    else if op == 'B' as int then SetDevice
    else if op == 'E' as int then SetDeviceExt
    else if op == 'P' as int then EnterProgMode
    else if op == 'u' as int then ReadSign
    else if op == 'V' as int then Universal
    else if op == 'U' as int then LoadAddress
    else if op == 't' as int then ReadPage
    else if op == 'd' as int then ProgPage
    else if op == 'Q' as int then LeaveProgMode
    else Unknown
  }

  /** Bytes a fixed-size command takes on the wire, counting the opcode and
      the closing sync byte. ProgPage's size depends on its length field. */
  function FixedLength(c: Command): nat
    requires c != Unknown && c != ProgPage
  {
    match c
    case GetSync => 2
    case GetSignOn => 2
    case EnterProgMode => 2
    case ReadSign => 2
    case LeaveProgMode => 2
    case GetParameter => 3
    case LoadAddress => 4
    case ReadPage => 5
    case Universal => 6
    case SetDeviceExt => 7
    case SetDevice => 22
  }

  /** The value the get-parameter command reports for a parameter id. */
  function ParameterValue(id: byte): byte
  {
    if id == ParamHwVer then HwVer
    else if id == ParamSwMajor then SwMajor
    else if id == ParamSwMinor then SwMinor
    else if id == ParamProgrammerType then ProgrammerType
    else 0x00
  }

  /** The reply byte of an emulated 4-byte ISP instruction i1 i2 i3 i4:
      only "read signature byte" (i1 == 0x30) is understood, and i3 selects
      which signature byte; i2 and i4 never matter. */
  function UniversalValue(i1: byte, i3: byte): byte
  {
    if i1 != IspReadSignature then 0x00
    else if i3 == 0 then Sig1
    else if i3 == 1 then Sig2
    else Sig3
  }

  /** The load-address command's operand: a 16-bit word address sent low byte
      first, turned into a byte address. */
  function ByteAddress(lo: byte, hi: byte): nat
  {
    (lo as int + hi as int * 256) * 2
  }

  /** The 16-bit page length of the page commands, sent high byte first. */
  function PageLength(hi: byte, lo: byte): nat
  {
    hi as int * 256 + lo
  }

  /** A run of n erased bytes. */
  function ErasedBytes(n: nat): (r: seq<byte>)
    ensures |r| == n && forall i :: 0 <= i < n ==> r[i] == Erased
  {
    if n == 0 then [] else [Erased] + ErasedBytes(n - 1)
  }

  /** A reply framed by the sync byte the client sent: on a good sync the
      in-sync byte, the payload and the OK byte; on a bad one nothing at all. */
  function Framed(sync: byte, payload: seq<byte>): seq<byte>
  {
    if sync == SyncCrcEop then [InSync] + payload + [RespOk] else []
  }

  /** The payload a fixed-size command answers with; its argument bytes are
      those after the opcode at input[pos]. */
  function Payload(c: Command, input: seq<byte>, pos: nat): seq<byte>
    requires c != Unknown && c != ProgPage
    requires pos + FixedLength(c) <= |input|
  {
    match c
    case GetSignOn => SignOnId
    case GetParameter => [ParameterValue(input[pos + 1])]
    case ReadSign => [Sig1, Sig2, Sig3]
    case Universal => [UniversalValue(input[pos + 1], input[pos + 3])]
    case ReadPage => ErasedBytes(PageLength(input[pos + 1], input[pos + 2]))
    case _ => []
  }

  /** What handling one command does: either the input ran out before the
      command was complete (the source would block in a read), or the command
      was consumed up to position next, wrote out, left the address pointer at
      address and, for leave-program-mode, ended the session. */
  datatype Outcome =
    | Starved
    | Served(next: nat, out: seq<byte>, address: nat, done: bool)

  /** Reference definition of one pass of the command loop over the input
      bytes from position pos, with the current address pointer. */
  function Serve(input: seq<byte>, pos: nat, address: nat): (r: Outcome)
    ensures r.Served? ==> pos < r.next <= |input|
    ensures r.Served? && r.done ==> r.next == pos + 2
  {
    if |input| <= pos then Starved
    else
      var c := Decode(input[pos]);
      if c == Unknown then Served(pos + 1, [], address, false)
      else if c == ProgPage then
        if |input| < pos + 3 then Starved
        else
          var len := PageLength(input[pos + 1], input[pos + 2]);
          if |input| < pos + 5 + len then Starved
          else Served(pos + 5 + len, Framed(input[pos + 4 + len], []), address, false)
      else
        var n := FixedLength(c);
        if |input| < pos + n then Starved
        else
          var address' := if c == LoadAddress then ByteAddress(input[pos + 1], input[pos + 2]) else address;
          Served(pos + n, Framed(input[pos + n - 1], Payload(c, input, pos)), address', c == LeaveProgMode)
  }

  /** Where the command loop ends up. */
  datatype Final = Final(pos: nat, out: seq<byte>, address: nat, done: bool)

  /** Reference definition of the command loop: serve commands from position
      pos until one ends the session or the input cannot complete the next. */
  function Run(input: seq<byte>, pos: nat, address: nat): (r: Final)
    requires pos <= |input|
    ensures pos <= r.pos <= |input|
    ensures r.done ==> pos + 2 <= r.pos && Decode(input[r.pos - 2]) == LeaveProgMode
    ensures !r.done ==> Serve(input, r.pos, r.address).Starved?
    decreases |input| - pos
  {
    match Serve(input, pos, address)
    case Starved => Final(pos, [], address, false)
    case Served(next, out, address', done) =>
      if done then Final(next, out, address', true)
      else
        var rest := Run(input, next, address');
        Final(rest.pos, out + rest.out, rest.address, rest.done)
  }
}
