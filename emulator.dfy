/** The emulator as the program runs it: a serial port that bytes are read
    from one at a time and written to one at a time, the reading and framing
    helpers, and the command loop, each step by step and each proved against
    the reference definitions of module Stk500. */
module Emulator {
  import opened Stk500
  import opened Replies

  /** The serial port. The bytes the client will send are fixed in advance;
      pos is how many of them have been read, and output is everything
      written so far, which only ever grows. */
  class Port {
    const input: seq<byte>
    var pos: nat
    var output: seq<byte>

    ghost predicate Valid()
      reads this
    {
      pos <= |input|
    }

    /** A freshly opened port: nothing read, nothing written. */
    constructor (input: seq<byte>)
      ensures Valid()
      ensures this.input == input && pos == 0 && output == []
    {
      this.input := input;
      pos := 0;
      output := [];
    }
  }

  /** Read one byte. Reading past the end of the input stands for the
      blocking read that never returns, so callers must leave a byte. */
  method GetCh(s: Port) returns (c: byte)
    requires s.Valid() && s.pos < |s.input|
    modifies s
    ensures s.Valid()
    ensures c == s.input[old(s.pos)]
    ensures s.pos == old(s.pos) + 1 && s.output == old(s.output)
  {
    c := s.input[s.pos];
    s.pos := s.pos + 1;
  }

  /** Read and discard count bytes. */
  method GetNCh(s: Port, count: nat)
    requires s.Valid() && s.pos + count <= |s.input|
    modifies s
    ensures s.Valid()
    ensures s.pos == old(s.pos) + count && s.output == old(s.output)
  {
    for i := 0 to count
      invariant s.Valid()
      invariant s.pos == old(s.pos) + i && s.output == old(s.output)
    {
      var _ := GetCh(s);
    }
  }

  /** Write one byte. */
  method PutCh(s: Port, c: byte)
    requires s.Valid()
    modifies s
    ensures s.Valid()
    ensures s.pos == old(s.pos) && s.output == old(s.output) + [c]
  {
    s.output := s.output + [c];
  }

  /** Read the sync byte; acknowledge with in-sync, OK if it is right, and
      write nothing at all if it is not. */
  method NothingResponse(s: Port)
    requires s.Valid() && s.pos < |s.input|
    modifies s
    ensures s.Valid() && s.pos == old(s.pos) + 1
    ensures s.output == old(s.output) +
      (if s.input[old(s.pos)] == SyncCrcEop then [InSync, RespOk] else [])
  {
    var c := GetCh(s);
    if c == ' ' as int {
      PutCh(s, InSync);
      PutCh(s, RespOk);
    }
  }

  /** Read the sync byte; answer in-sync, b, OK if it is right, and write
      nothing at all if it is not. */
  method ByteResponse(s: Port, b: byte)
    requires s.Valid() && s.pos < |s.input|
    modifies s
    ensures s.Valid() && s.pos == old(s.pos) + 1
    ensures s.output == old(s.output) +
      (if s.input[old(s.pos)] == SyncCrcEop then [InSync, b, RespOk] else [])
  {
    var c := GetCh(s);
    if c == ' ' as int {
      PutCh(s, InSync);
      PutCh(s, b);
      PutCh(s, RespOk);
    }
  }

  /** One pass of the command loop: read the opcode and run its branch.
      The reply is the one the reference definition Serve gives. */
  method ServeCommand(s: Port, address: nat) returns (address': nat, done: bool)
    requires s.Valid() && Serve(s.input, s.pos, address).Served?
    modifies s
    ensures s.Valid()
    ensures var r := Serve(s.input, old(s.pos), address);
      s.pos == r.next && s.output == old(s.output) + r.out &&
      address' == r.address && done == r.done
  {
    ServeTable(s.input, s.pos, address);
    address', done := Dispatch(s, address, Serve(s.input, s.pos, address));
  }

  /** The branches of the command loop, proved against the opcode table. */
  method Dispatch(s: Port, address: nat, ghost r: Outcome) returns (address': nat, done: bool)
    requires s.Valid() && s.pos < |s.input| && r.Served? && OpcodeTable(s.input, s.pos, address, r)
    modifies s
    ensures s.Valid()
    ensures s.pos == r.next && s.output == old(s.output) + r.out &&
      address' == r.address && done == r.done
  {
    address', done := address, false;
    var ch := GetCh(s);
    if ch == '0' as int {
      NothingResponse(s);
    } else if ch == '1' as int {
      SignOnCommand(s);
    } else if ch == 'A' as int {
      GetParameterCommand(s);
    } else if ch == 'B' as int {
      GetNCh(s, 20);
      NothingResponse(s);
    } else if ch == 'E' as int {
      GetNCh(s, 5);
      NothingResponse(s);
    } else if ch == 'P' as int {
      NothingResponse(s);
    } else if ch == 'u' as int {
      ReadSignCommand(s);
    } else if ch == 'V' as int {
      UniversalCommand(s);
    } else if ch == 'U' as int {
      address' := LoadAddressCommand(s);
    } else if ch == 't' as int {
      ReadPageCommand(s);
    } else if ch == 'd' as int {
      ProgPageCommand(s);
    } else if ch == 'Q' as int {
      NothingResponse(s);
      done := true;
    }
  }

  /** The sign-on branch, after its opcode: the sync byte, then in-sync,
      "AVR ISP" byte by byte, OK. */
  method SignOnCommand(s: Port)
    requires s.Valid() && s.pos + 1 <= |s.input|
    modifies s
    ensures s.Valid() && s.pos == old(s.pos) + 1
    ensures s.output == old(s.output) +
      if s.input[old(s.pos)] == SyncCrcEop then [0x14, 0x41, 0x56, 0x52, 0x20, 0x49, 0x53, 0x50, 0x10] else []
  {
    var sync := GetCh(s);
    if sync == ' ' as int {
      PutCh(s, InSync);
      PutCh(s, 'A' as int);
      PutCh(s, 'V' as int);
      PutCh(s, 'R' as int);
      PutCh(s, ' ' as int);
      PutCh(s, 'I' as int);
      PutCh(s, 'S' as int);
      PutCh(s, 'P' as int);
      PutCh(s, RespOk);
    }
  }

  /** The get-parameter branch, after its opcode: the parameter id, then
      the sync byte and the parameter's value. */
  method GetParameterCommand(s: Port)
    requires s.Valid() && s.pos + 2 <= |s.input|
    modifies s
    ensures s.Valid() && s.pos == old(s.pos) + 2
    ensures s.output == old(s.output) +
      if s.input[old(s.pos) + 1] == SyncCrcEop then [InSync, ParameterValue(s.input[old(s.pos)]), RespOk] else []
  {
    var ch2 := GetCh(s);
    if ch2 == 0x80 { ByteResponse(s, HwVer); }
    else if ch2 == 0x81 { ByteResponse(s, SwMajor); }
    else if ch2 == 0x82 { ByteResponse(s, SwMinor); }
    else if ch2 == 0x98 { ByteResponse(s, 0x03); }
    else { ByteResponse(s, 0x00); }
  }

  /** The read-signature branch, after its opcode: the sync byte, then the
      three signature bytes. */
  method ReadSignCommand(s: Port)
    requires s.Valid() && s.pos + 1 <= |s.input|
    modifies s
    ensures s.Valid() && s.pos == old(s.pos) + 1
    ensures s.output == old(s.output) +
      if s.input[old(s.pos)] == SyncCrcEop then [InSync, Sig1, Sig2, Sig3, RespOk] else []
  {
    var sync := GetCh(s);
    if sync == ' ' as int {
      PutCh(s, InSync);
      PutCh(s, Sig1);
      PutCh(s, Sig2);
      PutCh(s, Sig3);
      PutCh(s, RespOk);
    }
  }

  /** The universal branch, after its opcode: four instruction bytes, then
      the sync byte and the emulated instruction's result. */
  method UniversalCommand(s: Port)
    requires s.Valid() && s.pos + 5 <= |s.input|
    modifies s
    ensures s.Valid() && s.pos == old(s.pos) + 5
    ensures s.output == old(s.output) +
      if s.input[old(s.pos) + 4] == SyncCrcEop
      then [InSync, UniversalValue(s.input[old(s.pos)], s.input[old(s.pos) + 2]), RespOk]
      else []
  {
    var i1 := GetCh(s);
    if i1 == 0x30 {
      var _ := GetCh(s);
      var i3 := GetCh(s);
      var _ := GetCh(s);
      if i3 == 0 { ByteResponse(s, Sig1); }
      else if i3 == 1 { ByteResponse(s, Sig2); }
      else { ByteResponse(s, Sig3); }
    } else {
      GetNCh(s, 3);
      ByteResponse(s, 0x00);
    }
  }

  /** The load-address branch, after its opcode: a little-endian word
      address, doubled into a byte address and stored before the sync byte
      is even looked at. */
  method LoadAddressCommand(s: Port) returns (address: nat)
    requires s.Valid() && s.pos + 3 <= |s.input|
    modifies s
    ensures s.Valid() && s.pos == old(s.pos) + 3
    ensures address == (s.input[old(s.pos)] as int + 256 * s.input[old(s.pos) + 1] as int) * 2
    ensures s.output == old(s.output) +
      if s.input[old(s.pos) + 2] == SyncCrcEop then [InSync, RespOk] else []
  {
    address := GetCh(s);
    var hi := GetCh(s);
    address := address + hi as int * 256;
    address := address * 2;
    NothingResponse(s);
  }

  /** The read-page branch, after its opcode: a big-endian length, a memory
      type flag ('E' for EEPROM, which only the trace reports), the sync
      byte, and on a good sync length erased bytes between the framing. */
  method ReadPageCommand(s: Port)
    requires s.Valid() && s.pos + 4 <= |s.input|
    modifies s
    ensures s.Valid() && s.pos == old(s.pos) + 4
    ensures var len := 256 * s.input[old(s.pos)] as int + s.input[old(s.pos) + 1] as int;
      s.output == old(s.output) +
        if s.input[old(s.pos) + 3] == SyncCrcEop then [InSync] + ErasedBytes(len) + [RespOk] else []
  {
    var hi := GetCh(s);
    var length: nat := hi as int * 256;
    var lo := GetCh(s);
    length := length + lo;
    var _ := GetCh(s);  // memory-type flag: only the trace tells EEPROM from flash
    var sync := GetCh(s);
    if sync == ' ' as int {
      PutCh(s, InSync);
      for i := 0 to length
        invariant s.Valid() && s.pos == old(s.pos) + 4
        invariant s.output == old(s.output) + [InSync] + ErasedBytes(i)
      {
        PutCh(s, 0xFF);
        assert ErasedBytes(i + 1) == ErasedBytes(i) + [Erased];
      }
      PutCh(s, RespOk);
    }
  }

  /** The write-page branch, after its opcode: a big-endian length, a memory
      type flag, length data bytes that are thrown away, and the sync byte,
      acknowledged with in-sync, OK when it is right. */
  method ProgPageCommand(s: Port)
    requires s.Valid() && s.pos + 2 <= |s.input|
    requires s.pos + 4 + 256 * s.input[s.pos] as int + s.input[s.pos + 1] as int <= |s.input|
    modifies s
    ensures s.Valid()
    ensures var len := 256 * s.input[old(s.pos)] as int + s.input[old(s.pos) + 1] as int;
      s.pos == old(s.pos) + 4 + len &&
      s.output == old(s.output) + if s.input[old(s.pos) + 3 + len] == SyncCrcEop then [InSync, RespOk] else []
  {
    var hi := GetCh(s);
    var length: nat := hi as int * 256;
    var lo := GetCh(s);
    length := length + lo;
    var _ := GetCh(s);  // memory-type flag: only the trace tells EEPROM from flash
    for i := 0 to length
      invariant s.Valid() && s.pos == old(s.pos) + 3 + i
      invariant s.output == old(s.output)
    {
      var _ := GetCh(s);
    }
    var sync := GetCh(s);
    if sync == ' ' as int {
      PutCh(s, InSync);
      PutCh(s, RespOk);
    }
  }

  /** The command loop of a session: the address pointer starts at 0, and
      commands are served until leave-program-mode ends the session (done)
      or the input cannot complete the next command (the source would wait
      for more bytes there). */
  method MainLoop(s: Port) returns (done: bool)
    requires s.Valid()
    modifies s
    ensures s.Valid()
    ensures var r := Run(s.input, old(s.pos), 0);
      s.pos == r.pos && s.output == old(s.output) + r.out && done == r.done
  {
    var address := 0;
    done := false;
    ghost var r0 := Run(s.input, s.pos, 0);
    // what the loop has still to do, as the reference definition has it
    ghost var rest := r0;
    while !done && Serve(s.input, s.pos, address).Served?
      invariant s.Valid()
      invariant !done ==> rest == Run(s.input, s.pos, address)
      invariant done ==> rest == Final(s.pos, [], address, true)
      invariant rest.pos == r0.pos && rest.done == r0.done
      invariant old(s.output) + r0.out == s.output + rest.out
      decreases |s.input| - s.pos, !done
    {
      ghost var st := Serve(s.input, s.pos, address);
      ghost var out := s.output;
      address, done := ServeCommand(s, address);
      if done {
        rest := Final(s.pos, [], address, true);
      } else {
        rest := Run(s.input, s.pos, address);
      }
      AppendAssoc(out, st.out, rest.out);
    }
  }

  /** Regrouping the output written so far, the output of one command and
      the output still to come; MainLoop's output invariant needs it stated. */
  lemma AppendAssoc(a: seq<byte>, b: seq<byte>, c: seq<byte>)
    ensures a + (b + c) == (a + b) + c
  {
  }
}
