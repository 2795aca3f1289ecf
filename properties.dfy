/** What the reference definitions promise: the exact reply and input
    consumption of every opcode, the silent handling of a bad sync byte, the
    address pointer's range, and how the command loop treats a growing input
    stream and the end of a session. */
module Replies {
  import opened Stk500

  // ---------------------------------------------------------------------
  // Opcodes

  lemma DecodeOpcode(c: Command)
    requires c != Unknown
    ensures Decode(Opcode(c)) == c
  {
  }

  /** Exactly twelve opcode bytes are recognised. */
  lemma DecodeUnknown(op: byte)
    ensures Decode(op) == Unknown <==>
      op !in {0x30, 0x31, 0x41, 0x42, 0x45, 0x50, 0x51, 0x55, 0x56, 0x64, 0x74, 0x75}
  {
  }

  // ---------------------------------------------------------------------
  // Framing and operand decoding

  /** A framed reply is empty exactly on a bad sync byte; otherwise it is the
      payload between in-sync and OK. */
  lemma FramedShape(sync: byte, payload: seq<byte>)
    ensures var r := Framed(sync, payload);
      (r == [] <==> sync != 0x20) &&
      (sync == 0x20 ==> |r| == |payload| + 2 && r[0] == 0x14 && r[|r| - 1] == 0x10 && r[1..|r| - 1] == payload)
  {
  }

  /** The page length is a 16-bit big-endian number: the first byte is its
      high byte and the second its low byte. */
  lemma PageLengthBigEndian(hi: byte, lo: byte)
    ensures PageLength(hi, lo) <= 0xFFFF
    ensures PageLength(hi, lo) / 256 == hi && PageLength(hi, lo) % 256 == lo
  {
  }

  // ---------------------------------------------------------------------
  // One command at a time. Each lemma gives the whole outcome of the
  // command at input[pos]: it is Starved exactly when the input ends before
  // the command's last byte. Each is read off the command table OpcodeTable
  // below.

  /** '0' (get synchronisation): the sync byte, then an empty acknowledgement. */
  lemma GetSyncReply(input: seq<byte>, pos: nat, address: nat)
    requires pos < |input| && input[pos] == '0' as int
    ensures Serve(input, pos, address) ==
      if |input| < pos + 2 then Starved
      else Served(pos + 2, if input[pos + 1] == 0x20 then [0x14, 0x10] else [], address, false)
  {
    ServeTable(input, pos, address);
  }

  /** '1' (sign on): the sync byte, then in-sync, "AVR ISP", OK. */
  lemma SignOnReply(input: seq<byte>, pos: nat, address: nat)
    requires pos < |input| && input[pos] == '1' as int
    ensures Serve(input, pos, address) ==
      if |input| < pos + 2 then Starved
      else Served(pos + 2,
                  if input[pos + 1] == 0x20 then [0x14, 0x41, 0x56, 0x52, 0x20, 0x49, 0x53, 0x50, 0x10] else [],
                  address, false)
  {
    ServeTable(input, pos, address);
  }

  /** 'A' (get parameter): a parameter id and the sync byte; the payload is
      the parameter's value. */
  lemma GetParameterReply(input: seq<byte>, pos: nat, address: nat)
    requires pos < |input| && input[pos] == 'A' as int
    ensures Serve(input, pos, address) ==
      if |input| < pos + 3 then Starved
      else Served(pos + 3,
                  if input[pos + 2] == 0x20 then [0x14, ParameterValue(input[pos + 1]), 0x10] else [],
                  address, false)
  {
    ServeTable(input, pos, address);
  }

  /** The parameter table: hardware version 2, software version 1.16,
      programmer type 3, and 0 for every other id. */
  lemma ParameterTable(id: byte)
    ensures ParameterValue(id) ==
      match id
      case 0x80 => 0x02
      case 0x81 => 0x01
      case 0x82 => 0x10
      case 0x98 => 0x03
      case _ => 0x00
  {
  }

  /** 'B' (set device): twenty ignored bytes and the sync byte. */
  lemma SetDeviceReply(input: seq<byte>, pos: nat, address: nat)
    requires pos < |input| && input[pos] == 'B' as int
    ensures Serve(input, pos, address) ==
      if |input| < pos + 22 then Starved
      else Served(pos + 22, if input[pos + 21] == 0x20 then [0x14, 0x10] else [], address, false)
  {
    ServeTable(input, pos, address);
  }

  /** 'E' (set extended device parameters): five ignored bytes and the sync byte. */
  lemma SetDeviceExtReply(input: seq<byte>, pos: nat, address: nat)
    requires pos < |input| && input[pos] == 'E' as int
    ensures Serve(input, pos, address) ==
      if |input| < pos + 7 then Starved
      else Served(pos + 7, if input[pos + 6] == 0x20 then [0x14, 0x10] else [], address, false)
  {
    ServeTable(input, pos, address);
  }

  /** 'P' (enter program mode): the sync byte, then an empty acknowledgement. */
  lemma EnterProgModeReply(input: seq<byte>, pos: nat, address: nat)
    requires pos < |input| && input[pos] == 'P' as int
    ensures Serve(input, pos, address) ==
      if |input| < pos + 2 then Starved
      else Served(pos + 2, if input[pos + 1] == 0x20 then [0x14, 0x10] else [], address, false)
  {
    ServeTable(input, pos, address);
  }

  /** 'u' (read signature): the sync byte, then the three signature bytes. */
  lemma ReadSignReply(input: seq<byte>, pos: nat, address: nat)
    requires pos < |input| && input[pos] == 'u' as int
    ensures Serve(input, pos, address) ==
      if |input| < pos + 2 then Starved
      else Served(pos + 2, if input[pos + 1] == 0x20 then [0x14, 0x1E, 0x95, 0x0F, 0x10] else [], address, false)
  {
    ServeTable(input, pos, address);
  }

  /** 'V' (universal): four instruction bytes and the sync byte, whatever the
      instruction; the payload is chosen by the first and third bytes. */
  lemma UniversalReply(input: seq<byte>, pos: nat, address: nat)
    requires pos < |input| && input[pos] == 'V' as int
    ensures Serve(input, pos, address) ==
      if |input| < pos + 6 then Starved
      else Served(pos + 6,
                  if input[pos + 5] == 0x20 then [0x14, UniversalValue(input[pos + 1], input[pos + 3]), 0x10] else [],
                  address, false)
  {
    ServeTable(input, pos, address);
  }

  /** The universal instruction table: "read signature byte" 0x30 answers
      signature byte 1, 2 or 3 by its third byte, anything else answers 0. */
  lemma UniversalTable(i1: byte, i3: byte)
    ensures UniversalValue(i1, i3) ==
      if i1 != 0x30 then 0x00
      else if i3 == 0 then 0x1E
      else if i3 == 1 then 0x95
      else 0x0F
  {
  }

  /** 'U' (load address): a little-endian word address and the sync byte;
      the byte address is stored whether or not the sync byte is right. */
  lemma LoadAddressReply(input: seq<byte>, pos: nat, address: nat)
    requires pos < |input| && input[pos] == 'U' as int
    ensures Serve(input, pos, address) ==
      if |input| < pos + 4 then Starved
      else Served(pos + 4, if input[pos + 3] == 0x20 then [0x14, 0x10] else [],
                  (input[pos + 1] as int + 256 * input[pos + 2] as int) * 2, false)
  {
    ServeTable(input, pos, address);
  }

  /** The stored address is a byte address of a 16-bit word: even, and at
      most 2 * 0xFFFF. */
  lemma ByteAddressRange(lo: byte, hi: byte)
    ensures ByteAddress(lo, hi) % 2 == 0 && ByteAddress(lo, hi) <= 131070
    ensures ByteAddress(lo, hi) / 2 == lo as int + 256 * hi as int
  {
  }

  /** Word address 0x0100 (bytes 0x00, 0x01) is byte address 0x200. */
  lemma LoadAddressExample(input: seq<byte>, pos: nat, address: nat)
    requires pos + 4 <= |input| && input[pos] == 'U' as int
    requires input[pos + 1] == 0x00 && input[pos + 2] == 0x01
    ensures Serve(input, pos, address).address == 0x200
  {
    LoadAddressReply(input, pos, address);
  }

  /** 't' (read page): a big-endian length, a memory type flag and the sync
      byte; the reply carries length erased bytes. */
  lemma ReadPageReply(input: seq<byte>, pos: nat, address: nat)
    requires pos < |input| && input[pos] == 't' as int
    ensures Serve(input, pos, address) ==
      if |input| < pos + 5 then Starved
      else Served(pos + 5,
                  if input[pos + 4] == 0x20 then [0x14] + ErasedBytes(256 * input[pos + 1] as int + input[pos + 2] as int) + [0x10] else [],
                  address, false)
  {
    ServeTable(input, pos, address);
  }

  /** A read page reply on a good sync is length + 2 bytes: in-sync, length
      copies of 0xFF, and OK. */
  lemma ReadPageShape(input: seq<byte>, pos: nat, address: nat)
    requires pos + 5 <= |input| && input[pos] == 't' as int && input[pos + 4] == 0x20
    ensures var len := 256 * input[pos + 1] as int + input[pos + 2] as int;
      var out := Serve(input, pos, address).out;
      |out| == len + 2 && out[0] == 0x14 && out[len + 1] == 0x10 &&
      forall i :: 1 <= i <= len ==> out[i] == 0xFF
  {
    ReadPageReply(input, pos, address);
  }

  /** What a page read answers depends neither on the address pointer nor
      on the memory type flag: memory is not modelled, so an EEPROM read and
      a flash read look the same. */
  lemma ReadPageIgnoresAddressAndFlag(input: seq<byte>, pos: nat, a1: nat, a2: nat, flag: byte)
    requires pos + 5 <= |input| && input[pos] == 't' as int
    ensures Serve(input, pos, a1).out == Serve(input[pos + 3 := flag], pos, a2).out
  {
    ReadPageReply(input, pos, a1);
    ReadPageReply(input[pos + 3 := flag], pos, a2);
  }

  /** 'd' (program page): a big-endian length, a memory type flag, length
      data bytes and the sync byte; the data is discarded. */
  lemma ProgPageReply(input: seq<byte>, pos: nat, address: nat)
    requires pos < |input| && input[pos] == 'd' as int
    ensures Serve(input, pos, address) ==
      if |input| < pos + 3 then Starved
      else
        var len := 256 * input[pos + 1] as int + input[pos + 2] as int;
        if |input| < pos + 5 + len then Starved
        else Served(pos + 5 + len, if input[pos + 4 + len] == 0x20 then [0x14, 0x10] else [], address, false)
  {
    ServeTable(input, pos, address);
  }

  /** The data bytes of a page write never matter: any other data of the
      same length gets the same outcome. */
  lemma ProgPageIgnoresData(input: seq<byte>, pos: nat, address: nat, data: seq<byte>)
    requires pos + 3 <= |input| && input[pos] == 'd' as int
    requires pos + 5 + PageLength(input[pos + 1], input[pos + 2]) <= |input|
    requires |data| == PageLength(input[pos + 1], input[pos + 2])
    ensures var input' := input[..pos + 4] + data + input[pos + 4 + |data|..];
      Serve(input', pos, address) == Serve(input, pos, address)
  {
    var input' := input[..pos + 4] + data + input[pos + 4 + |data|..];
    assert |input'| == |input|;
    assert input'[pos] == input[pos] && input'[pos + 1] == input[pos + 1] && input'[pos + 2] == input[pos + 2];
    assert input'[pos + 4 + |data|] == input[pos + 4 + |data|];
  }

  /** 'Q' (leave program mode): the sync byte, an empty acknowledgement, and
      the session ends whatever the sync byte was. */
  lemma LeaveProgModeReply(input: seq<byte>, pos: nat, address: nat)
    requires pos < |input| && input[pos] == 'Q' as int
    ensures Serve(input, pos, address) ==
      if |input| < pos + 2 then Starved
      else Served(pos + 2, if input[pos + 1] == 0x20 then [0x14, 0x10] else [], address, true)
  {
    ServeTable(input, pos, address);
  }

  /** Any other byte is read and ignored: nothing is written and nothing
      else is read for it. */
  lemma UnknownReply(input: seq<byte>, pos: nat, address: nat)
    requires pos < |input| && Decode(input[pos]) == Unknown
    ensures Serve(input, pos, address) == Served(pos + 1, [], address, false)
  {
    ServeTable(input, pos, address);
  }

  // ---------------------------------------------------------------------
  // Properties of every command.

  /** How many bytes a served command took, counting its opcode. */
  lemma ConsumedBytes(input: seq<byte>, pos: nat, address: nat)
    requires Serve(input, pos, address).Served?
    ensures var n := Serve(input, pos, address).next - pos;
      var op := input[pos];
      (op in {0x30, 0x31, 0x50, 0x75, 0x51} ==> n == 2) &&   // '0' '1' 'P' 'u' 'Q'
      (op == 0x41 ==> n == 3) &&                               // 'A'
      (op == 0x55 ==> n == 4) &&                               // 'U'
      (op == 0x74 ==> n == 5) &&                               // 't'
      (op == 0x56 ==> n == 6) &&                               // 'V'
      (op == 0x45 ==> n == 7) &&                               // 'E'
      (op == 0x42 ==> n == 22) &&                              // 'B'
      (op == 0x64 ==> n == 5 + 256 * input[pos + 1] as int + input[pos + 2] as int) &&  // 'd'
      (Decode(op) == Unknown ==> n == 1)
  {
  }

  /** A reply is either nothing or a whole frame: in-sync first, OK last. It
      is nothing exactly when the opcode is unknown or the byte where the
      sync byte belongs (the command's last byte) is not 0x20. */
  lemma ReplyFraming(input: seq<byte>, pos: nat, address: nat)
    requires Serve(input, pos, address).Served?
    ensures var r := Serve(input, pos, address);
      (r.out == [] <==> Decode(input[pos]) == Unknown || input[r.next - 1] != SyncCrcEop) &&
      (r.out != [] ==> |r.out| >= 2 && r.out[0] == InSync && r.out[|r.out| - 1] == RespOk)
  {
    var c := Decode(input[pos]);
    if c != Unknown && c != ProgPage {
      var r := Serve(input, pos, address);
      assert r.out == Framed(input[r.next - 1], Payload(c, input, pos));
    }
  }

  /** Only load-address moves the address pointer, and only
      leave-program-mode ends the session. */
  lemma OnlyLoadAddressMovesAddress(input: seq<byte>, pos: nat, address: nat)
    requires Serve(input, pos, address).Served?
    ensures Serve(input, pos, address).address != address ==> input[pos] == 'U' as int
    ensures Serve(input, pos, address).done <==> input[pos] == 'Q' as int
  {
  }

  /** The address pointer always holds an even byte address of the 128 KiB
      a 16-bit word address reaches, if it did before. */
  lemma ServeKeepsAddressRange(input: seq<byte>, pos: nat, address: nat)
    requires Serve(input, pos, address).Served?
    requires address % 2 == 0 && address <= 131070
    ensures Serve(input, pos, address).address % 2 == 0
    ensures Serve(input, pos, address).address <= 131070
  {
    if Decode(input[pos]) == LoadAddress {
      ByteAddressRange(input[pos + 1], input[pos + 2]);
    }
  }

  /** A command's outcome depends only on the bytes it consumed: bytes that
      come later, or a longer input, change nothing (the source reads one byte
      at a time and never looks ahead). */
  lemma ServeIsLocal(input: seq<byte>, input': seq<byte>, pos: nat, address: nat)
    requires Serve(input, pos, address).Served?
    requires Serve(input, pos, address).next <= |input'|
    requires input'[..Serve(input, pos, address).next] == input[..Serve(input, pos, address).next]
    ensures Serve(input', pos, address) == Serve(input, pos, address)
  {
    var next := Serve(input, pos, address).next;
    forall i | 0 <= i < next ensures input'[i] == input[i] {
      assert input'[..next][i] == input[..next][i];
    }
    var c := Decode(input[pos]);
    if c == ProgPage {
      assert input'[pos + 1] == input[pos + 1] && input'[pos + 2] == input[pos + 2];
    }
  }

  // ---------------------------------------------------------------------
  // The command loop.

  /** More input never takes back what the loop did: the bytes read and the
      bytes written on an input are a prefix of those on any extension of
      it. */
  lemma {:induction false} RunExtends(input: seq<byte>, more: seq<byte>, pos: nat, address: nat)
    requires pos <= |input|
    ensures var r := Run(input, pos, address);
      var r' := Run(input + more, pos, address);
      r.pos <= r'.pos && r.out <= r'.out && (r.done ==> r' == r)
    decreases |input| - pos
  {
    var st := Serve(input, pos, address);
    if st.Served? {
      ServeIsLocal(input, input + more, pos, address);
      if !st.done {
        RunExtends(input, more, st.next, st.address);
      }
    }
  }

  /** Nothing after leave-program-mode is read: once the loop has ended the
      session, any bytes that follow (or none) give the same run. */
  lemma {:induction false} LeaveIsFinal(input: seq<byte>, input': seq<byte>, pos: nat, address: nat)
    requires pos <= |input| && Run(input, pos, address).done
    requires Run(input, pos, address).pos <= |input'|
    requires input'[..Run(input, pos, address).pos] == input[..Run(input, pos, address).pos]
    ensures Run(input', pos, address) == Run(input, pos, address)
    decreases |input| - pos
  {
    var r := Run(input, pos, address);
    var st := Serve(input, pos, address);
    assert st.Served?;
    assert input'[..st.next] == input[..st.next] by {
      assert input'[..st.next] == input'[..r.pos][..st.next];
      assert input[..st.next] == input[..r.pos][..st.next];
    }
    ServeIsLocal(input, input', pos, address);
    if !st.done {
      LeaveIsFinal(input, input', st.next, st.address);
    }
  }

  /** The loop keeps the address pointer an even byte address of at most
      131070, starting from any such address (the session starts at 0). */
  lemma {:induction false} RunKeepsAddressRange(input: seq<byte>, pos: nat, address: nat)
    requires pos <= |input| && address % 2 == 0 && address <= 131070
    ensures Run(input, pos, address).address % 2 == 0
    ensures Run(input, pos, address).address <= 131070
    decreases |input| - pos
  {
    var st := Serve(input, pos, address);
    if st.Served? {
      ServeKeepsAddressRange(input, pos, address);
      if !st.done {
        RunKeepsAddressRange(input, st.next, st.address);
      }
    }
  }

  // ---------------------------------------------------------------------
  // The whole command table.

  /** The command table opcode by opcode, every reply written out byte by
      byte: what one command does when it starts at input[pos]. */
  ghost predicate OpcodeTable(input: seq<byte>, pos: nat, address: nat, r: Outcome)
    requires pos < |input|
  {
    var op := input[pos];
    (op == '0' as int ==> r == if |input| < pos + 2 then Starved
      else Served(pos + 2, if input[pos + 1] == 0x20 then [0x14, 0x10] else [], address, false)) &&
    (op == '1' as int ==> r == if |input| < pos + 2 then Starved
      else Served(pos + 2, if input[pos + 1] == 0x20 then [0x14, 0x41, 0x56, 0x52, 0x20, 0x49, 0x53, 0x50, 0x10] else [], address, false)) &&
    (op == 'A' as int ==> r == if |input| < pos + 3 then Starved
      else Served(pos + 3, if input[pos + 2] == 0x20 then [0x14, ParameterValue(input[pos + 1]), 0x10] else [], address, false)) &&
    (op == 'B' as int ==> r == if |input| < pos + 22 then Starved
      else Served(pos + 22, if input[pos + 21] == 0x20 then [0x14, 0x10] else [], address, false)) &&
    (op == 'E' as int ==> r == if |input| < pos + 7 then Starved
      else Served(pos + 7, if input[pos + 6] == 0x20 then [0x14, 0x10] else [], address, false)) &&
    (op == 'P' as int ==> r == if |input| < pos + 2 then Starved
      else Served(pos + 2, if input[pos + 1] == 0x20 then [0x14, 0x10] else [], address, false)) &&
    (op == 'u' as int ==> r == if |input| < pos + 2 then Starved
      else Served(pos + 2, if input[pos + 1] == 0x20 then [0x14, 0x1E, 0x95, 0x0F, 0x10] else [], address, false)) &&
    (op == 'V' as int ==> r == if |input| < pos + 6 then Starved
      else Served(pos + 6, if input[pos + 5] == 0x20 then [0x14, UniversalValue(input[pos + 1], input[pos + 3]), 0x10] else [], address, false)) &&
    (op == 'U' as int ==> r == if |input| < pos + 4 then Starved
      else Served(pos + 4, if input[pos + 3] == 0x20 then [0x14, 0x10] else [], (input[pos + 1] as int + 256 * input[pos + 2] as int) * 2, false)) &&
    (op == 't' as int ==> r == if |input| < pos + 5 then Starved
      else Served(pos + 5, if input[pos + 4] == 0x20 then [0x14] + ErasedBytes(256 * input[pos + 1] as int + input[pos + 2] as int) + [0x10] else [], address, false)) &&
    (op == 'd' as int ==> r == if |input| < pos + 3 then Starved
      else var len := 256 * input[pos + 1] as int + input[pos + 2] as int;
        if |input| < pos + 5 + len then Starved
        else Served(pos + 5 + len, if input[pos + 4 + len] == 0x20 then [0x14, 0x10] else [], address, false)) &&
    (op == 'Q' as int ==> r == if |input| < pos + 2 then Starved
      else Served(pos + 2, if input[pos + 1] == 0x20 then [0x14, 0x10] else [], address, true)) &&
    (Decode(op) == Unknown ==> r == Served(pos + 1, [], address, false))
  }

  /** The table-driven reference definition agrees with the table: every
      fixed-size command takes the one generic branch of Serve. */
  lemma ServeTable(input: seq<byte>, pos: nat, address: nat)
    requires pos < |input|
    ensures OpcodeTable(input, pos, address, Serve(input, pos, address))
  {
    var op := input[pos];
    if Decode(op) != Unknown && Decode(op) != ProgPage {
      assert Serve(input, pos, address) == (if |input| < pos + FixedLength(Decode(op)) then Starved
        else Served(pos + FixedLength(Decode(op)),
                    Framed(input[pos + FixedLength(Decode(op)) - 1], Payload(Decode(op), input, pos)),
                    if Decode(op) == LoadAddress then ByteAddress(input[pos + 1], input[pos + 2]) else address,
                    Decode(op) == LeaveProgMode));
    }
  }
}
