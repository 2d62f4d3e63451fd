/** The packet layer of the GDB stub (gdbstub.c): hex encoding, framing, and the byte-by-byte reader. */
module GdbPacket {
  import opened Words

  const MAX_PACKET_LENGTH: nat := 4096
  const DOLLAR: Byte := 0x24
  const HASH: Byte := 0x23
  const PLUS: Byte := 0x2b
  const MINUS: Byte := 0x2d

  /** fromhex; anything that is not a hex digit counts as 0. */
  function FromHex(v: Byte): (r: Byte)
    ensures r < 16
  {
    if 0x30 <= v <= 0x39 then v - 0x30
    else if 0x41 <= v <= 0x46 then v - 0x41 + 10
    else if 0x61 <= v <= 0x66 then v - 0x61 + 10
    else 0
  }

  /** tohex. */
  function ToHex(v: nat): (r: Byte)
    requires v < 16
    ensures FromHex(r) == v && r != HASH && r != DOLLAR
  {
    if v < 10 then v + 0x30 else v - 10 + 0x61
  }

  /** The hex text of some memory. */
  function HexOf(mem: seq<Byte>): (s: seq<Byte>)
    ensures |s| == 2 * |mem|
  {
    if mem == [] then []
    else
      var c := mem[|mem| - 1];
      HexOf(mem[..|mem| - 1]) + [ToHex(c / 16), ToHex(c % 16)]
  }

  /** memtohex, with the terminating zero. */
  method MemToHex(buf: array<Byte>, mem: seq<Byte>)
    requires buf.Length > 2 * |mem|
    modifies buf
    ensures buf[..2 * |mem|] == HexOf(mem) && buf[2 * |mem|] == 0
    ensures forall k | 2 * |mem| < k < buf.Length :: buf[k] == old(buf[k])
  {
    var i := 0;
    while i < |mem|
      invariant 0 <= i <= |mem| && buf[..2 * i] == HexOf(mem[..i])
      invariant forall k | 2 * i <= k < buf.Length :: buf[k] == old(buf[k])
    {
      var c := mem[i];
      assert mem[..i + 1][..i] == mem[..i];
      buf[2 * i] := ToHex(c / 16);
      buf[2 * i + 1] := ToHex(c % 16);
      assert buf[..2 * i + 2] == buf[..2 * i] + [ToHex(c / 16), ToHex(c % 16)];
      i := i + 1;
    }
    assert mem[..i] == mem;
    buf[2 * i] := 0;
    assert buf[..2 * i] == HexOf(mem);
  }

  /** hextomem. */
  method HexToMem(mem: array<Byte>, buf: seq<Byte>, len: nat)
    requires mem.Length >= len && |buf| >= 2 * len
    modifies mem
    ensures forall i | 0 <= i < len :: mem[i] == FromHex(buf[2 * i]) * 16 + FromHex(buf[2 * i + 1])
    ensures forall i | len <= i < mem.Length :: mem[i] == old(mem[i])
  {
    var i := 0;
    while i < len
      invariant 0 <= i <= len
      invariant forall j | 0 <= j < i :: mem[j] == FromHex(buf[2 * j]) * 16 + FromHex(buf[2 * j + 1])
      invariant forall j | i <= j < mem.Length :: mem[j] == old(mem[j])
    {
      mem[i] := FromHex(buf[2 * i]) * 16 + FromHex(buf[2 * i + 1]);
      i := i + 1;
    }
  }

  lemma {:induction false} HexAt(mem: seq<Byte>, i: nat)
    requires i < |mem|
    ensures HexOf(mem)[2 * i] == ToHex(mem[i] / 16) && HexOf(mem)[2 * i + 1] == ToHex(mem[i] % 16)
  {
    if i < |mem| - 1 {
      HexAt(mem[..|mem| - 1], i);
    }
  }

  /** hextomem undoes memtohex. */
  method HexRoundTrip(mem: seq<Byte>, text: array<Byte>, back: array<Byte>)
    requires text.Length > 2 * |mem| && back.Length >= |mem| && text != back
    modifies text, back
    ensures back[..|mem|] == mem
  {
    MemToHex(text, mem);
    ghost var hex := text[..];
    HexToMem(back, text[..], |mem|);
    forall i | 0 <= i < |mem| ensures back[i] == mem[i] {
      HexAt(mem, i);
      assert hex[2 * i] == text[..2 * |mem|][2 * i] && hex[2 * i + 1] == text[..2 * |mem|][2 * i + 1];
    }
  }

  // Frames.

  function Sum(s: seq<Byte>): nat {
    if s == [] then 0 else Sum(s[..|s| - 1]) + s[|s| - 1]
  }

  /** The packet put_packet_binary sends. */
  function Frame(payload: seq<Byte>): seq<Byte> {
    var csum := Sum(payload);
    [DOLLAR] + payload + [HASH, ToHex(csum / 16 % 16), ToHex(csum % 16)]
  }

  datatype RSState = Idle | GetLine | Chksum1 | Chksum2

  class GdbState {
    var state: RSState
    const lineBuf: array<Byte>
    var index: nat
    var lineCsum: nat
    const lastPacket: array<Byte>
    var lastPacketLen: nat
    var running: bool
    /** All bytes sent, and all packets handed to gdb_handle_packet. */
    var sent: seq<Byte>
    var handled: seq<seq<Byte>>

    /** A packet that is being read holds no '#' and leaves room for the terminating zero. */
    ghost predicate Valid()
      reads this, lineBuf
    {
      && lineBuf.Length == MAX_PACKET_LENGTH && lastPacket.Length == MAX_PACKET_LENGTH + 4 && lineBuf != lastPacket
      && index <= MAX_PACKET_LENGTH - 1 && lineCsum < 256 && (state.Chksum2? ==> lineCsum % 16 == 0)
      && HASH !in lineBuf[..index] && lastPacketLen <= lastPacket.Length
    }

    constructor ()
      ensures Valid() && state.Idle? && lastPacketLen == 0 && !running && sent == [] && handled == []
      ensures fresh(lineBuf) && fresh(lastPacket)
    {
      lineBuf := new Byte[MAX_PACKET_LENGTH](_ => 0);
      lastPacket := new Byte[MAX_PACKET_LENGTH + 4](_ => 0);
      state, index, lineCsum, lastPacketLen, running, sent, handled := Idle, 0, 0, 0, false, [], [];
    }

    /** put_packet_binary outside user-mode emulation. */
    method PutPacketBinary(payload: seq<Byte>)
      requires Valid() && |payload| <= MAX_PACKET_LENGTH
      modifies `lastPacketLen, `sent, lastPacket
      ensures Valid() && lastPacket[..lastPacketLen] == Frame(payload) && sent == old(sent) + Frame(payload)
    {
      lastPacket[0] := DOLLAR;
      forall i | 0 <= i < |payload| {
        lastPacket[1 + i] := payload[i];
      }
      assert lastPacket[..1 + |payload|] == [DOLLAR] + payload;
      var csum := Checksum(payload);
      var p := 1 + |payload|;
      lastPacket[p] := HASH;
      lastPacket[p + 1] := ToHex(csum / 16 % 16);
      lastPacket[p + 2] := ToHex(csum % 16);
      lastPacketLen := p + 3;
      assert lastPacket[..p + 3] == lastPacket[..p] + [HASH, ToHex(csum / 16 % 16), ToHex(csum % 16)];
      sent := sent + lastPacket[..lastPacketLen];
    }

    /** The checksum loops. */
    static method Checksum(s: seq<Byte>) returns (csum: nat)
      ensures csum == Sum(s)
    {
      csum := 0;
      var i := 0;
      while i < |s|
        invariant 0 <= i <= |s| && csum == Sum(s[..i])
      {
        assert s[..i + 1][..i] == s[..i];
        csum := csum + s[i];
        i := i + 1;
      }
      assert s[..i] == s;
    }

    /** gdb_read_byte. */
    method ReadByte(ch: Byte)
      requires Valid()
      modifies this, lineBuf
      ensures Valid() && lastPacketLen <= old(lastPacketLen) && (running ==> old(running))
      ensures handled == old(handled)
              || (handled == old(handled) + [old(lineBuf[..index])] && state.Idle? && sent == old(sent) + [PLUS])
      ensures (old(lastPacketLen) == 0 || ch == DOLLAR) && !old(running) ==>
                && lastPacketLen == 0
                && Reads(ch, old(state), old(lineBuf[..index]), old(lineCsum), old(sent), old(handled))
      ensures old(lastPacketLen) > 0 && ch != DOLLAR ==>
                && state == old(state) && index == old(index) && handled == old(handled)
                && sent == old(sent) + (if ch == MINUS then old(lastPacket[..lastPacketLen]) else [])
                && (lastPacketLen == 0 <==> ch == PLUS)
      ensures old(running) && (old(lastPacketLen) == 0 || ch == DOLLAR) ==>
                !running && lastPacketLen == 0 && state == old(state) && index == old(index) && sent == old(sent)
    {
      if lastPacketLen > 0 {
        if ch == MINUS {
          sent := sent + lastPacket[..lastPacketLen];
        }
        if ch == PLUS || ch == DOLLAR {
          lastPacketLen := 0;
        }
        if ch != DOLLAR {
          return;
        }
      }
      if running {
        running := false;
      } else {
        Parse(ch);
      }
    }

    /** The state machine of gdb_read_byte. */
    method Parse(ch: Byte)
      requires Valid()
      modifies `state, `index, `lineCsum, `sent, `handled, lineBuf
      ensures Valid() && Reads(ch, old(state), old(lineBuf[..index]), old(lineCsum), old(sent), old(handled))
      ensures handled == old(handled)
              || (handled == old(handled) + [old(lineBuf[..index])] && state.Idle? && sent == old(sent) + [PLUS])
    {
      match state {
        case Idle =>
          if ch == DOLLAR {
            index, state := 0, GetLine;
          }
        case GetLine =>
          if ch == HASH {
            state := Chksum1;
          } else if index >= lineBuf.Length - 1 {
            state := Idle;
          } else {
            ghost var line := lineBuf[..index];
            lineBuf[index] := ch;
            index := index + 1;
            assert lineBuf[..index] == line + [ch];
          }
        case Chksum1 =>
          ghost var line := lineBuf[..index];
          lineBuf[index] := 0;
          assert lineBuf[..index] == line;
          lineCsum := FromHex(ch) * 16;
          state := Chksum2;
        case Chksum2 =>
          lineCsum := lineCsum + FromHex(ch);
          var csum := Checksum(lineBuf[..index]);
          if lineCsum != csum % 256 {
            sent := sent + [MINUS];
            state := Idle;
          } else {
            sent := sent + [PLUS];
            handled := handled + [lineBuf[..index]];
            state := Idle;
          }
      }
    }

    /** What a byte does to the line read so far. */
    ghost predicate Reads(ch: Byte, st: RSState, line: seq<Byte>, csum: nat, sent0: seq<Byte>, handled0: seq<seq<Byte>>)
      reads this, lineBuf
      requires index <= lineBuf.Length
    {
      match st
      case Idle =>
        && sent == sent0 && handled == handled0
        && if ch == DOLLAR then state.GetLine? && index == 0 else state.Idle? && lineBuf[..index] == line
      case GetLine =>
        && sent == sent0 && handled == handled0
        && (if ch == HASH then state.Chksum1? && lineBuf[..index] == line
            else if |line| >= MAX_PACKET_LENGTH - 1 then state.Idle?
            else state.GetLine? && lineBuf[..index] == line + [ch])
      case Chksum1 =>
        && sent == sent0 && handled == handled0
        && state.Chksum2? && lineBuf[..index] == line && lineCsum == FromHex(ch) * 16
      case Chksum2 =>
        && state.Idle?
        && (if csum + FromHex(ch) == Sum(line) % 256 then sent == sent0 + [PLUS] && handled == handled0 + [line]
            else sent == sent0 + [MINUS] && handled == handled0)
    }

    /** The stub after the first `i` bytes of the frame of a deliverable payload. */
    ghost predicate After(payload: seq<Byte>, i: nat, sent0: seq<Byte>, handled0: seq<seq<Byte>>)
      reads this, lineBuf
      requires index <= lineBuf.Length
    {
      var n := |payload|;
      if i >= n + 4 then state.Idle? && sent == sent0 + [PLUS] && handled == handled0 + [payload]
      else
        && sent == sent0 && handled == handled0
        && (if i == 0 then state.Idle?
            else if i <= n + 1 then state.GetLine? && lineBuf[..index] == payload[..i - 1]
            else lineBuf[..index] == payload &&
                 if i == n + 2 then state.Chksum1? else state.Chksum2? && lineCsum == Sum(payload) / 16 % 16 * 16)
    }

    /** One byte of the frame takes the stub one step further. */
    lemma AfterNext(payload: seq<Byte>, i: nat, st: RSState, line: seq<Byte>, csum: nat, sent0: seq<Byte>,
                    handled0: seq<seq<Byte>>)
      requires index <= lineBuf.Length && Deliverable(payload) && i < |payload| + 4
      requires Reads(Frame(payload)[i], st, line, csum, sent0, handled0)
      requires if i == 0 then st.Idle?
               else if i <= |payload| + 1 then st.GetLine? && line == payload[..i - 1]
               else line == payload && if i == |payload| + 2 then st.Chksum1?
                 else st.Chksum2? && csum == Sum(payload) / 16 % 16 * 16
      ensures After(payload, i + 1, sent0, handled0)
    {
      var n, frame, total := |payload|, Frame(payload), Sum(payload);
      if i == 0 {
        assert frame[0] == DOLLAR && lineBuf[..0] == payload[..0];
      } else if i <= n {
        assert frame[i] == payload[i - 1] && payload[i - 1] in payload;
        assert payload[..i] == payload[..i - 1] + [payload[i - 1]];
      } else if i == n + 1 {
        assert frame[i] == HASH && payload[..n] == payload;
      } else if i == n + 2 {
        assert frame[i] == ToHex(total / 16 % 16);
      } else {
        assert frame[i] == ToHex(total % 16);
        Digits(total);
      }
    }

    /** The frame of a payload, fed byte by byte to an idle, stopped stub that waits for no acknowledgement, is
        acknowledged and hands on the payload; the payload can be handed on exactly when it is deliverable. */
    method Deliver(payload: seq<Byte>)
      requires Valid() && state.Idle? && lastPacketLen == 0 && !running
      modifies this, lineBuf
      ensures Valid() && old(handled) <= handled
      ensures Deliverable(payload) ==> state.Idle? && sent == old(sent) + [PLUS] && handled == old(handled) + [payload]
      ensures payload in handled[|old(handled)|..] <==> Deliverable(payload)
    {
      var frame := Frame(payload);
      var i := 0;
      while i < |frame|
        invariant 0 <= i <= |frame| && Valid() && lastPacketLen == 0 && !running
        invariant old(handled) <= handled && forall k | |old(handled)| <= k < |handled| :: Deliverable(handled[k])
        invariant Deliverable(payload) ==> After(payload, i, old(sent), old(handled))
      {
        ghost var st, line, csum := state, lineBuf[..index], lineCsum;
        ghost var sent0, handled0 := sent, handled;
        ReadByte(frame[i]);
        if Deliverable(payload) {
          AfterNext(payload, i, st, line, csum, sent0, handled0);
        }
        i := i + 1;
      }
    }
  }

  lemma Digits(total: nat)
    ensures total / 16 % 16 * 16 + total % 16 == total % 256
  {
  }

  /** What the reader can hand on at all. */
  predicate Deliverable(line: seq<Byte>) {
    HASH !in line && |line| <= MAX_PACKET_LENGTH - 1
  }
}
