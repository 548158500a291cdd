/**
  The packets that carry events to a dump client (pkg/replication/server.go, sendBinlogPacketToClient): a three-byte
  length, the packet number, a zero status byte, and the event.
 */
module Packets {
  import opened Bytes

  function PacketBytes(num: byte, data: Bytes): Bytes {
    LE(|data| + 1, 3) + [num] + [0] + data
  }

  /** The length is cut to three bytes as the source's conversions to byte do. */
  method MakePacket(num: byte, data: Bytes) returns (r: Bytes)
    ensures r == PacketBytes(num, data)
  {
    var packet := new byte[4 + 1 + |data|];
    var length := |data| + 1;
    packet[0] := length % 256;
    packet[1] := length / 0x100 % 256;
    packet[2] := length / 0x1_0000 % 256;
    packet[3] := num;
    packet[4] := 0;
    UnrollThree(length);
    assert packet[..5] == LE(length, 3) + [num] + [0];
    Put(packet, 5, data);
    r := packet[..];
    assert packet[..5 + |data|] == packet[..];
  }

  lemma UnrollThree(n: nat)
    ensures LE(n, 3) == [n % 256, n / 0x100 % 256, n / 0x1_0000 % 256]
  {
    assert LE(n / 0x1_0000, 1) == [n / 0x1_0000 % 256] + LE(n / 0x1_0000 / 256, 0);
    assert LE(n / 256, 2) == [n / 256 % 256] + LE(n / 256 / 256, 1) && n / 256 / 256 == n / 0x1_0000;
    assert LE(n, 3) == [n % 256] + LE(n / 256, 2);
  }

  /** The length that says: the payload goes on in the next packet. */
  const MAX_CHUNK: nat := 0xFF_FFFF

  /** A payload as a client of the MySQL protocol reads it, over as many packets as it takes. */
  function TakePayload(s: Bytes): Decoded<Bytes>
    decreases |s|
  {
    if |s| < 4 then Bad
    else
      var n := FromLE(s[..3]);
      if |s| < 4 + n then Bad
      else if n < MAX_CHUNK then Got(s[4..4 + n], s[4 + n..])
      else
        match TakePayload(s[4 + n..])
        case Bad => Bad
        case Got(more, rest) => Got(s[4..4 + n] + more, rest)
  }

  /** The number of the first packet and the event behind the status byte. */
  function TakePacket(s: Bytes): Decoded<(byte, Bytes)> {
    match TakePayload(s)
    case Bad => Bad
    case Got(p, rest) => if |s| < 4 || p == [] || p[0] != 0 then Bad else Got((s[3], p[1..]), rest)
  }

  /** Every packet read costs a header of four bytes; a payload that goes on costs at least two. */
  lemma {:induction false} PayloadCost(s: Bytes)
    requires TakePayload(s).Got?
    ensures var n := FromLE(s[..3]);
            var cost := |TakePayload(s).value| + (if n < MAX_CHUNK then 4 else 8);
            cost + |TakePayload(s).rest| <= |s| && (n < MAX_CHUNK ==> |TakePayload(s).value| == n)
    decreases |s|
  {
    hide FromLE;
    var n := FromLE(s[..3]);
    if n >= MAX_CHUNK {
      PayloadCost(s[4 + n..]);
    }
  }

  /** An event comes out of its packet whole, whatever follows, exactly when its length with the status byte stays below
      the length that announces a continuation. */
  lemma PacketRoundTripIff(num: byte, data: Bytes, rest: Bytes)
    ensures TakePacket(PacketBytes(num, data) + rest) == Got((num, data), rest) <==> |data| + 1 < MAX_CHUNK
  {
    hide LE, FromLE, TakePayload;
    Pow256Table();
    var n, s := |data| + 1, PacketBytes(num, data) + rest;
    assert s[..3] == LE(n, 3) && s[3] == num && s[4..] == [0] + data + rest;
    FromLEBound(LE(n, 3));
    if n < 0x100_0000 {
      FromLEOfLE(n, 3);
    }
    if n < MAX_CHUNK {
      assert s[4..4 + n] == [0] + data && s[4 + n..] == rest;
      WholePayload(s, n, [0] + data, rest);
      assert ([0] + data)[1..] == data;
    } else if TakePayload(s).Got? {
      PayloadCost(s);
    }
  }

  lemma WholePayload(s: Bytes, n: nat, p: Bytes, rest: Bytes)
    requires 4 + n <= |s| && FromLE(s[..3]) == n < MAX_CHUNK && s[4..4 + n] == p && s[4 + n..] == rest
    ensures TakePayload(s) == Got(p, rest)
  {
  }

  /** The smallest event that is lost has 2^24 - 2 bytes: its packet announces a continuation that never comes. */
  lemma LargeEventIsLost(num: byte)
    ensures var data: Bytes := seq(0xFF_FFFE, _ => 7); TakePacket(PacketBytes(num, data)) != Got((num, data), [])
  {
    hide PacketBytes, TakePacket;
    var data: Bytes := seq(0xFF_FFFE, _ => 7);
    PacketRoundTripIff(num, data, []);
    assert PacketBytes(num, data) + [] == PacketBytes(num, data);
  }
}
