/** What the bytes of a datagram mean, written down from the formats: the UDP header in network order, and the common
    header of the lidar's packets, whose numbers have the least significant byte first. */
module PcapFormats {
  import opened Options
  import opened Pcap

  /** A 16-bit number in network order. */
  function Big16(n: nat): seq<Byte>
    requires n < 0x1_0000
  {
    [n / 256, n % 256]
  }

  /** A 32-bit number, least significant byte first. */
  function Little32(n: nat): seq<Byte>
    requires n < 0x1_0000_0000
  {
    [n % 256, n / 0x100 % 256, n / 0x1_0000 % 256, n / 0x100_0000]
  }

  /** The source and destination ports, length and checksum of a UDP header. */
  datatype UdpHeader = UdpHeader(src: nat, dst: nat, length: nat, checksum: nat) {
    predicate Encodable() {
      src < 0x1_0000 && dst < 0x1_0000 && length < 0x1_0000 && checksum < 0x1_0000
    }

    function Bytes(): (bytes: seq<Byte>)
      requires Encodable()
      ensures |bytes| == 8
    {
      Big16(src) + Big16(dst) + Big16(length) + Big16(checksum)
    }
  }

  /** The port a datagram is sent to is the one its header names second. */
  lemma PortOfHeader(h: UdpHeader, payload: seq<Byte>)
    requires h.Encodable()
    ensures DestPort(h.Bytes() + payload) == h.dst
  {
    assert (h.Bytes() + payload)[2..4] == Big16(h.dst);
    assert (h.Bytes() + payload)[2] == Big16(h.dst)[0] && (h.Bytes() + payload)[3] == Big16(h.dst)[1];
  }

  /** The common header has 26 bytes, of which bytes 10 to 13 state the size of the packet. A shorter packet states
      none. */
  ghost predicate States(pkt: seq<Byte>, size: nat) {
    size < 0x1_0000_0000 && (|pkt| >= 26 ==> pkt[10..14] == Little32(size))
  }

  /** A packet is read up to the size it states if it is as long as that, and otherwise as it is. */
  lemma StatedSize(pkt: seq<Byte>, size: nat)
    requires States(pkt, size)
    ensures HeaderFits(pkt) <==> |pkt| < 26 || size <= |pkt|
    ensures HeaderInBuffer(pkt) <==> |pkt| < 26 || size <= 65536
    ensures Cut(pkt) == if |pkt| >= 26 && size <= |pkt| then pkt[..size] else pkt
  {
    if |pkt| >= 26 {
      assert forall i :: 0 <= i < 4 ==> pkt[10 + i] == pkt[10..14][i];
      assert HeaderSize(pkt) == size;
    }
  }
}
