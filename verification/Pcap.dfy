/** Replay of a packet capture: UDP datagrams, fragmented as in section 3.2 of RFC 791 or whole, are put together
    in 64 slots and read as one byte stream. */
module Pcap {
  import opened Options

  type Byte = x: int | 0 <= x < 256

  const UDP_PACKET_MAX_SIZE: nat := 65536
  const PCAP_CACHE_LENGTH: nat := 64
  const IPPROTO_UDP: nat := 17
  const UDP_HEADER_SIZE: nat := 8
  const COMMON_HEADER_SIZE: nat := 26
  const SIZE_FIELD: nat := 10

  /** A captured frame after its link-layer header: not IPv4 inside a supported link layer, or an IP packet with its
      version, protocol, id, flags, fragment offset in bytes, and the bytes that follow the IP header. */
  datatype Frame =
    | Other
    | Ip(version: nat, protocol: nat, id: nat, df: bool, mf: bool, offset: nat, data: seq<Byte>)

  predicate IsUdp(f: Frame) {
    f.Ip? && f.version == 4 && f.protocol == IPPROTO_UDP
  }

  predicate IsWhole(f: Frame)
    requires f.Ip?
  {
    f.df || (!f.mf && f.offset == 0)
  }

  /** The IP length field has 16 bits; the UDP header of a first or only fragment is there, and read unchecked. */
  predicate WellFormed(f: Frame) {
    IsUdp(f) ==> |f.data| < UDP_PACKET_MAX_SIZE && (f.offset == 0 || f.df ==> |f.data| >= UDP_HEADER_SIZE)
  }

  function DestPort(data: seq<Byte>): nat
    requires |data| >= UDP_HEADER_SIZE
  {
    (data[2] as int) * 256 + data[3] as int
  }

  // ----- buffers -----

  /** The bytes of a buffer, those left over from earlier packets included. */
  type Memory = m: seq<Byte> | |m| == UDP_PACKET_MAX_SIZE witness seq(UDP_PACKET_MAX_SIZE, _ => 0)

  type Length = n: int | 0 <= n <= UDP_PACKET_MAX_SIZE

  datatype PcapBuffer = PcapBuffer(id: nat, offset: nat, len: Length, buf: Memory)

  const NEW_BUFFER := PcapBuffer(0, 0, 0, seq(UDP_PACKET_MAX_SIZE, _ => 0))

  /** Memory after data has been copied to place `at`. */
  function Written(m: Memory, at: nat, data: seq<Byte>): Memory
    requires at + |data| <= UDP_PACKET_MAX_SIZE
  {
    m[..at] + data + m[at + |data|..]
  }

  /** The bytes in use. */
  function Data(b: PcapBuffer): seq<Byte> {
    b.buf[..b.len]
  }

  lemma WrittenData(m: Memory, at: nat, data: seq<Byte>)
    requires at + |data| <= UDP_PACKET_MAX_SIZE
    ensures Written(m, at, data)[..at + |data|] == m[..at] + data
  {
  }

  function SlotOf(id: nat): nat {
    id % PCAP_CACHE_LENGTH
  }

  function Emptied(b: PcapBuffer): PcapBuffer {
    b.(offset := 0, len := 0)
  }

  predicate Wanted(ports: set<nat>, f: Frame)
    requires WellFormed(f)
  {
    IsUdp(f) && (f.offset == 0 ==> DestPort(f.data) in ports)
  }

  /** The slot a fragment finds: emptied when it held another id, or when a first fragment comes again. */
  function Found(s: PcapBuffer, f: Frame): PcapBuffer
    requires f.Ip?
  {
    var t := if s.id != f.id then PcapBuffer(f.id, 0, 0, s.buf) else s;
    if f.offset != t.offset && f.offset == 0 then Emptied(t) else t
  }

  function Payload(f: Frame): seq<Byte>
    requires f.Ip? && (f.offset == 0 ==> |f.data| >= UDP_HEADER_SIZE)
  {
    if f.offset == 0 then f.data[UDP_HEADER_SIZE..] else f.data
  }

  /** The slot after a fragment, and whether the fragment completed a datagram. */
  function Absorb(s: PcapBuffer, f: Frame): (PcapBuffer, bool)
    requires f.Ip? && (f.offset == 0 ==> |f.data| >= UDP_HEADER_SIZE)
  {
    var t := Found(s, f);
    if f.offset != t.offset then (t, false)
    else if t.len + |Payload(f)| > UDP_PACKET_MAX_SIZE then (Emptied(t), false)
    else (PcapBuffer(t.id, t.offset + |f.data|, t.len + |Payload(f)|, Written(t.buf, t.len, Payload(f))), !f.mf)
  }

  function HeaderSize(pkt: seq<Byte>): nat
    requires |pkt| >= COMMON_HEADER_SIZE
  {
    (pkt[SIZE_FIELD] as int) + 0x100 * (pkt[SIZE_FIELD + 1] as int)
    + 0x1_0000 * (pkt[SIZE_FIELD + 2] as int) + 0x100_0000 * (pkt[SIZE_FIELD + 3] as int)
  }

  /** A packet long enough for the common header claims no more bytes than it has. */
  predicate HeaderFits(pkt: seq<Byte>) {
    |pkt| >= COMMON_HEADER_SIZE ==> HeaderSize(pkt) <= |pkt|
  }

  /** It claims no more than a buffer holds; the source reads past its buffer otherwise. */
  predicate HeaderInBuffer(pkt: seq<Byte>) {
    |pkt| >= COMMON_HEADER_SIZE ==> HeaderSize(pkt) <= UDP_PACKET_MAX_SIZE
  }

  /** The packet without the padding behind the size its header states. */
  function Cut(pkt: seq<Byte>): seq<Byte> {
    if |pkt| >= COMMON_HEADER_SIZE && HeaderFits(pkt) then pkt[..HeaderSize(pkt)] else pkt
  }

  /** The packet as it is read: its length is what its header states, whatever it has. */
  function Trimmed(b: PcapBuffer): PcapBuffer {
    if b.len >= COMMON_HEADER_SIZE && HeaderInBuffer(Data(b)) then b.(len := HeaderSize(Data(b))) else b
  }

  /** What is read is the packet cut to its header's size, exactly when the header claims no more than there is;
      otherwise bytes left over from earlier packets follow. */
  lemma TrimmedIsCut(b: PcapBuffer)
    requires HeaderInBuffer(Data(b))
    ensures Data(Trimmed(b)) == Cut(Data(b)) <==> HeaderFits(Data(b))
    ensures |Data(Trimmed(b))| >= |Cut(Data(b))|
    ensures !HeaderFits(Data(b)) ==> |Data(Trimmed(b))| > |Data(b)| && Data(b) < Data(Trimmed(b))
  {
    if HeaderFits(Data(b)) {
    } else {
      assert |Data(Trimmed(b))| == HeaderSize(Data(b));
    }
  }

  // ----- frames -----

  /** The slots and the buffer for whole datagrams. */
  datatype Store = Store(cache: seq<PcapBuffer>, single: PcapBuffer)

  function WholeRead(single: PcapBuffer, f: Frame): PcapBuffer
    requires f.Ip? && UDP_HEADER_SIZE <= |f.data| < UDP_PACKET_MAX_SIZE
  {
    var payload := f.data[UDP_HEADER_SIZE..];
    single.(len := |payload|, buf := Written(single.buf, 0, payload))
  }

  /** What one frame does to the buffers, and the packet it yields, if any. The buffer of that packet is shown
      emptied: nothing else is fetched before its bytes have been read. */
  function Fetch(ports: set<nat>, st: Store, f: Frame): (Store, Option<PcapBuffer>)
    requires |st.cache| == PCAP_CACHE_LENGTH && WellFormed(f)
  {
    if !Wanted(ports, f) then (st, None)
    else if IsWhole(f) then
      var b := WholeRead(st.single, f);
      (st.(single := Emptied(b)), Some(b))
    else
      var k := SlotOf(f.id);
      var (s, done) := Absorb(st.cache[k], f);
      if done then (st.(cache := st.cache[k := Emptied(s)]), Some(s)) else (st.(cache := st.cache[k := s]), None)
  }

  ghost predicate AllWellFormed(capture: seq<Frame>) {
    forall i :: 0 <= i < |capture| ==> WellFormed(capture[i])
  }

  ghost function BytesOf(pkt: Option<PcapBuffer>): seq<Byte> {
    if pkt.Some? then Data(Trimmed(pkt.value)) else []
  }

  /** All the bytes a capture yields from given buffers. */
  ghost function Stream(ports: set<nat>, st: Store, capture: seq<Frame>): seq<Byte>
    requires |st.cache| == PCAP_CACHE_LENGTH && AllWellFormed(capture)
    decreases |capture|
  {
    if capture == [] then []
    else
      var (next, pkt) := Fetch(ports, st, capture[0]);
      BytesOf(pkt) + Stream(ports, next, capture[1..])
  }

  /** No packet the capture yields claims more bytes than a buffer holds. */
  ghost predicate AllInBuffer(ports: set<nat>, st: Store, capture: seq<Frame>)
    requires |st.cache| == PCAP_CACHE_LENGTH && AllWellFormed(capture)
    decreases |capture|
  {
    capture == [] ||
    (var (next, pkt) := Fetch(ports, st, capture[0]);
     (pkt.Some? ==> HeaderInBuffer(Data(pkt.value))) && AllInBuffer(ports, next, capture[1..]))
  }

  ghost function NewStore(): Store {
    Store(seq(PCAP_CACHE_LENGTH, _ => NEW_BUFFER), NEW_BUFFER)
  }

  lemma Rejoin(data: seq<Byte>, i: nat, j: nat, rest: seq<Byte>)
    requires i <= j <= |data|
    ensures data[i..] + rest == data[i..j] + (data[j..] + rest)
  {
  }

  /** The packet being read: none, the whole-datagram buffer, or a slot. */
  datatype Current = NoPacket | Single | InSlot(k: nat)

  class PcapInput {
    const ports: set<nat>
    const cache: array<PcapBuffer>
    var single: PcapBuffer
    var curr: Current
    var currIdx: nat
    var capture: seq<Frame>

    ghost predicate Valid()
      reads this, cache
    {
      && cache.Length == PCAP_CACHE_LENGTH
      && AllWellFormed(capture)
      && (curr.InSlot? ==> curr.k < PCAP_CACHE_LENGTH)
      && (curr != NoPacket ==> currIdx <= CurrentPacket().len)
      && AllInBuffer(ports, Between(), capture)
    }

    function CurrentPacket(): PcapBuffer
      requires curr != NoPacket && (curr.InSlot? ==> curr.k < cache.Length)
      reads this`single, this`curr, cache
    {
      if curr.Single? then single else cache[curr.k]
    }

    /** The buffers as they will be when the next frame is fetched. */
    ghost function Between(): Store
      requires curr.InSlot? ==> curr.k < cache.Length
      reads this`single, this`curr, cache
    {
      match curr
      case NoPacket => Store(cache[..], single)
      case Single => Store(cache[..], Emptied(single))
      case InSlot(k) => Store(cache[..][k := Emptied(cache[k])], single)
    }

    /** What is left of the current packet. */
    ghost function Unread(): seq<Byte>
      requires Valid()
      reads this, cache
    {
      if curr == NoPacket then [] else Data(CurrentPacket())[currIdx..]
    }

    /** The bytes still to come. */
    ghost function Remaining(): seq<Byte>
      requires Valid()
      reads this, cache
    {
      Unread() + Stream(ports, Between(), capture)
    }

    constructor (ports: set<nat>, capture: seq<Frame>)
      requires AllWellFormed(capture) && AllInBuffer(ports, NewStore(), capture)
      ensures Valid() && fresh(cache)
      ensures Remaining() == Stream(ports, NewStore(), capture)
    {
      this.ports, this.capture := ports, capture;
      cache := new PcapBuffer[PCAP_CACHE_LENGTH](_ => NEW_BUFFER);
      single, curr, currIdx := NEW_BUFFER, NoPacket, 0;
      new;
      assert cache[..] == NewStore().cache;
    }

    /** A whole datagram goes to its own buffer. */
    method TakeWhole(f: Frame)
      requires f.Ip? && UDP_HEADER_SIZE <= |f.data| < UDP_PACKET_MAX_SIZE
      modifies this`single, this`curr, this`currIdx
      ensures single == WholeRead(old(single), f) && curr == Single && currIdx == 0
    {
      var payload := f.data[UDP_HEADER_SIZE..];
      single := single.(len := |payload|, buf := Written(single.buf, 0, payload));
      curr, currIdx := Single, 0;
    }

    /** A fragment goes to the slot of its id, or is thrown away, with what the slot held or without. */
    method TakeFragment(f: Frame) returns (done: bool)
      requires cache.Length == PCAP_CACHE_LENGTH && f.Ip? && (f.offset == 0 ==> |f.data| >= UDP_HEADER_SIZE)
      modifies cache
      ensures var (s, d) := Absorb(old(cache[SlotOf(f.id)]), f);
        d == done && cache[..] == old(cache[..])[SlotOf(f.id) := s]
    {
      var k := SlotOf(f.id);
      if cache[k].id != f.id {
        cache[k] := PcapBuffer(f.id, 0, 0, cache[k].buf);
      }
      if f.offset != cache[k].offset {
        if f.offset != 0 {
          return false;
        }
        cache[k] := Emptied(cache[k]);
      }
      var payload := if f.offset == 0 then f.data[UDP_HEADER_SIZE..] else f.data;
      var s := cache[k];
      if s.len + |payload| > UDP_PACKET_MAX_SIZE {
        cache[k] := Emptied(s);
        return false;
      }
      cache[k] := PcapBuffer(s.id, s.offset + |f.data|, s.len + |payload|, Written(s.buf, s.len, payload));
      return !f.mf;
    }

    /** One frame: whether it yields a packet. */
    method TakeFrame(f: Frame) returns (found: bool)
      requires cache.Length == PCAP_CACHE_LENGTH && WellFormed(f) && curr == NoPacket
      modifies this`single, this`curr, this`currIdx, cache
      ensures curr.InSlot? ==> curr.k < PCAP_CACHE_LENGTH
      ensures var (next, pkt) := Fetch(ports, old(Between()), f);
        && Between() == next && found == pkt.Some? && (found <==> curr != NoPacket)
        && (found ==> currIdx == 0 && CurrentPacket() == pkt.value)
    {
      if !IsUdp(f) {
        return false;
      }
      if f.offset == 0 && DestPort(f.data) !in ports {
        return false;
      }
      if f.df || (!f.mf && f.offset == 0) {
        TakeWhole(f);
        return true;
      }
      found := TakeFragment(f);
      if found {
        curr, currIdx := InSlot(SlotOf(f.id)), 0;
      }
    }

    /** Fetches frames until one yields a packet; false at the end of the capture. */
    method ReadNextPacket() returns (found: bool)
      requires Valid() && curr == NoPacket
      modifies this`single, this`curr, this`currIdx, this`capture, cache
      ensures found ==> curr != NoPacket && (curr.InSlot? ==> curr.k < cache.Length) && currIdx == 0
      ensures found ==> HeaderInBuffer(Data(CurrentPacket())) && AllWellFormed(capture) && AllInBuffer(ports, Between(), capture)
      ensures found ==> |capture| < |old(capture)|
      ensures found ==> old(Remaining()) == Data(Trimmed(CurrentPacket())) + Stream(ports, Between(), capture)
      ensures |capture| <= |old(capture)|
      ensures !found ==> Valid() && curr == NoPacket && old(Remaining()) == Remaining() == []
    {
      while capture != []
        invariant Valid() && curr == NoPacket
        invariant Remaining() == old(Remaining()) && |capture| <= |old(capture)|
        decreases |capture|
      {
        var f := capture[0];
        ghost var next, pkt := Fetch(ports, Between(), f).0, Fetch(ports, Between(), f).1;
        assert Remaining() == BytesOf(pkt) + Stream(ports, next, capture[1..]);
        capture := capture[1..];
        found := TakeFrame(f);
        if found {
          return;
        }
      }
      return false;
    }

    /** Gives up the packet read to its end: its buffer is emptied. */
    method Release()
      requires Valid() && curr != NoPacket && currIdx == CurrentPacket().len
      modifies this`single, this`curr, cache
      ensures Valid() && curr == NoPacket && Remaining() == old(Remaining())
    {
      ghost var st := Between();
      if curr.Single? {
        single := Emptied(single);
      } else {
        cache[curr.k] := Emptied(cache[curr.k]);
      }
      curr := NoPacket;
      assert Between() == st;
    }

    /** The size the header states replaces the length of the packet just fetched. */
    method TrimToHeader()
      requires curr != NoPacket && (curr.InSlot? ==> curr.k < cache.Length) && cache.Length == PCAP_CACHE_LENGTH
      requires HeaderInBuffer(Data(CurrentPacket()))
      modifies this`single, cache
      ensures CurrentPacket() == Trimmed(old(CurrentPacket())) && Between() == old(Between())
    {
      var pkt := CurrentPacket();
      ghost var st := Between();
      if pkt.len >= COMMON_HEADER_SIZE {
        if curr.Single? {
          single := pkt.(len := HeaderSize(Data(pkt)));
        } else {
          cache[curr.k] := pkt.(len := HeaderSize(Data(pkt)));
        }
      }
      assert Between() == st;
    }

    /** Copies at most `max` bytes out of the current packet. */
    method CopyCurrent(max: nat) returns (piece: seq<Byte>)
      requires Valid() && curr != NoPacket
      modifies this`currIdx
      ensures Valid() && old(Remaining()) == piece + Remaining() && capture == old(capture)
      ensures |piece| <= max && (|piece| < max ==> currIdx == CurrentPacket().len)
    {
      var pkt := CurrentPacket();
      var readSize := max;
      if pkt.len - currIdx < readSize {
        readSize := pkt.len - currIdx;
      }
      var data := Data(pkt);
      piece := data[currIdx..currIdx + readSize];
      Rejoin(data, currIdx, currIdx + readSize, Stream(ports, Between(), capture));
      currIdx := currIdx + readSize;
    }

    /** Leaves the packet read to its end for the next one, its length as its header states. */
    method MoveOn() returns (found: bool)
      requires Valid() && (curr != NoPacket ==> currIdx == CurrentPacket().len)
      modifies this`single, this`curr, this`currIdx, this`capture, cache
      ensures Valid() && Remaining() == old(Remaining())
      ensures if found then |capture| < |old(capture)| else Remaining() == [] && |capture| <= |old(capture)|
    {
      if curr != NoPacket {
        Release();
      }
      found := ReadNextPacket();
      if found {
        TrimToHeader();
      }
    }

    /** One round of the reading loop: what is left of the current packet, then the next packet if more is wanted. */
    method ReadSome(max: nat) returns (piece: seq<Byte>, ended: bool)
      requires Valid()
      modifies this`single, this`curr, this`currIdx, this`capture, cache
      ensures Valid() && old(Remaining()) == piece + Remaining() && |piece| <= max
      ensures |capture| <= |old(capture)| && (ended ==> Remaining() == [])
      ensures |piece| == max || ended || |capture| < |old(capture)|
    {
      piece, ended := [], false;
      if curr != NoPacket && currIdx < CurrentPacket().len {
        piece := CopyCurrent(max);
      }
      if |piece| < max {
        var found := MoveOn();
        ended := !found;
      }
    }

    /** Reads len bytes across packets; fewer only when the capture ends. */
    method ReadFd(len: nat) returns (buf: seq<Byte>)
      requires Valid()
      modifies this`single, this`curr, this`currIdx, this`capture, cache
      ensures Valid()
      ensures old(Remaining()) == buf + Remaining()
      ensures |buf| <= len && (|buf| < len ==> Remaining() == [])
    {
      buf := [];
      ghost var all := Remaining();
      while |buf| < len
        invariant Valid() && |buf| <= len
        invariant all == buf + Remaining()
        decreases |capture|, len - |buf|
      {
        var piece, ended := ReadSome(len - |buf|);
        assert buf + (piece + Remaining()) == (buf + piece) + Remaining();
        buf := buf + piece;
        if ended {
          break;
        }
      }
    }
  }
}
