/** The PCAP export of captured frames: internal/api/pcap.go. */
module Pcap {
  import opened Common

  type Byte = b: int | 0 <= b < 256

  /** A frame row: its timestamp in microseconds since 1970 (Go's UnixMicro) and its JSON payload. */
  datatype Packet = Packet(us: int, payload: seq<Byte>)

  // ---------------------------------------------------------------- integers as bytes

  function U16(x: int): int { x % 0x1_0000 }
  function U32(x: int): int { x % 0x1_0000_0000 }

  /** A conversion to an unsigned type of 16 or 32 bits keeps the number up to multiples of its range. */
  lemma UnsignedMeaning(x: int)
    ensures 0 <= U16(x) < 65536 && (x - U16(x)) % 65536 == 0
    ensures 0 <= U32(x) < 4294967296 && (x - U32(x)) % 4294967296 == 0
  {
  }

  function BE16(v: int): seq<Byte>
    requires 0 <= v < 0x1_0000
  {
    [v / 256, v % 256]
  }

  function LE16(v: int): seq<Byte>
    requires 0 <= v < 0x1_0000
  {
    [v % 256, v / 256]
  }

  function LE32(v: int): seq<Byte>
    requires 0 <= v < 0x1_0000_0000
  {
    LE16(v % 0x1_0000) + LE16(v / 0x1_0000)
  }

  function GetBE16(s: seq<Byte>, i: nat): int
    requires i + 2 <= |s|
  {
    (s[i] as int) * 256 + s[i + 1]
  }

  function GetLE16(s: seq<Byte>, i: nat): int
    requires i + 2 <= |s|
  {
    s[i] + (s[i + 1] as int) * 256
  }

  function GetLE32(s: seq<Byte>, i: nat): (v: int)
    requires i + 4 <= |s|
    ensures 0 <= v < 0x1_0000_0000
  {
    GetLE16(s, i) + GetLE16(s, i + 2) * 0x1_0000
  }

  lemma GetLE32Of(v: int, s: seq<Byte>, i: nat)
    requires 0 <= v < 0x1_0000_0000 && i + 4 <= |s| && s[i..i + 4] == LE32(v)
    ensures GetLE32(s, i) == v
  {
    var w := s[i..i + 4];
    assert w[0] == s[i] && w[1] == s[i + 1] && w[2] == s[i + 2] && w[3] == s[i + 3];
  }

  /** Go's integer division and remainder truncate towards zero. */
  function TruncDiv(a: int, b: int): int
    requires b > 0
  {
    if a >= 0 then a / b else -((-a) / b)
  }

  function TruncMod(a: int, b: int): int
    requires b > 0
  {
    a - TruncDiv(a, b) * b
  }

  // ---------------------------------------------------------------- what is written

  /** writePCAPGlobalHeader: magic, version 2.4, zone, accuracy, snapshot length 65535, Ethernet. */
  function GlobalHeader(): seq<Byte> {
    LE32(0xa1b2c3d4) + LE16(2) + LE16(4) + LE32(0) + LE32(0) + LE32(65535) + LE32(1)
  }

  function EthernetHeader(): seq<Byte> {
    [0x52, 0x4c, 0x41, 0x42, 0x00, 0x02, 0x52, 0x4c, 0x41, 0x42, 0x00, 0x01, 0x08, 0x00]
  }

  function IpHeader(total: int): seq<Byte>
    requires 0 <= total < 0x1_0000
  {
    [0x45, 0] + BE16(total) + [0, 0, 0, 0, 64, 17, 0, 0, 127, 0, 0, 1, 127, 0, 0, 2]
  }

  function UdpHeader(length: int): seq<Byte>
    requires 0 <= length < 0x1_0000
  {
    BE16(443) + BE16(12345) + BE16(length) + [0, 0]
  }

  /** The synthetic frame; both length fields are 16 bits wide and wrap. */
  function Frame(payload: seq<Byte>): seq<Byte> {
    var udpLen := U16(8 + |payload|);
    EthernetHeader() + IpHeader(U16(20 + udpLen)) + UdpHeader(udpLen) + payload
  }

  function RecordHeader(us: int, length: nat): seq<Byte> {
    LE32(U32(TruncDiv(us, 1_000_000))) + LE32(U32(TruncMod(us, 1_000_000))) + LE32(U32(length)) + LE32(U32(length))
  }

  function PacketBytes(p: Packet): seq<Byte> {
    RecordHeader(p.us, |Frame(p.payload)|) + Frame(p.payload)
  }

  /** The encodings of all of `xs`, one after the other. */
  function Flatten<T>(xs: seq<T>, encode: T -> seq<Byte>): seq<Byte> {
    if xs == [] then [] else encode(xs[0]) + Flatten(xs[1..], encode)
  }

  function Packets(ps: seq<Packet>): seq<Byte> {
    Flatten(ps, p => PacketBytes(p))
  }

  function FileBytes(ps: seq<Packet>): seq<Byte> {
    GlobalHeader() + Packets(ps)
  }

  // ---------------------------------------------------------------- the writer

  class Buffer {
    var bytes: seq<Byte>

    constructor ()
      ensures bytes == []
    {
      bytes := [];
    }

    method Write(p: seq<Byte>)
      modifies this
      ensures bytes == old(bytes) + p
    {
      bytes := bytes + p;
    }
  }

  /** binary.BigEndian.PutUint16(b[at:at+2], v) */
  method PutUint16(b: array<Byte>, at: nat, v: int)
    requires at + 2 <= b.Length && 0 <= v < 0x1_0000
    modifies b
    ensures b[at] == v / 256 && b[at + 1] == v % 256
    ensures forall k :: 0 <= k < b.Length && k != at && k != at + 1 ==> b[k] == old(b[k])
  {
    b[at] := v / 256;
    b[at + 1] := v % 256;
  }

  /** copy(b[at:at+len(p)], p) */
  method Copy(b: array<Byte>, at: nat, p: seq<Byte>)
    requires at + |p| <= b.Length
    modifies b
    ensures forall k :: 0 <= k < b.Length ==> b[k] == if at <= k < at + |p| then p[k - at] else old(b[k])
  {
    forall k | 0 <= k < |p| {
      b[at + k] := p[k];
    }
  }

  method MakeUdpHeader(udpLen: int) returns (h: array<Byte>)
    requires 0 <= udpLen < 0x1_0000
    ensures fresh(h) && h[..] == UdpHeader(udpLen)
  {
    h := new Byte[8](_ => 0);
    PutUint16(h, 0, 443);
    PutUint16(h, 2, 12345);
    PutUint16(h, 4, udpLen);
  }

  method MakeIpHeader(ipTotalLen: int) returns (h: array<Byte>)
    requires 0 <= ipTotalLen < 0x1_0000
    ensures fresh(h) && h[..] == IpHeader(ipTotalLen)
  {
    h := new Byte[20](_ => 0);
    h[0] := 0x45;
    PutUint16(h, 2, ipTotalLen);
    h[8] := 64;
    h[9] := 17;
    Copy(h, 12, [127, 0, 0, 1]);
    Copy(h, 16, [127, 0, 0, 2]);
  }

  method MakeEthernetHeader() returns (h: array<Byte>)
    ensures fresh(h) && h[..] == EthernetHeader()
  {
    h := new Byte[14](_ => 0);
    Copy(h, 0, [0x52, 0x4c, 0x41, 0x42, 0x00, 0x02]);
    Copy(h, 6, [0x52, 0x4c, 0x41, 0x42, 0x00, 0x01]);
    PutUint16(h, 12, 0x0800);
  }

  method WriteGlobalHeader(w: Buffer)
    modifies w
    ensures w.bytes == old(w.bytes) + GlobalHeader()
  {
    w.Write(LE32(0xa1b2c3d4));
    w.Write(LE16(2));
    w.Write(LE16(4));
    w.Write(LE32(0));
    w.Write(LE32(0));
    w.Write(LE32(65535));
    w.Write(LE32(1));
  }

  method WritePacket(w: Buffer, p: Packet)
    modifies w
    ensures w.bytes == old(w.bytes) + PacketBytes(p)
  {
    var udpLen := U16(8 + |p.payload|);
    var udpHdr := MakeUdpHeader(udpLen);
    var ipHdr := MakeIpHeader(U16(20 + udpLen));
    var ethHdr := MakeEthernetHeader();
    var pkt: seq<Byte> := [];
    pkt := pkt + ethHdr[..];
    pkt := pkt + ipHdr[..];
    pkt := pkt + udpHdr[..];
    pkt := pkt + p.payload;
    assert pkt == Frame(p.payload);

    WriteRecord(w, p.us, pkt);
  }

  method WriteRecord(w: Buffer, us: int, pkt: seq<Byte>)
    modifies w
    ensures w.bytes == old(w.bytes) + (RecordHeader(us, |pkt|) + pkt)
  {
    w.Write(LE32(U32(TruncDiv(us, 1_000_000))));
    w.Write(LE32(U32(TruncMod(us, 1_000_000))));
    w.Write(LE32(U32(|pkt|)));
    w.Write(LE32(U32(|pkt|)));
    w.Write(pkt);
  }

  lemma {:induction false} FlattenAppend<T>(xs: seq<T>, x: T, encode: T -> seq<Byte>)
    ensures Flatten(xs + [x], encode) == Flatten(xs, encode) + encode(x)
  {
    if xs == [] {
      assert xs + [x] == [x] && [x][1..] == [];
    } else {
      FlattenAppend(xs[1..], x, encode);
      assert (xs + [x])[0] == xs[0] && (xs + [x])[1..] == xs[1..] + [x];
      Assoc(encode(xs[0]), Flatten(xs[1..], encode), encode(x));
    }
  }

  /** getFramesPCAP's loop over the rows. */
  method WriteFile(ps: seq<Packet>) returns (buf: Buffer)
    ensures fresh(buf) && buf.bytes == FileBytes(ps)
  {
    buf := new Buffer();
    WriteGlobalHeader(buf);
    EmptyPrefix(GlobalHeader());
    WritePackets(buf, ps, p => PacketBytes(p));
  }

  lemma EmptyPrefix<T>(s: seq<T>)
    ensures [] + s == s
  {
  }

  method WritePackets(buf: Buffer, ps: seq<Packet>, ghost encode: Packet -> seq<Byte>)
    requires forall p {:trigger PacketBytes(p)} :: encode(p) == PacketBytes(p)
    modifies buf
    ensures buf.bytes == old(buf.bytes) + Flatten(ps, encode)
  {
    ghost var start := buf.bytes;
    for i := 0 to |ps|
      invariant buf.bytes == start + Flatten(ps[..i], encode)
    {
      WritePacket(buf, ps[i]);
      FlattenAppend(ps[..i], ps[i], encode);
      assert ps[..i + 1] == ps[..i] + [ps[i]];
      Assoc(start, Flatten(ps[..i], encode), PacketBytes(ps[i]));
    }
    assert ps[..|ps|] == ps;
  }

  // ---------------------------------------------------------------- a reader

  /** The UDP payload of an Ethernet/IPv4 frame, found by the IPv4 header and total length (section
      3.1 of RFC 791) and the UDP length (RFC 768). */
  function ReadFrame(f: seq<Byte>): Option<seq<Byte>> {
    if |f| < 34 || GetBE16(f, 12) != 0x0800 then None
    else ReadDatagram(f[14..])
  }

  function ReadDatagram(ip: seq<Byte>): Option<seq<Byte>>
    requires |ip| >= 20
  {
    var headerLen, total := ip[0] % 16 * 4, GetBE16(ip, 2);
    if ip[0] / 16 != 4 || headerLen < 20 || ip[9] != 17 || total < headerLen + 8 || total > |ip| then None
    else
      var udp := ip[headerLen..total];
      var udpLen := GetBE16(udp, 4);
      if udpLen < 8 || udpLen > |udp| then None else Some(udp[8..udpLen])
  }

  /** One record and the rest of the file. Captures longer than the snapshot length are cut to it, and
      records that announce a packet longer than what was captured are rejected. */
  function ReadPacket(s: seq<Byte>, snaplen: nat): Option<(Packet, seq<Byte>)> {
    if |s| < 16 then None
    else
      var sec, usec, length := GetLE32(s, 0), GetLE32(s, 4), GetLE32(s, 8);
      if |s| < 16 + length || GetLE32(s, 12) != length then None
      else
        var captured := s[16..16 + length];
        var frame := if length > snaplen then captured[..snaplen] else captured;
        match ReadFrame(frame)
        case None => None
        case Some(payload) => Some((Packet(sec * 1_000_000 + usec, payload), s[16 + length..]))
  }

  /** Read records with `one` until the input is used up. */
  function ReadAll<T>(s: seq<Byte>, one: seq<Byte> -> Option<(T, seq<Byte>)>): Option<seq<T>>
    requires forall t :: one(t).Some? ==> |one(t).value.1| < |t|
    decreases |s|
  {
    if s == [] then Some([])
    else
      match one(s)
      case None => None
      case Some((x, rest)) => Cons(x, ReadAll(rest, one))
  }

  function Cons<T>(x: T, xs: Option<seq<T>>): Option<seq<T>> {
    match xs case None => None case Some(s) => Some([x] + s)
  }

  function ReadPackets(s: seq<Byte>, snaplen: nat): Option<seq<Packet>> {
    ReadAll(s, t => ReadPacket(t, snaplen))
  }

  /** The file header, of a file in universal time, and the records. */
  function ReadFile(s: seq<Byte>): Option<seq<Packet>> {
    if |s| < 24 || GetLE32(s, 0) != 0xa1b2c3d4 || GetLE16(s, 4) != 2 || GetLE16(s, 6) != 4
       || GetLE32(s, 8) != 0 || GetLE32(s, 12) != 0 || GetLE32(s, 20) != 1
    then None
    else ReadPackets(s[24..], GetLE32(s, 16))
  }

  // ---------------------------------------------------------------- reading undoes writing

  /** Small enough for a frame of 65535 bytes, and a time that 32 bits of seconds can hold. */
  predicate Fits(p: Packet) {
    0 <= p.us < 0x1_0000_0000 * 1_000_000 && |p.payload| <= 65493
  }

  lemma FrameLayout(payload: seq<Byte>)
    ensures var f, udpLen := Frame(payload), U16(8 + |payload|);
            && |f| == 42 + |payload| && f[42..] == payload
            && GetBE16(f, 12) == 0x0800
            && f[14] == 0x45 && f[23] == 17
            && GetBE16(f, 16) == U16(20 + udpLen)
            && GetBE16(f, 38) == udpLen
  {
    var udpLen := U16(8 + |payload|);
    var e, i, u := EthernetHeader(), IpHeader(U16(20 + udpLen)), UdpHeader(udpLen);
    var f := Frame(payload);
    assert |e| == 14 && |i| == 20 && |u| == 8;
    assert f[12] == e[12] && f[13] == e[13];
    assert f[14] == i[0] && f[16] == i[2] && f[17] == i[3] && f[23] == i[9];
    assert f[38] == u[4] && f[39] == u[5];
  }

  /** The fields of the frame's three headers that its payload does not decide: stations, hop limit, hosts,
      ports, and the identification, fragment and checksum fields, which are zero (section 3.1 of RFC 791 and
      RFC 768). */
  lemma FrameHeaders(payload: seq<Byte>)
    ensures |Frame(payload)| == 42 + |payload|
    ensures var f := Frame(payload);
            var ethernet, ip, udp := f[..14], f[14..34], f[34..42];
            && ethernet[0..6] == [0x52, 0x4c, 0x41, 0x42, 0x00, 0x02]
            && ethernet[6..12] == [0x52, 0x4c, 0x41, 0x42, 0x00, 0x01]
            && ip[1] == 0 && ip[4..8] == [0, 0, 0, 0] && ip[8] == 64 && ip[10..12] == [0, 0]
            && ip[12..16] == [127, 0, 0, 1] && ip[16..20] == [127, 0, 0, 2]
            && GetBE16(udp, 0) == 443 && GetBE16(udp, 2) == 12345 && udp[6..8] == [0, 0]
  {
    var udpLen := U16(8 + |payload|);
    var i, u := IpHeader(U16(20 + udpLen)), UdpHeader(udpLen);
    IpHeaderFields(U16(20 + udpLen));
    UdpHeaderFields(udpLen);
    EthernetHeaderFields();
    Layers(EthernetHeader(), i, u, payload);
  }

  lemma EthernetHeaderFields()
    ensures var e := EthernetHeader();
            && |e| == 14 && e[0..6] == [0x52, 0x4c, 0x41, 0x42, 0x00, 0x02] && e[6..12] == [0x52, 0x4c, 0x41, 0x42, 0x00, 0x01]
  {
  }

  /** Both length fields are the true lengths up to a multiple of 65536. */
  lemma LengthsWrap(payload: seq<Byte>)
    ensures var f := Frame(payload);
            && |f| == 42 + |payload|
            && GetBE16(f, 16) == (28 + |payload|) % 65536 && GetBE16(f, 38) == (8 + |payload|) % 65536
  {
    FrameLayout(payload);
  }

  lemma Layers<T>(e: seq<T>, i: seq<T>, u: seq<T>, p: seq<T>)
    requires |e| == 14 && |i| == 20 && |u| == 8
    ensures var f := e + i + u + p; |f| == 42 + |p| && f[..14] == e && f[14..34] == i && f[34..42] == u
  {
    var f, two := e + i + u + p, e + i;
    assert two[..14] == e && two[14..] == i;
    assert f[..34] == two && f[34..42] == u;
    assert f[..34][..14] == f[..14] && f[..34][14..] == f[14..34];
  }

  lemma IpHeaderFields(total: int)
    requires 0 <= total < 0x1_0000
    ensures var i := IpHeader(total);
            && |i| == 20 && i[1] == 0 && i[4..8] == [0, 0, 0, 0] && i[8] == 64 && i[10..12] == [0, 0]
            && i[12..16] == [127, 0, 0, 1] && i[16..20] == [127, 0, 0, 2]
  {
  }

  lemma UdpHeaderFields(length: int)
    requires 0 <= length < 0x1_0000
    ensures var u := UdpHeader(length); |u| == 8 && GetBE16(u, 0) == 443 && GetBE16(u, 2) == 12345 && u[6..8] == [0, 0]
  {
  }

  lemma FrameSize(payload: seq<Byte>)
    ensures |Frame(payload)| == 42 + |payload|
  {
  }

  lemma ReadDatagramAt(ip: seq<Byte>)
    requires 28 <= |ip| < 0x1_0000 && ip[0] == 0x45 && ip[9] == 17
    requires GetBE16(ip, 2) == |ip| && GetBE16(ip, 24) == |ip| - 20
    ensures ReadDatagram(ip) == Some(ip[28..])
  {
    var udp := ip[20..|ip|];
    assert udp[4] == ip[24] && udp[5] == ip[25];
    assert ip[0] % 16 * 4 == 20 && ip[0] / 16 == 4;
    assert GetBE16(udp, 4) == |udp| && udp[8..|udp|] == udp[8..];
    assert udp[8..] == ip[28..];
  }

  lemma ReadFrameOfFrame(payload: seq<Byte>)
    requires |payload| <= 65493
    ensures ReadFrame(Frame(payload)) == Some(payload)
  {
    FrameLayout(payload);
    ReadFrameAt(Frame(payload), payload);
  }

  lemma ReadFrameAt(f: seq<Byte>, payload: seq<Byte>)
    requires |f| == 42 + |payload| && |payload| <= 65493 && f[42..] == payload
    requires GetBE16(f, 12) == 0x0800 && f[14] == 0x45 && f[23] == 17
    requires GetBE16(f, 16) == 28 + |payload| && GetBE16(f, 38) == 8 + |payload|
    ensures ReadFrame(f) == Some(payload)
  {
    var ip := f[14..];
    assert ip[0] == f[14] && ip[2] == f[16] && ip[3] == f[17] && ip[9] == f[23];
    assert ip[24] == f[38] && ip[25] == f[39];
    assert ip[28..] == f[42..];
    ReadDatagramAt(ip);
  }

  /** Ethernet, IPv4 and UDP headers take 42 bytes, so a frame yields at most its length less 42. */
  lemma ReadFrameBound(f: seq<Byte>)
    ensures ReadFrame(f).Some? ==> |ReadFrame(f).value| + 42 <= |f|
  {
  }

  lemma HeaderLayout(us: int, length: nat, rest: seq<Byte>)
    ensures var s := RecordHeader(us, length) + rest;
            && |s| == 16 + |rest| && s[16..] == rest
            && GetLE32(s, 0) == U32(TruncDiv(us, 1_000_000))
            && GetLE32(s, 4) == U32(TruncMod(us, 1_000_000))
            && GetLE32(s, 8) == U32(length) && GetLE32(s, 12) == U32(length)
  {
    var a, b, c := U32(TruncDiv(us, 1_000_000)), U32(TruncMod(us, 1_000_000)), U32(length);
    var h := RecordHeader(us, length);
    var s := h + rest;
    assert |h| == 16;
    assert s[0..4] == LE32(a) && s[4..8] == LE32(b) && s[8..12] == LE32(c) && s[12..16] == LE32(c);
    GetLE32Of(a, s, 0);
    GetLE32Of(b, s, 4);
    GetLE32Of(c, s, 8);
    GetLE32Of(c, s, 12);
  }

  /** The quotient and remainder of Go's operators: they make up the dividend, and the remainder is smaller
      than the divisor and has the dividend's sign. */
  lemma TruncMeaning(a: int, b: int)
    requires b > 0
    ensures TruncDiv(a, b) * b + TruncMod(a, b) == a
    ensures a >= 0 ==> 0 <= TruncMod(a, b) < b
    ensures a <= 0 ==> -b < TruncMod(a, b) <= 0
  {
    var m := if a >= 0 then a else -a;
    assert m == (m / b) * b + m % b;
    assert (-(m / b)) * b == -((m / b) * b);
  }

  lemma TimeFits(us: int)
    ensures U32(TruncDiv(us, 1_000_000)) * 1_000_000 + U32(TruncMod(us, 1_000_000)) == us
            <==> 0 <= us < 0x1_0000_0000 * 1_000_000
  {
    var sec, usec := TruncDiv(us, 1_000_000), TruncMod(us, 1_000_000);
    if us >= 0 {
      assert 0 <= usec < 1_000_000 && us == sec * 1_000_000 + usec;
      if sec >= 0x1_0000_0000 {
        assert U32(sec) < sec;
      }
    }
  }

  lemma SplitRecord(p: Packet, tail: seq<Byte>)
    ensures var f := Frame(p.payload); var s := PacketBytes(p) + tail;
            && |f| == 42 + |p.payload| && |s| == 16 + |f| + |tail| && s[16..] == f + tail
            && (GetLE32(s, 0) * 1_000_000 + GetLE32(s, 4) == p.us <==> 0 <= p.us < 0x1_0000_0000 * 1_000_000)
            && (|f| <= 65535 ==> GetLE32(s, 8) == GetLE32(s, 12) == |f|)
  {
    FrameSize(p.payload);
    SplitRecordAt(p.us, Frame(p.payload), tail);
  }

  lemma SplitRecordAt(us: int, f: seq<Byte>, tail: seq<Byte>)
    ensures var s := RecordHeader(us, |f|) + f + tail;
            && |s| == 16 + |f| + |tail| && s[16..] == f + tail
            && (GetLE32(s, 0) * 1_000_000 + GetLE32(s, 4) == us <==> 0 <= us < 0x1_0000_0000 * 1_000_000)
            && (|f| <= 65535 ==> GetLE32(s, 8) == GetLE32(s, 12) == |f|)
  {
    HeaderLayout(us, |f|, f + tail);
    Assoc(RecordHeader(us, |f|), f, tail);
    TimeFits(us);
  }

  lemma Cut<T>(s: seq<T>, i: nat, f: seq<T>, tail: seq<T>)
    requires |s| == i + |f| + |tail| && s[i..] == f + tail
    ensures s[i..i + |f|] == f && s[i + |f|..] == tail
  {
    assert s[i..][..|f|] == f && s[i..][|f|..] == tail;
  }

  lemma ReadPacketAt(s: seq<Byte>, f: seq<Byte>, payload: seq<Byte>)
    requires |s| >= 16 + |f| && GetLE32(s, 8) == GetLE32(s, 12) == |f| <= 65535 && s[16..16 + |f|] == f && ReadFrame(f) == Some(payload)
    ensures ReadPacket(s, 65535)
            == Some((Packet(GetLE32(s, 0) * 1_000_000 + GetLE32(s, 4), payload), s[16 + |f|..]))
  {
  }

  lemma ReadFitting(p: Packet, tail: seq<Byte>)
    requires Fits(p)
    ensures ReadPacket(PacketBytes(p) + tail, 65535) == Some((p, tail))
  {
    var f := Frame(p.payload);
    var s := PacketBytes(p) + tail;
    SplitRecord(p, tail);
    Cut(s, 16, f, tail);
    ReadFrameOfFrame(p.payload);
    ReadPacketAt(s, f, p.payload);
  }

  lemma ReadMisfit(p: Packet, tail: seq<Byte>)
    requires !Fits(p)
    ensures var r := ReadPacket(PacketBytes(p) + tail, 65535); r.None? || r.value.0 != p
  {
    SplitRecord(p, tail);
    ReadPacketBound(PacketBytes(p) + tail);
  }

  /** Whatever a record says, the reader takes its time from the header and at most 65493 payload bytes. */
  lemma ReadPacketBound(s: seq<Byte>)
    ensures var r := ReadPacket(s, 65535);
            r.Some? ==> r.value.0.us == GetLE32(s, 0) * 1_000_000 + GetLE32(s, 4) && |r.value.0.payload| <= 65493
  {
    if |s| >= 16 && |s| >= 16 + GetLE32(s, 8) {
      var length := GetLE32(s, 8);
      var captured := s[16..16 + length];
      ReadFrameBound(if length > 65535 then captured[..65535] else captured);
    }
  }

  /** `one` undoes `encode` on the items that fit, whatever follows them, and on no other. */
  ghost predicate ReadsBack<T(!new)>(
    encode: T -> seq<Byte>, one: seq<Byte> -> Option<(T, seq<Byte>)>, fits: T -> bool)
  {
    forall x, tail :: encode(x) != [] &&
      (if fits(x) then one(encode(x) + tail) == Some((x, tail))
       else one(encode(x) + tail).None? || one(encode(x) + tail).value.0 != x)
  }

  lemma {:induction false} ReadAllOf<T(!new)>(
    xs: seq<T>, encode: T -> seq<Byte>, one: seq<Byte> -> Option<(T, seq<Byte>)>, fits: T -> bool)
    requires forall t :: one(t).Some? ==> |one(t).value.1| < |t|
    requires ReadsBack(encode, one, fits)
    ensures ReadAll(Flatten(xs, encode), one) == Some(xs) <==> forall i :: 0 <= i < |xs| ==> fits(xs[i])
  {
    if xs != [] {
      var x, rest := xs[0], xs[1..];
      var tail := Flatten(rest, encode);
      ReadAllOf(rest, encode, one, fits);
      assert encode(x) != [] && encode(x) + tail == Flatten(xs, encode);
      assert (forall i :: 0 <= i < |xs| ==> fits(xs[i])) <==> fits(x) && forall i :: 0 <= i < |rest| ==> fits(rest[i]);
      assert xs == [x] + rest;
      if fits(x) {
        assert one(encode(x) + tail) == Some((x, tail));
        ConsSome(x, rest, ReadAll(tail, one));
      }
    }
  }

  lemma ConsSome<T>(x: T, rest: seq<T>, xs: Option<seq<T>>)
    ensures Cons(x, xs) == Some([x] + rest) <==> xs == Some(rest)
  {
    if xs.Some? && [x] + xs.value == [x] + rest {
      assert ([x] + xs.value)[1..] == xs.value && ([x] + rest)[1..] == rest;
    }
  }

  /** A record reads back as itself exactly when it fits; the rest of the file is left for the next one. */
  lemma RecordReadsBack()
    ensures ReadsBack((p: Packet) => PacketBytes(p), t => ReadPacket(t, 65535), p => Fits(p))
  {
    forall p: Packet, tail: seq<Byte>
      ensures PacketBytes(p) != []
      ensures if Fits(p) then ReadPacket(PacketBytes(p) + tail, 65535) == Some((p, tail))
              else ReadPacket(PacketBytes(p) + tail, 65535).None? || ReadPacket(PacketBytes(p) + tail, 65535).value.0 != p
    {
      SplitRecord(p, tail);
      if Fits(p) {
        ReadFitting(p, tail);
      } else {
        ReadMisfit(p, tail);
      }
    }
  }

  lemma ReadPacketsOf(ps: seq<Packet>)
    ensures ReadPackets(Packets(ps), 65535) == Some(ps) <==> forall i :: 0 <= i < |ps| ==> Fits(ps[i])
  {
    RecordReadsBack();
    ReadAllOf(ps, p => PacketBytes(p), t => ReadPacket(t, 65535), p => Fits(p));
  }

  lemma GlobalHeaderLayout(rest: seq<Byte>)
    ensures var s := GlobalHeader() + rest;
            && |s| == 24 + |rest| && s[24..] == rest
            && GetLE32(s, 0) == 0xa1b2c3d4 && GetLE16(s, 4) == 2 && GetLE16(s, 6) == 4
            && GetLE32(s, 8) == 0 && GetLE32(s, 12) == 0 && GetLE32(s, 16) == 65535 && GetLE32(s, 20) == 1
  {
    var g := GlobalHeader();
    var s := g + rest;
    assert |g| == 24;
    assert s[0..4] == LE32(0xa1b2c3d4) && s[4..6] == LE16(2) && s[6..8] == LE16(4);
    assert s[8..12] == LE32(0) && s[12..16] == LE32(0);
    assert s[16..20] == LE32(65535) && s[20..24] == LE32(1);
    GetLE32Of(0xa1b2c3d4, s, 0);
    GetLE32Of(0, s, 8);
    GetLE32Of(0, s, 12);
    GetLE32Of(65535, s, 16);
    GetLE32Of(1, s, 20);
    assert s[4..6][0] == s[4] && s[4..6][1] == s[5] && s[6..8][0] == s[6] && s[6..8][1] == s[7];
  }

  /** The file reads back as exactly the timestamps and payloads written, if and only if every
      payload has at most 65493 bytes and every time is non-negative and below 2^32 seconds. */
  lemma PcapRoundTrip(ps: seq<Packet>)
    ensures ReadFile(FileBytes(ps)) == Some(ps) <==> forall i :: 0 <= i < |ps| ==> Fits(ps[i])
  {
    GlobalHeaderLayout(Packets(ps));
    ReadPacketsOf(ps);
  }

  function PayloadTotal(ps: seq<Packet>): nat {
    if ps == [] then 0 else 58 + |ps[0].payload| + PayloadTotal(ps[1..])
  }

  /** The file's size: 24 bytes, and 58 for each record on top of its payload. */
  lemma {:induction false} FileSize(ps: seq<Packet>)
    ensures |FileBytes(ps)| == 24 + PayloadTotal(ps)
  {
    GlobalHeaderLayout(Packets(ps));
    if ps != [] {
      FileSize(ps[1..]);
      GlobalHeaderLayout(Packets(ps[1..]));
      FrameLayout(ps[0].payload);
      HeaderLayout(ps[0].us, |Frame(ps[0].payload)|, Frame(ps[0].payload));
    }
  }
}
