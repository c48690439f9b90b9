/** The client packet codec (lib/api/sharedstruct/cs_packet.go) and its frames. */
module CSPacket {
  import opened Framing

  function Power256(w: nat): nat {
    if w == 0 then 1 else 256 * Power256(w - 1)
  }

  /** `n` as `w` bytes, the most significant first. */
  function ToBigEndian(n: nat, w: nat): (s: Bytes)
    ensures |s| == w
  {
    if w == 0 then [] else ToBigEndian(n / 256, w - 1) + [n % 256]
  }

  function FromBigEndian(s: Bytes): nat {
    if s == [] then 0 else 256 * FromBigEndian(s[..|s| - 1]) + s[|s| - 1]
  }

  lemma {:induction false} ReadBack(n: nat, w: nat)
    requires n < Power256(w)
    ensures FromBigEndian(ToBigEndian(n, w)) == n
  {
    if w > 0 {
      ReadBack(n / 256, w - 1);
      assert ToBigEndian(n, w)[..w - 1] == ToBigEndian(n / 256, w - 1);
    }
  }

  lemma {:induction false} WriteBack(s: Bytes)
    ensures FromBigEndian(s) < Power256(|s|)
    ensures ToBigEndian(FromBigEndian(s), |s|) == s
  {
    if s != [] {
      WriteBack(s[..|s| - 1]);
      assert s == s[..|s| - 1] + [s[|s| - 1]];
    }
  }

  /** Byte `i` of `w` is the digit for 256 to the power of the number of bytes after it. */
  lemma {:induction false} BigEndianDigit(n: nat, w: nat, i: nat)
    requires i < w
    ensures Power256(w - 1 - i) > 0 && ToBigEndian(n, w)[i] == n / Power256(w - 1 - i) % 256
  {
    if i < w - 1 {
      BigEndianDigit(n / 256, w - 1, i);
      DivTwice(n, Power256(w - 2 - i));
    }
  }

  lemma DivTwice(n: nat, p: nat)
    requires p > 0
    ensures n / 256 / p == n / (256 * p)
  {
    var q, r := n / (256 * p), n % (256 * p);
    assert n == p * 256 * q + r;
    assert n / 256 == p * q + r / 256;
    assert r / 256 < p;
    QuotientIs(n / 256, p, q, r / 256);
  }

  lemma QuotientIs(a: nat, p: nat, q: nat, r: nat)
    requires p > 0 && a == p * q + r && r < p
    ensures a / p == q
  {
    var d := a / p - q;
    assert a == p * (a / p) + a % p;
    assert p * d == r - a % p;
    ProductSize(p, d);
  }

  lemma ProductSize(p: nat, d: int)
    ensures d >= 1 ==> p * d >= p
    ensures d <= -1 ==> p * d <= -(p as int)
  {
  }

  const HEADER_LENGTH := 28
  const MAX_BODY := 4 * 1024 * 1024

  datatype Header = Header(version: nat, passCode: nat, seqNo: nat, uid: nat, appVersion: nat, cmd: nat, bodyLen: nat)

  /** The field widths: uint16, uint16, uint32, uint64, uint32, uint32, uint32. */
  predicate Fits(h: Header) {
    && h.version < Power256(2) && h.passCode < Power256(2) && h.seqNo < Power256(4) && h.uid < Power256(8)
    && h.appVersion < Power256(4) && h.cmd < Power256(4) && h.bodyLen < Power256(4)
  }

  function Encode(h: Header): (s: Bytes)
    ensures |s| == HEADER_LENGTH
  {
    ToBigEndian(h.version, 2) + ToBigEndian(h.passCode, 2) + ToBigEndian(h.seqNo, 4) + ToBigEndian(h.uid, 8)
    + ToBigEndian(h.appVersion, 4) + ToBigEndian(h.cmd, 4) + ToBigEndian(h.bodyLen, 4)
  }

  function Decode(s: Bytes): Header
    requires |s| >= HEADER_LENGTH
  {
    Header(FromBigEndian(s[0..2]), FromBigEndian(s[2..4]), FromBigEndian(s[4..8]), FromBigEndian(s[8..16]),
           FromBigEndian(s[16..20]), FromBigEndian(s[20..24]), FromBigEndian(s[24..28]))
  }

  /** Where each field lies in the 28 bytes. */
  lemma EncodedFields(h: Header)
    ensures var s := Encode(h);
            && s[0..2] == ToBigEndian(h.version, 2) && s[2..4] == ToBigEndian(h.passCode, 2)
            && s[4..8] == ToBigEndian(h.seqNo, 4) && s[8..16] == ToBigEndian(h.uid, 8)
            && s[16..20] == ToBigEndian(h.appVersion, 4) && s[20..24] == ToBigEndian(h.cmd, 4)
            && s[24..28] == ToBigEndian(h.bodyLen, 4)
  {
    hide ToBigEndian;
    var first := ToBigEndian(h.version, 2) + ToBigEndian(h.passCode, 2) + ToBigEndian(h.seqNo, 4) + ToBigEndian(h.uid, 8);
    var last := ToBigEndian(h.appVersion, 4) + ToBigEndian(h.cmd, 4) + ToBigEndian(h.bodyLen, 4);
    assert Encode(h) == first + last;
    assert last[0..4] == ToBigEndian(h.appVersion, 4) && last[4..8] == ToBigEndian(h.cmd, 4);
    assert last[8..12] == ToBigEndian(h.bodyLen, 4);
  }

  /** Every header survives being written and read, whatever follows it in the buffer. */
  lemma DecodeEncode(h: Header, tail: Bytes)
    requires Fits(h)
    ensures Decode(Encode(h) + tail) == h
  {
    EncodedFields(h);
    ReadBack(h.version, 2);
    ReadBack(h.passCode, 2);
    ReadBack(h.seqNo, 4);
    ReadBack(h.uid, 8);
    ReadBack(h.appVersion, 4);
    ReadBack(h.cmd, 4);
    ReadBack(h.bodyLen, 4);
    hide ToBigEndian, FromBigEndian, Encode, Fits;
    var s, t := Encode(h), Encode(h) + tail;
    assert t[0..2] == s[0..2] && t[2..4] == s[2..4] && t[4..8] == s[4..8] && t[8..16] == s[8..16];
    assert t[16..20] == s[16..20] && t[20..24] == s[20..24] && t[24..28] == s[24..28];
  }

  /** Every 28 bytes are the encoding of some header. */
  lemma EncodeDecode(s: Bytes)
    requires |s| >= HEADER_LENGTH
    ensures Fits(Decode(s)) && Encode(Decode(s)) == s[..HEADER_LENGTH]
  {
    WriteBack(s[0..2]);
    WriteBack(s[2..4]);
    WriteBack(s[4..8]);
    WriteBack(s[8..16]);
    WriteBack(s[16..20]);
    WriteBack(s[20..24]);
    WriteBack(s[24..28]);
    hide ToBigEndian, FromBigEndian, Power256;
    assert s[..28] == s[0..2] + s[2..4] + s[4..8] + s[8..16] + s[16..20] + s[20..24] + s[24..28];
  }

  /** ByteLenOfCSPacketBody. */
  function BodyLength(header: Bytes): int {
    if |header| < HEADER_LENGTH then -1
    else
      var n := FromBigEndian(header[HEADER_LENGTH - 4..HEADER_LENGTH]);
      if n > MAX_BODY then -1 else n
  }

  /** The header announces what decoding it says, and is refused exactly when that is too much. */
  lemma BodyLengthMeaning(s: Bytes)
    requires |s| == HEADER_LENGTH
    ensures BodyLength(s) == if Decode(s).bodyLen <= 4194304 then Decode(s).bodyLen else -1
  {
    hide FromBigEndian;
  }

  datatype Packet = Packet(header: Header, body: Bytes)

  predicate ValidPacket(p: Packet) {
    Fits(p.header) && p.header.bodyLen == |p.body| <= MAX_BODY
  }

  function EncodePacket(p: Packet): Bytes {
    Encode(p.header) + p.body
  }

  function DecodePacket(frame: Bytes): Packet
    requires |frame| >= HEADER_LENGTH
  {
    Packet(Decode(frame), frame[HEADER_LENGTH..])
  }

  lemma PacketRoundTrip(p: Packet)
    requires ValidPacket(p)
    ensures IsFrame(HEADER_LENGTH, BodyLength, EncodePacket(p)) && DecodePacket(EncodePacket(p)) == p
  {
    DecodeEncode(p.header, p.body);
    DecodeEncode(p.header, []);
    hide Encode, Decode, Fits, FromBigEndian;
    assert Encode(p.header) + [] == Encode(p.header);
    assert EncodePacket(p)[..HEADER_LENGTH] == Encode(p.header);
    BodyLengthMeaning(Encode(p.header));
    hide BodyLength;
  }

  function EncodeAll(ps: seq<Packet>): (fs: seq<Bytes>)
    ensures |fs| == |ps| && forall i :: 0 <= i < |ps| ==> fs[i] == EncodePacket(ps[i])
  {
    if ps == [] then [] else [EncodePacket(ps[0])] + EncodeAll(ps[1..])
  }

  /** However the encodings of valid packets are cut into reads, exactly these packets are delivered,
      in order, and nothing is left over. */
  lemma PacketsComeBack(ps: seq<Packet>, chunks: seq<Bytes>)
    requires forall i :: 0 <= i < |ps| ==> ValidPacket(ps[i])
    requires Flatten(chunks) == Flatten(EncodeAll(ps))
    ensures var p := Split(HEADER_LENGTH, BodyLength, Flatten(chunks));
            && p == Parsed(EncodeAll(ps), [], false)
            && forall i :: 0 <= i < |ps| ==> |p.frames[i]| >= HEADER_LENGTH && DecodePacket(p.frames[i]) == ps[i]
  {
    forall i | 0 <= i < |ps|
      ensures IsFrame(HEADER_LENGTH, BodyLength, EncodePacket(ps[i])) && DecodePacket(EncodePacket(ps[i])) == ps[i]
    {
      PacketRoundTrip(ps[i]);
    }
    hide BodyLength, EncodePacket, DecodePacket, ValidPacket, Split;
    var s := Flatten(chunks);
    assert s == Flatten(EncodeAll(ps)) + [];
    CutsIsSplit(HEADER_LENGTH, BodyLength, s, Parsed(EncodeAll(ps), [], false));
  }

  // ---- reading and writing a header in place ---------------------------------------------------------

  method PutBigEndian(b: array<Byte>, pos: nat, n: nat, w: nat)
    requires pos + w <= b.Length
    modifies b
    ensures b[..pos + w] == old(b[..pos]) + ToBigEndian(n, w) && b[pos + w..] == old(b[pos + w..])
  {
    var rest, k := n, w;
    ghost var was := b[..];
    assert ToBigEndian(n, w) + [] == ToBigEndian(n, w);
    while k > 0
      invariant 0 <= k <= w
      invariant ToBigEndian(n, w) == ToBigEndian(rest, k) + b[pos + k..pos + w]
      invariant b[..pos + k] == was[..pos + k] && b[pos + w..] == was[pos + w..]
    {
      k := k - 1;
      ghost var before := b[pos + k + 1..pos + w];
      b[pos + k] := rest % 256;
      assert b[pos + k..pos + w] == [rest % 256] + before;
      rest := rest / 256;
    }
    assert b[..pos + w] == b[..pos] + b[pos..pos + w];
  }

  method GetBigEndian(b: array<Byte>, pos: nat, w: nat) returns (n: nat)
    requires pos + w <= b.Length
    ensures n == FromBigEndian(b[pos..pos + w])
  {
    n := 0;
    var k := 0;
    while k < w
      invariant 0 <= k <= w && n == FromBigEndian(b[pos..pos + k])
    {
      assert b[pos..pos + k + 1][..k] == b[pos..pos + k];
      n := 256 * n + b[pos + k];
      k := k + 1;
    }
  }

  /** CSPacketHeader.To. */
  method WriteHeader(h: Header, b: array<Byte>)
    requires b.Length >= HEADER_LENGTH
    modifies b
    ensures b[..HEADER_LENGTH] == Encode(h) && b[HEADER_LENGTH..] == old(b[HEADER_LENGTH..])
  {
    hide ToBigEndian;
    ghost var was := b[..];
    var pos := 0;
    PutBigEndian(b, pos, h.version, 2);
    assert b[2..] == was[2..];
    pos := pos + 2;
    PutBigEndian(b, pos, h.passCode, 2);
    assert b[4..] == was[4..];
    pos := pos + 2;
    PutBigEndian(b, pos, h.seqNo, 4);
    assert b[8..] == was[8..];
    pos := pos + 4;
    PutBigEndian(b, pos, h.uid, 8);
    assert b[16..] == was[16..];
    pos := pos + 8;
    PutBigEndian(b, pos, h.appVersion, 4);
    assert b[20..] == was[20..];
    pos := pos + 4;
    PutBigEndian(b, pos, h.cmd, 4);
    assert b[24..] == was[24..];
    pos := pos + 4;
    PutBigEndian(b, pos, h.bodyLen, 4);
    assert b[28..] == was[28..];
  }

  /** CSPacketHeader.From. */
  method ReadHeader(b: array<Byte>) returns (h: Header)
    requires b.Length >= HEADER_LENGTH
    ensures h == Decode(b[..])
  {
    hide FromBigEndian;
    var s := b[..];
    var pos := 0;
    var version := GetBigEndian(b, pos, 2);
    pos := pos + 2;
    var passCode := GetBigEndian(b, pos, 2);
    pos := pos + 2;
    var seqNo := GetBigEndian(b, pos, 4);
    pos := pos + 4;
    var uid := GetBigEndian(b, pos, 8);
    pos := pos + 8;
    var appVersion := GetBigEndian(b, pos, 4);
    pos := pos + 4;
    var cmd := GetBigEndian(b, pos, 4);
    pos := pos + 4;
    var bodyLen := GetBigEndian(b, pos, 4);
    assert s[0..2] == b[0..2] && s[2..4] == b[2..4] && s[4..8] == b[4..8] && s[8..16] == b[8..16];
    assert s[16..20] == b[16..20] && s[20..24] == b[20..24] && s[24..28] == b[24..28];
    h := Header(version, passCode, seqNo, uid, appVersion, cmd, bodyLen);
  }
}
