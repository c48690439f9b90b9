/** Cutting a byte stream into frames: OnRead of lib/net/tcp_server/tcp_packet.go and the reassembly
    buffer of runConnRead in lib/net/tcp_server/tcp_server.go, for any header length and body length
    function. */
module Framing {

  type Byte = b: int | 0 <= b < 256 witness 0

  type Bytes = seq<Byte>

  function Flatten(parts: seq<Bytes>): Bytes {
    if parts == [] then [] else parts[0] + Flatten(parts[1..])
  }

  lemma {:induction false} FlattenAppend(a: seq<Bytes>, b: seq<Bytes>)
    ensures Flatten(a + b) == Flatten(a) + Flatten(b)
  {
    if a == [] {
      assert a + b == b;
    } else {
      assert (a + b)[1..] == a[1..] + b;
      FlattenAppend(a[1..], b);
    }
  }

  lemma FlattenSnoc(a: seq<Bytes>, x: Bytes)
    ensures Flatten(a + [x]) == Flatten(a) + x
  {
    FlattenAppend(a, [x]);
    assert [x][1..] == [];
  }

  /** What is cut off a stream, what is left, and whether it is left because its header is invalid. */
  datatype Parsed = Parsed(frames: seq<Bytes>, rest: Bytes, invalid: bool)

  function Split(h: nat, bodyLen: Bytes -> int, s: Bytes): Parsed
    requires h > 0
    decreases |s|
  {
    if |s| < h then Parsed([], s, false)
    else
      var n := bodyLen(s[..h]);
      if n < 0 then Parsed([], s, true)
      else if |s| < h + n then Parsed([], s, false)
      else
        var p := Split(h, bodyLen, s[h + n..]);
        Parsed([s[..h + n]] + p.frames, p.rest, p.invalid)
  }

  // ---- what a split is ------------------------------------------------------------------------------

  predicate IsFrame(h: nat, bodyLen: Bytes -> int, f: Bytes) {
    |f| >= h && bodyLen(f[..h]) == |f| - h
  }

  /** Too short for its header, or for the body its header announces. */
  predicate Incomplete(h: nat, bodyLen: Bytes -> int, s: Bytes) {
    |s| < h || (bodyLen(s[..h]) >= 0 && |s| < h + bodyLen(s[..h]))
  }

  predicate HeaderInvalid(h: nat, bodyLen: Bytes -> int, s: Bytes) {
    |s| >= h && bodyLen(s[..h]) < 0
  }

  /** `p` cuts `s` into whole frames followed by an incomplete frame or an invalid header. */
  ghost predicate Cuts(h: nat, bodyLen: Bytes -> int, s: Bytes, p: Parsed) {
    && s == Flatten(p.frames) + p.rest
    && (forall i :: 0 <= i < |p.frames| ==> IsFrame(h, bodyLen, p.frames[i]))
    && (if p.invalid then HeaderInvalid(h, bodyLen, p.rest) else Incomplete(h, bodyLen, p.rest))
  }

  lemma {:induction false} SplitCuts(h: nat, bodyLen: Bytes -> int, s: Bytes)
    requires h > 0
    ensures Cuts(h, bodyLen, s, Split(h, bodyLen, s))
    decreases |s|
  {
    if |s| >= h && bodyLen(s[..h]) >= 0 && |s| >= h + bodyLen(s[..h]) {
      var k := h + bodyLen(s[..h]);
      SplitCuts(h, bodyLen, s[k..]);
      assert s[..k][..h] == s[..h];
      assert s == s[..k] + s[k..];
      var p, q := Split(h, bodyLen, s), Split(h, bodyLen, s[k..]);
      assert p.frames[1..] == q.frames;
    } else {
      assert Flatten([]) + s == s;
    }
  }

  /** There is only one way to cut a stream. */
  lemma {:induction false} CutsIsSplit(h: nat, bodyLen: Bytes -> int, s: Bytes, p: Parsed)
    requires h > 0 && Cuts(h, bodyLen, s, p)
    ensures Split(h, bodyLen, s) == p
    decreases |p.frames|
  {
    if p.frames == [] {
      assert Flatten(p.frames) + p.rest == p.rest;
    } else {
      var f, tail := p.frames[0], Parsed(p.frames[1..], p.rest, p.invalid);
      assert IsFrame(h, bodyLen, f);
      assert s == f + (Flatten(tail.frames) + tail.rest);
      assert s[..h] == f[..h] && s[..|f|] == f && s[|f|..] == Flatten(tail.frames) + tail.rest;
      CutsIsSplit(h, bodyLen, s[|f|..], tail);
      assert [f] + tail.frames == p.frames;
    }
  }

  lemma CutsAppend(h: nat, bodyLen: Bytes -> int, s: Bytes, t: Bytes, p: Parsed, q: Parsed)
    requires Cuts(h, bodyLen, s, p) && Cuts(h, bodyLen, p.rest + t, q)
    ensures Cuts(h, bodyLen, s + t, Parsed(p.frames + q.frames, q.rest, q.invalid))
  {
    hide IsFrame, Incomplete, HeaderInvalid, Flatten;
    FlattenAppend(p.frames, q.frames);
    calc {
      s + t;
      Flatten(p.frames) + (p.rest + t);
      Flatten(p.frames) + (Flatten(q.frames) + q.rest);
      Flatten(p.frames + q.frames) + q.rest;
    }
  }

  /** Parsing may stop after any prefix and resume with what is left of it in front of the rest. */
  lemma SplitAppend(h: nat, bodyLen: Bytes -> int, s: Bytes, t: Bytes)
    requires h > 0 && !Split(h, bodyLen, s).invalid
    ensures var p := Split(h, bodyLen, s);
            var q := Split(h, bodyLen, p.rest + t);
            Split(h, bodyLen, s + t) == Parsed(p.frames + q.frames, q.rest, q.invalid)
  {
    hide Split, Cuts;
    var p := Split(h, bodyLen, s);
    var q := Split(h, bodyLen, p.rest + t);
    SplitCuts(h, bodyLen, s);
    SplitCuts(h, bodyLen, p.rest + t);
    CutsAppend(h, bodyLen, s, t, p, q);
    CutsIsSplit(h, bodyLen, s + t, Parsed(p.frames + q.frames, q.rest, q.invalid));
  }

  /** Nothing that follows an invalid header matters. */
  lemma InvalidIsFinal(h: nat, bodyLen: Bytes -> int, s: Bytes, t: Bytes)
    requires h > 0 && Split(h, bodyLen, s).invalid
    ensures var p := Split(h, bodyLen, s);
            Split(h, bodyLen, s + t) == Parsed(p.frames, p.rest + t, true)
  {
    SplitCuts(h, bodyLen, s);
    var p := Split(h, bodyLen, s);
    assert s + t == Flatten(p.frames) + (p.rest + t);
    assert (p.rest + t)[..h] == p.rest[..h];
    CutsIsSplit(h, bodyLen, s + t, Parsed(p.frames, p.rest + t, true));
  }

  // ---- a connection -----------------------------------------------------------------------------------

  /** One turn of the read loop, at offset `c` of the data. */
  lemma SplitAt(headerLen: nat, bodyLen: Bytes -> int, data: Bytes, c: nat)
    requires headerLen > 0 && c <= |data|
    ensures var q := Split(headerLen, bodyLen, data[c..]);
            if |data| < c + headerLen then q == Parsed([], data[c..], false)
            else
              var n := bodyLen(data[c..c + headerLen]);
              if n < 0 then q.frames == [] && q.invalid
              else if |data| < c + headerLen + n then q == Parsed([], data[c..], false)
              else
                var more := Split(headerLen, bodyLen, data[c + headerLen + n..]);
                q.frames == [data[c..c + headerLen + n]] + more.frames && q.rest == more.rest && q.invalid == more.invalid
  {
    var tail := data[c..];
    if |data| >= c + headerLen {
      assert tail[..headerLen] == data[c..c + headerLen];
      var n := bodyLen(data[c..c + headerLen]);
      if n >= 0 && |data| >= c + headerLen + n {
        assert tail[..headerLen + n] == data[c..c + headerLen + n];
        assert tail[headerLen + n..] == data[c + headerLen + n..];
      }
    }
  }

  class Connection {
    const headerLen: nat
    const bodyLen: Bytes -> int
    var buff: Bytes
    var closed: bool
    /** The frames handed to OnPacket, and how often OnClose was called. */
    var delivered: seq<Bytes>
    var closeCalls: nat

    constructor (headerLen: nat, bodyLen: Bytes -> int)
      ensures this.headerLen == headerLen && this.bodyLen == bodyLen
      ensures buff == [] && !closed && delivered == [] && closeCalls == 0
    {
      this.headerLen := headerLen;
      this.bodyLen := bodyLen;
      buff, closed, delivered, closeCalls := [], false, [], 0;
    }

    method OnRead(data: Bytes) returns (consumed: nat)
      requires headerLen > 0
      modifies this`closed, this`delivered
      ensures var p := Split(headerLen, bodyLen, data);
              && delivered == old(delivered) + p.frames
              && closed == (old(closed) || p.invalid)
              && (p.invalid ==> consumed == |data|)
              && (!p.invalid ==> consumed <= |data| && data[consumed..] == p.rest)
    {
      hide Split;
      ghost var p := Split(headerLen, bodyLen, data);
      consumed := 0;
      assert data[0..] == data;
      while true
        invariant consumed <= |data| && closed == old(closed)
        invariant var q := Split(headerLen, bodyLen, data[consumed..]);
                  old(delivered) + p.frames == delivered + q.frames && p.rest == q.rest && p.invalid == q.invalid
        decreases |data| - consumed
      {
        ghost var q := Split(headerLen, bodyLen, data[consumed..]);
        SplitAt(headerLen, bodyLen, data, consumed);
        if |data| < consumed + headerLen {
          assert delivered + [] == delivered;
          return consumed;
        }
        var n := bodyLen(data[consumed..consumed + headerLen]);
        if n < 0 {
          assert delivered + [] == delivered;
          closed := true;
          return |data|;
        }
        if |data| < consumed + headerLen + n {
          assert delivered + [] == delivered;
          return consumed;
        }
        ghost var frame := data[consumed..consumed + headerLen + n];
        assert delivered + ([frame] + q.frames[1..]) == delivered + [frame] + q.frames[1..];
        delivered := delivered + [data[consumed..consumed + headerLen + n]];
        consumed := consumed + headerLen + n;
      }
    }

    /** The read loop over what Read returns before the end of the stream or an error. A closed
        connection reads nothing more. */
    method RunConnRead(chunks: seq<Bytes>)
      requires headerLen > 0 && buff == [] && !closed && delivered == [] && closeCalls == 0
      modifies this
      ensures delivered == Split(headerLen, bodyLen, Flatten(chunks)).frames
      ensures closed && closeCalls == 1
    {
      var i := 0;
      assert Split(headerLen, bodyLen, []) == Parsed([], [], false);
      while i < |chunks| && !closed
        invariant 0 <= i <= |chunks| && closeCalls == 0
        invariant var p := Split(headerLen, bodyLen, Flatten(chunks[..i]));
                  && delivered == p.frames && closed == p.invalid && (!closed ==> buff == p.rest)
      {
        FlattenSnoc(chunks[..i], chunks[i]);
        assert chunks[..i + 1] == chunks[..i] + [chunks[i]];
        SplitAppend(headerLen, bodyLen, Flatten(chunks[..i]), chunks[i]);
        buff := buff + chunks[i];
        var consumed := OnRead(buff);
        if consumed > 0 {
          buff := buff[consumed..];
        }
        i := i + 1;
      }
      FlattenAppend(chunks[..i], chunks[i..]);
      assert chunks[..i] + chunks[i..] == chunks;
      if closed {
        InvalidIsFinal(headerLen, bodyLen, Flatten(chunks[..i]), Flatten(chunks[i..]));
      } else {
        assert chunks[..i] == chunks;
      }
      closeCalls := closeCalls + 1;
      closed := true;
    }
  }
}
