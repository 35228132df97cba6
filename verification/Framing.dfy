/**
 The wire format, on byte sequences: a four-byte big-endian length that counts
 itself, a type byte and a payload. `Frames` is the plain left-to-right framer.
 A frame longer than the receive ring can hold is never delivered, so lengths
 outside 5..65535 end the delivery.
 */
module Framing {

  type Byte = b: nat | b < 256

  const RING: nat := 65536  // BT_CFG_RECV_BUF_SIZE and GW_SEND_RING_SIZE

  datatype AnyFrame = Frame(kind: Byte, payload: seq<Byte>)

  /** The frames that fit the receive ring. */
  type Frame = f: AnyFrame | |f.payload| + 5 < RING witness Frame(0, [])

  /** The frames found at the front of a stream, and the bytes after them. */
  datatype Split = Split(frames: seq<Frame>, rest: seq<Byte>)

  /** ntohl of the first four bytes. */
  function Length(b: seq<Byte>): nat
    requires |b| >= 4
  {
    b[0] as nat * 0x100_0000 + b[1] as nat * 0x1_0000 + b[2] as nat * 256 + b[3] as nat
  }

  predicate Complete(b: seq<Byte>) {
    |b| >= 5 && 5 <= Length(b) < RING && Length(b) <= |b|
  }

  function FrontFrame(b: seq<Byte>): Frame
    requires Complete(b)
  {
    Frame(b[4], b[5..Length(b)])
  }

  function Frames(b: seq<Byte>): Split
    decreases |b|
  {
    if Complete(b) then
      var s := Frames(b[Length(b)..]);
      Split([FrontFrame(b)] + s.frames, s.rest)
    else Split([], b)
  }

  /** The last k bytes of n, most significant first; htonl for k = 4. */
  function BigEndian(n: nat, k: nat): (r: seq<Byte>)
    ensures |r| == k
  {
    if k == 0 then [] else BigEndian(n / 256, k - 1) + [n % 256]
  }

  lemma LengthOfBytes(n: nat)
    requires n < 0x1_0000_0000
    ensures Length(BigEndian(n, 4)) == n
  {
    var n1 := n / 256;
    var n2 := n1 / 256;
    var n3 := n2 / 256;
    assert BigEndian(n2, 2) == [n3 % 256, n2 % 256] by { assert BigEndian(n3, 1) == [n3 % 256]; }
    assert BigEndian(n, 4) == [n3 % 256, n2 % 256, n1 % 256, n % 256];
  }

  lemma LengthInjective(a: seq<Byte>, b: seq<Byte>)
    requires |a| == |b| == 4 && Length(a) == Length(b)
    ensures a == b
  {
    assert a[0] == b[0] && a[1] == b[1] && a[2] == b[2] && a[3] == b[3];
  }

  predicate IsEncoding(e: seq<Byte>, f: Frame) {
    Complete(e) && |e| == Length(e) && FrontFrame(e) == f
  }

  /** The bytes the sender writes for a frame. */
  function Encode(f: Frame): seq<Byte> {
    BigEndian(5 + |f.payload|, 4) + [f.kind] + f.payload
  }

  lemma EncodesFrame(f: Frame)
    ensures IsEncoding(Encode(f), f)
  {
    var e := Encode(f);
    LengthOfBytes(5 + |f.payload|);
    assert e[..4] == BigEndian(5 + |f.payload|, 4) && Length(e) == Length(e[..4]) && e[5..|e|] == f.payload;
  }

  /** Nothing else is exactly the frame f. */
  lemma EncodingUnique(e: seq<Byte>, f: Frame)
    requires IsEncoding(e, f)
    ensures e == Encode(f)
  {
    var d := Encode(f);
    EncodesFrame(f);
    LengthInjective(d[..4], e[..4]);
    assert e == e[..4] + [e[4]] + e[5..|e|];
    assert d == d[..4] + [d[4]] + d[5..|d|];
  }

  function EncodeAll(fs: seq<Frame>): seq<Byte> {
    if fs == [] then [] else Encode(fs[0]) + EncodeAll(fs[1..])
  }

  lemma CompleteAppend(a: seq<Byte>, b: seq<Byte>)
    requires Complete(a)
    ensures Complete(a + b) && FrontFrame(a + b) == FrontFrame(a) && Length(a + b) == Length(a)
    ensures (a + b)[Length(a)..] == a[Length(a)..] + b
  {
    assert (a + b)[..4] == a[..4];
    assert (a + b)[5..Length(a)] == a[5..Length(a)];
  }

  /** Framing is independent of where the stream is cut: frame the first part, then its rest with the second. */
  lemma {:induction false} FramesAppend(a: seq<Byte>, b: seq<Byte>)
    ensures var s := Frames(a); var t := Frames(s.rest + b);
            Frames(a + b) == Split(s.frames + t.frames, t.rest)
    decreases |a|
  {
    if Complete(a) {
      CompleteAppend(a, b);
      FramesAppend(a[Length(a)..], b);
      var s := Frames(a[Length(a)..]);
      var t := Frames(s.rest + b);
      assert [FrontFrame(a)] + (s.frames + t.frames) == ([FrontFrame(a)] + s.frames) + t.frames;
    } else {
      assert [] + Frames(a + b).frames == Frames(a + b).frames;
    }
  }

  /** Feeding a stream in chunks: keep what is not framed yet and frame it with the next chunk. */
  function Feed(pending: seq<Byte>, chunks: seq<seq<Byte>>): Split
    decreases |chunks|
  {
    if chunks == [] then Split([], pending)
    else
      var s := Frames(pending + chunks[0]);
      var t := Feed(s.rest, chunks[1..]);
      Split(s.frames + t.frames, t.rest)
  }

  function Join(chunks: seq<seq<Byte>>): seq<Byte> {
    if chunks == [] then [] else chunks[0] + Join(chunks[1..])
  }

  /** Every split into reads delivers the frames of the joined stream. */
  lemma {:induction false} ChunkingDoesNotMatter(pending: seq<Byte>, chunks: seq<seq<Byte>>)
    requires !Complete(pending)
    ensures Feed(pending, chunks) == Frames(pending + Join(chunks))
    decreases |chunks|
  {
    if chunks == [] {
      assert pending + Join(chunks) == pending;
    } else {
      var p := pending + chunks[0];
      RestIncomplete(p);
      ChunkingDoesNotMatter(Frames(p).rest, chunks[1..]);
      FeedOne(pending, chunks, p, Frames(p), Join(chunks[1..]), Feed(Frames(p).rest, chunks[1..]));
    }
  }

  lemma FeedOne(pending: seq<Byte>, chunks: seq<seq<Byte>>, p: seq<Byte>, s: Split, j: seq<Byte>, t: Split)
    requires chunks != [] && p == pending + chunks[0] && s == Frames(p) && j == Join(chunks[1..])
    requires t == Feed(s.rest, chunks[1..]) == Frames(s.rest + j)
    ensures Feed(pending, chunks) == Frames(pending + Join(chunks))
  {
    Associative(pending, chunks[0], j);
    FramesAppend(p, j);
  }

  lemma {:induction false} RestIncomplete(b: seq<Byte>)
    ensures !Complete(Frames(b).rest)
    decreases |b|
  {
    if Complete(b) { RestIncomplete(b[Length(b)..]); }
  }

  lemma FramesCons(f: Frame, b: seq<Byte>)
    ensures Frames(Encode(f) + b) == Split([f] + Frames(b).frames, Frames(b).rest)
  {
    EncodesFrame(f);
    CompleteAppend(Encode(f), b);
    assert Encode(f)[|Encode(f)|..] + b == b;
  }

  lemma EncodeAllCons(fs: seq<Frame>, b: seq<Byte>)
    requires fs != []
    ensures EncodeAll(fs) + b == Encode(fs[0]) + (EncodeAll(fs[1..]) + b)
  {
    Associative(Encode(fs[0]), EncodeAll(fs[1..]), b);
  }

  lemma Associative(a: seq<Byte>, b: seq<Byte>, c: seq<Byte>)
    ensures (a + b) + c == a + (b + c)
  {
  }

  lemma FramesEncodedCons(fs: seq<Frame>, b: seq<Byte>, c: seq<Byte>)
    requires fs != [] && c == EncodeAll(fs[1..]) + b
    ensures Frames(EncodeAll(fs) + b) == Split([fs[0]] + Frames(c).frames, Frames(c).rest)
  {
    EncodeAllCons(fs, b);
    FramesCons(fs[0], c);
  }

  lemma PrependFrame(fs: seq<Frame>, r: Split, q: Split, e: Split)
    requires fs != [] && r == Split([fs[0]] + q.frames, q.rest) && q == Split(fs[1..] + e.frames, e.rest)
    ensures r == Split(fs + e.frames, e.rest)
  {
  }

  /** The framer undoes the encoder, whatever follows. */
  lemma {:induction false} FramesOfEncoded(fs: seq<Frame>, b: seq<Byte>)
    ensures Frames(EncodeAll(fs) + b) == Split(fs + Frames(b).frames, Frames(b).rest)
    decreases |fs|
  {
    var e := Frames(b);
    if fs == [] {
      assert EncodeAll(fs) + b == b;
      assert fs + e.frames == e.frames;
    } else {
      FramesOfEncoded(fs[1..], b);
      FramesEncodedCons(fs, b, EncodeAll(fs[1..]) + b);
      PrependFrame(fs, Frames(EncodeAll(fs) + b), Frames(EncodeAll(fs[1..]) + b), e);
    }
  }

  lemma FrontIsPrefix(b: seq<Byte>)
    requires Complete(b)
    ensures Encode(FrontFrame(b)) == b[..Length(b)]
  {
    var e := b[..Length(b)];
    assert e[..4] == b[..4];
    assert e[5..|e|] == b[5..Length(b)];
    EncodingUnique(e, FrontFrame(b));
  }

  lemma SoundCons(b: seq<Byte>, c: seq<Byte>, t: Split)
    requires Complete(b) && c == b[Length(b)..] && EncodeAll(t.frames) + t.rest == c
    ensures EncodeAll([FrontFrame(b)] + t.frames) + t.rest == b
  {
    var fs := [FrontFrame(b)] + t.frames;
    FrontIsPrefix(b);
    EncodeAllCons(fs, t.rest);
    assert fs[1..] == t.frames;
    assert b == b[..Length(b)] + c;
  }

  /** The framer loses and invents nothing: encoding its frames and adding the rest gives the stream back. */
  lemma {:induction false} FramesSound(b: seq<Byte>)
    ensures EncodeAll(Frames(b).frames) + Frames(b).rest == b
    decreases |b|
  {
    if Complete(b) {
      var c := b[Length(b)..];
      FramesSound(c);
      SoundCons(b, c, Frames(c));
    }
  }

  /** At a header whose length cannot be delivered the framer stops for good. */
  lemma StuckHeader(b: seq<Byte>, more: seq<Byte>)
    requires |b| >= 5 && (Length(b) < 5 || Length(b) >= RING)
    ensures Frames(b + more) == Split([], b + more)
  {
    assert (b + more)[..4] == b[..4];
  }
}
