/** Bytes, 32-bit integers in network order, and the layout of a control packet. */
module Wire {

  type Byte = x: int | 0 <= x < 0x100

  /** A character of a C string: any byte but the terminator. */
  type TextByte = x: int | 0 < x < 0x100 witness 1

  type Int32 = x: int | -0x8000_0000 <= x < 0x8000_0000

  /** One frame of one player's input. */
  datatype Frame = Frame(keys: Byte, user: seq<TextByte>)

  const NO_INPUT := Frame(0, [])

  /** What a control packet says. `frames` is the run of frames that ends at cycle `current`. */
  datatype Packet = Packet(slot: int, current: int, checksum: int, ack: int, frames: seq<Frame>) {

    /** The cycle of the first frame carried. */
    function First(): int {
      1 + current - |frames|
    }
  }

  /** The packets whose fields fit the widths they have on the wire. */
  predicate FitsWire(p: Packet) {
    && 0 <= p.slot < 0x80
    && -0x8000_0000 <= p.current < 0x8000_0000
    && -0x8000_0000 <= p.checksum < 0x8000_0000
    && -0x8000_0000 <= p.ack < 0x8000_0000
    && |p.frames| < 0x8000_0000
  }

  // ---- 32-bit integers ----

  /** `htonl` followed by a copy of the four bytes. */
  function EncodeInt32(x: Int32): (b: seq<Byte>)
    ensures |b| == 4
  {
    var u := if x < 0 then x + 0x1_0000_0000 else x;
    [u / 0x100_0000, u / 0x1_0000 % 0x100, u / 0x100 % 0x100, u % 0x100]
  }

  /** A copy of four bytes followed by `ntohl`. */
  function DecodeInt32(b: seq<Byte>): Int32
    requires |b| == 4
  {
    var u: int := (b[0] as int) * 0x100_0000 + (b[1] as int) * 0x1_0000 + (b[2] as int) * 0x100 + b[3] as int;
    if u >= 0x8000_0000 then u - 0x1_0000_0000 else u
  }

  lemma Int32RoundTrip(x: Int32)
    ensures DecodeInt32(EncodeInt32(x)) == x
  {
    var u := if x < 0 then x + 0x1_0000_0000 else x;
    assert u / 0x1_0000 == u / 0x100_0000 * 0x100 + u / 0x1_0000 % 0x100;
    assert u / 0x100 == u / 0x1_0000 * 0x100 + u / 0x100 % 0x100;
    assert u == u / 0x100 * 0x100 + u % 0x100;
  }

  // ---- Frames ----

  /** The key byte, the user text, and the terminating NUL. */
  function EncodeFrame(f: Frame): (b: seq<Byte>)
    ensures |b| >= 2 && b[|b| - 1] == 0
  {
    [f.keys] + f.user + [0]
  }

  function EncodeFrames(fs: seq<Frame>): seq<Byte> {
    if fs == [] then [] else EncodeFrame(fs[0]) + EncodeFrames(fs[1..])
  }

  lemma {:induction false} EncodeFramesAppend(fs: seq<Frame>, gs: seq<Frame>)
    ensures EncodeFrames(fs + gs) == EncodeFrames(fs) + EncodeFrames(gs)
  {
    if fs == [] {
      assert fs + gs == gs;
    } else {
      assert (fs + gs)[1..] == fs[1..] + gs;
      EncodeFramesAppend(fs[1..], gs);
    }
  }

  lemma EncodeFramesSnoc(fs: seq<Frame>, f: Frame)
    ensures EncodeFrames(fs + [f]) == EncodeFrames(fs) + EncodeFrame(f)
  {
    EncodeFramesAppend(fs, [f]);
    assert EncodeFrames([f]) == EncodeFrame(f) + EncodeFrames([]);
  }

  /** A non-empty run of frames ends in a NUL, which is what the reader checks first. */
  lemma {:induction false} EncodeFramesTerminated(fs: seq<Frame>)
    requires fs != []
    ensures var b := EncodeFrames(fs); |b| > 0 && b[|b| - 1] == 0
  {
    EncodeFramesSnoc(fs[..|fs| - 1], fs[|fs| - 1]);
    assert fs == fs[..|fs| - 1] + [fs[|fs| - 1]];
  }

  /** Frames are self-delimiting: the first frame and the rest can be told apart. */
  lemma FrameInjective(f: Frame, a: seq<Byte>, g: Frame, b: seq<Byte>)
    requires EncodeFrame(f) + a == EncodeFrame(g) + b
    ensures f == g && a == b
  {
    var s := EncodeFrame(f) + a;
    var t := EncodeFrame(g) + b;
    assert s[0] == f.keys && t[0] == g.keys;
    assert s[1 + |f.user|] == 0 && t[1 + |g.user|] == 0;
    assert |f.user| <= |g.user| <= |f.user|;
    assert s[1..1 + |f.user|] == f.user && t[1..1 + |g.user|] == g.user;
    assert s[2 + |f.user|..] == a && t[2 + |g.user|..] == b;
  }

  lemma {:induction false} FramesInjective(fs: seq<Frame>, gs: seq<Frame>)
    requires |fs| == |gs| && EncodeFrames(fs) == EncodeFrames(gs)
    ensures fs == gs
  {
    if fs != [] {
      FrameInjective(fs[0], EncodeFrames(fs[1..]), gs[0], EncodeFrames(gs[1..]));
      FramesInjective(fs[1..], gs[1..]);
      assert fs == [fs[0]] + fs[1..] && gs == [gs[0]] + gs[1..];
    }
  }

  // ---- Packets ----

  function Header(p: Packet): (b: seq<Byte>)
    requires FitsWire(p)
    ensures |b| == 17
  {
    [p.slot] + EncodeInt32(p.current) + EncodeInt32(p.checksum) + EncodeInt32(p.ack) + EncodeInt32(|p.frames|)
  }

  function Encode(p: Packet): seq<Byte>
    requires FitsWire(p)
  {
    Header(p) + EncodeFrames(p.frames)
  }

  /** A packet appended to v piece by piece. */
  lemma HeaderInPieces(v: seq<Byte>, p: Packet)
    requires FitsWire(p)
    ensures v + [p.slot] + EncodeInt32(p.current) + EncodeInt32(p.checksum) + EncodeInt32(p.ack) + EncodeInt32(|p.frames|)
         == v + Header(p)
  {
  }

  lemma HeaderThenFrames(v: seq<Byte>, p: Packet)
    requires FitsWire(p)
    ensures v + Header(p) + EncodeFrames(p.frames) == v + Encode(p)
  {
  }

  /** Every header field is found again at its offset, and the frames follow the header. */
  lemma HeaderFields(p: Packet)
    requires FitsWire(p)
    ensures var b := Encode(p);
      && |b| >= 17 && b[|b| - 1] == 0 && (p.frames == [] ==> |b| == 17)
      && b[0] == p.slot
      && DecodeInt32(b[1..5]) == p.current
      && DecodeInt32(b[5..9]) == p.checksum
      && DecodeInt32(b[9..13]) == p.ack
      && DecodeInt32(b[13..17]) == |p.frames|
      && b[17..] == EncodeFrames(p.frames)
  {
    var b := Encode(p);
    assert b[1..5] == EncodeInt32(p.current);
    assert b[5..9] == EncodeInt32(p.checksum);
    assert b[9..13] == EncodeInt32(p.ack);
    assert b[13..17] == EncodeInt32(|p.frames|);
    Int32RoundTrip(p.current);
    Int32RoundTrip(p.checksum);
    Int32RoundTrip(p.ack);
    Int32RoundTrip(|p.frames|);
    if p.frames != [] {
      EncodeFramesTerminated(p.frames);
    } else {
      assert b == Header(p) && b[13..17][3] == b[16];
    }
  }

  /** No two packets have the same bytes. */
  lemma EncodeInjective(p: Packet, q: Packet)
    requires FitsWire(p) && FitsWire(q) && Encode(p) == Encode(q)
    ensures p == q
  {
    HeaderFields(p);
    HeaderFields(q);
    FramesInjective(p.frames, q.frames);
  }
}
