/** The wire format shared by the sync protocol and the relay control plane:
    a 4-byte big-endian length, a type byte, a payload. Both packages carry the same
    code for it, so it is defined once here. */
module Frames {
  type Byte = x: int | 0 <= x < 256

  const WORD := 0x1_0000_0000
  const MAX_FRAME := 64 * 1024 * 1024

  datatype Frame = Frame(msgType: Byte, payload: seq<Byte>)

  /** What one call of ReadFrame reports. */
  datatype ReadResult = Got(frame: Frame) | ShortRead | BadSize(size: nat)

  /** The bytes `binary.BigEndian.PutUint32` stores. */
  function PutUint32(n: int): (b: seq<Byte>)
    requires 0 <= n < WORD
    ensures |b| == 4
  {
    [n / 0x100_0000, n / 0x1_0000 % 0x100, n / 0x100 % 0x100, n % 0x100]
  }

  function Uint32(b: seq<Byte>): (n: int)
    requires |b| == 4
    ensures 0 <= n < WORD
  {
    (b[0] as int) * 0x100_0000 + (b[1] as int) * 0x1_0000 + (b[2] as int) * 0x100 + b[3]
  }

  lemma Uint32OfPut(n: int)
    requires 0 <= n < WORD
    ensures Uint32(PutUint32(n)) == n
  {
    var x := n / 0x100;
    var y := x / 0x100;
    assert n / 0x1_0000 == y && n / 0x100_0000 == y / 0x100;
    assert n == x * 0x100 + n % 0x100;
    assert x == y * 0x100 + x % 0x100;
    assert y == y / 0x100 * 0x100 + y % 0x100;
  }

  lemma PutOfUint32(b: seq<Byte>)
    requires |b| == 4
    ensures PutUint32(Uint32(b)) == b
  {
    var m := Uint32(b);
    assert m / 0x100_0000 == b[0];
    assert m / 0x1_0000 == (b[0] as int) * 0x100 + b[1];
    assert m / 0x100 == (b[0] as int) * 0x1_0000 + (b[1] as int) * 0x100 + b[2];
  }

  /** The header holds `uint32(1+len(payload))`, so it wraps for payloads of 4 GiB and more. */
  function Header(payload: seq<Byte>): int {
    (1 + |payload|) % WORD
  }

  function Encode(f: Frame): (s: seq<Byte>)
    ensures |s| == 5 + |f.payload|
  {
    PutUint32(Header(f.payload)) + [f.msgType] + f.payload
  }

  function EncodeAll(fs: seq<Frame>): seq<Byte> {
    if fs == [] then [] else Encode(fs[0]) + EncodeAll(fs[1..])
  }

  /** What ReadFrame returns on a stream holding `s` and then ending, with the bytes it leaves unread.
      A short `io.ReadFull` consumes everything there is. */
  function Decode(s: seq<Byte>): (ReadResult, seq<Byte>) {
    if |s| < 4 then (ShortRead, [])
    else
      var n := Uint32(s[..4]);
      if n == 0 || n > MAX_FRAME then (BadSize(n), s[4..])
      else if |s| < 4 + n then (ShortRead, [])
      else (Got(Frame(s[4], s[5..4 + n])), s[4 + n..])
  }

  predicate Admissible(f: Frame) {
    1 + |f.payload| <= MAX_FRAME
  }

  // ---------------------------------------------------------------- one frame

  /** The outcome of reading back any written frame, whatever its length and whatever follows it. */
  lemma DecodeOfEncode(f: Frame, rest: seq<Byte>)
    ensures var n := Header(f.payload);
            Decode(Encode(f) + rest) ==
            if n == 0 || n > MAX_FRAME then (BadSize(n), [f.msgType] + f.payload + rest)
            else (Got(Frame(f.msgType, f.payload[..n - 1])), f.payload[n - 1..] + rest)
  {
    var n := Header(f.payload);
    var s := Encode(f) + rest;
    Uint32OfPut(n);
    assert s[..4] == PutUint32(n);
    assert s == PutUint32(n) + ([f.msgType] + f.payload + rest);
    assert s[4..] == [f.msgType] + f.payload + rest;
    if !(n == 0 || n > MAX_FRAME) {
      assert n <= 1 + |f.payload|;
      assert s[5..] == f.payload + rest;
      assert s[5..4 + n] == f.payload[..n - 1];
      assert s[4 + n..] == f.payload[n - 1..] + rest;
    }
  }

  lemma RoundTrip(f: Frame, rest: seq<Byte>)
    requires Admissible(f)
    ensures Decode(Encode(f) + rest) == (Got(f), rest)
  {
    DecodeOfEncode(f, rest);
    assert Header(f.payload) == 1 + |f.payload|;
    assert f.payload[..|f.payload|] == f.payload;
    assert f.payload[|f.payload|..] + rest == rest;
  }

  /** A written frame comes back unchanged exactly when it is within the 64 MiB limit; one beyond it, up to the
      point where the header wraps, makes the reader fail after exactly four bytes. */
  lemma RoundTripIff(f: Frame, rest: seq<Byte>)
    ensures Decode(Encode(f) + rest) == (Got(f), rest) <==> 1 + |f.payload| <= 64 * 1024 * 1024
    ensures MAX_FRAME < 1 + |f.payload| < WORD ==>
              Decode(Encode(f) + rest) == (BadSize(1 + |f.payload|), (Encode(f) + rest)[4..])
  {
    if Admissible(f) {
      RoundTrip(f, rest);
    } else {
      DecodeOfEncode(f, rest);
      assert Encode(f) + rest == PutUint32(Header(f.payload)) + ([f.msgType] + f.payload + rest);
    }
  }

  const CHUNK: Byte := 4

  /** The JSON text of a chunk begins with its path: `{"p`. */
  predicate IsChunkText(payload: seq<Byte>) {
    |payload| >= 3 && payload[0] == 0x7B && payload[1] == 0x22 && payload[2] == 0x70
  }

  /** A chunk that is too large costs the reader the connection: it fails on the size, and the read after that takes
      the beginning of the body for a length, which is too large as well. */
  lemma ChunkRefusedTwice(payload: seq<Byte>, rest: seq<Byte>)
    requires IsChunkText(payload) && MAX_FRAME < 1 + |payload| < WORD
    ensures var (first, left) := Decode(Encode(Frame(CHUNK, payload)) + rest);
            first == BadSize(1 + |payload|) && Decode(left).0 == BadSize(0x047B_2270)
  {
    DecodeOfEncode(Frame(CHUNK, payload), rest);
    var left := [CHUNK] + payload + rest;
    assert left[..4] == [CHUNK, 0x7B, 0x22, 0x70];
  }

  /** Every accepted frame is within the limit and re-encodes to exactly the bytes consumed. */
  lemma EncodeOfDecode(s: seq<Byte>)
    ensures Decode(s).0.Got? ==>
              Admissible(Decode(s).0.frame) && s == Encode(Decode(s).0.frame) + Decode(s).1
  {
    if Decode(s).0.Got? {
      var n := Uint32(s[..4]);
      var f := Decode(s).0.frame;
      PutOfUint32(s[..4]);
      assert f == Frame(s[4], s[5..4 + n]) && Header(f.payload) == n;
      assert Encode(f) == s[..4] + [s[4]] + s[5..4 + n];
      assert s == s[..4] + [s[4]] + s[5..4 + n] + s[4 + n..];
    }
  }

  // ---------------------------------------------------------------- many frames

  /** The frames a reader gets from `s` before its first failure, and the bytes it fails on. */
  function ParseAll(s: seq<Byte>): (r: (seq<Frame>, seq<Byte>))
    decreases |s|
  {
    var (res, rest) := Decode(s);
    if res.Got? && |rest| < |s| then
      var (fs, left) := ParseAll(rest);
      ([res.frame] + fs, left)
    else ([], s)
  }

  lemma ParseOfCons(f: Frame, tail: seq<Byte>)
    requires Admissible(f)
    ensures ParseAll(Encode(f) + tail) == ([f] + ParseAll(tail).0, ParseAll(tail).1)
  {
    RoundTrip(f, tail);
  }

  /** Any concatenation of admissible frames parses back to the same list, then stops where
      the bytes that follow it would stop. */
  lemma {:induction false} ParseOfEncodeAll(fs: seq<Frame>, rest: seq<Byte>)
    requires forall f :: f in fs ==> Admissible(f)
    ensures ParseAll(EncodeAll(fs) + rest) == (fs + ParseAll(rest).0, ParseAll(rest).1)
  {
    var more, left := ParseAll(rest).0, ParseAll(rest).1;
    if fs == [] {
      assert EncodeAll(fs) + rest == rest;
      assert fs + more == more;
    } else {
      var tail := EncodeAll(fs[1..]) + rest;
      EncodeAllCons(fs, rest);
      ParseOfEncodeAll(fs[1..], rest);
      ConsParsed(fs, tail, more, left);
    }
  }

  lemma ConsParsed(fs: seq<Frame>, tail: seq<Byte>, more: seq<Frame>, left: seq<Byte>)
    requires fs != [] && Admissible(fs[0]) && ParseAll(tail) == (fs[1..] + more, left)
    ensures ParseAll(Encode(fs[0]) + tail) == (fs + more, left)
  {
    ParseOfCons(fs[0], tail);
    assert [fs[0]] + (fs[1..] + more) == fs + more;
  }

  lemma EncodeAllCons(fs: seq<Frame>, rest: seq<Byte>)
    requires fs != []
    ensures EncodeAll(fs) + rest == Encode(fs[0]) + (EncodeAll(fs[1..]) + rest)
  {
  }

  lemma ParseOfWhole(fs: seq<Frame>)
    requires forall f :: f in fs ==> Admissible(f)
    ensures ParseAll(EncodeAll(fs)) == (fs, [])
  {
    ParseOfEncodeAll(fs, []);
    assert EncodeAll(fs) + [] == EncodeAll(fs) && fs + [] == fs;
    assert ParseAll([]) == ([], []);
  }

  /** The byte stream determines the frame list. */
  lemma EncodeAllInjective(a: seq<Frame>, b: seq<Frame>)
    requires (forall f :: f in a ==> Admissible(f)) && (forall f :: f in b ==> Admissible(f))
    requires EncodeAll(a) == EncodeAll(b)
    ensures a == b
  {
    ParseOfWhole(a);
    ParseOfWhole(b);
  }

  /** Parsing loses nothing: the frames and the unread tail spell the input. */
  lemma {:induction false} EncodeAllOfParse(s: seq<Byte>)
    ensures EncodeAll(ParseAll(s).0) + ParseAll(s).1 == s
    ensures forall f :: f in ParseAll(s).0 ==> Admissible(f)
    decreases |s|
  {
    var (res, rest) := Decode(s);
    if res.Got? && |rest| < |s| {
      EncodeOfDecode(s);
      EncodeAllOfParse(rest);
      var fs := ParseAll(rest).0;
      assert ([res.frame] + fs)[1..] == fs;
      assert EncodeAll([res.frame] + fs) + ParseAll(s).1 == Encode(res.frame) + (EncodeAll(fs) + ParseAll(rest).1);
    } else {
      assert EncodeAll([]) + s == s;
    }
  }

  lemma {:induction false} EncodeAllAppend(a: seq<Frame>, b: seq<Frame>)
    ensures EncodeAll(a + b) == EncodeAll(a) + EncodeAll(b)
  {
    if a == [] {
      assert a + b == b;
    } else {
      assert (a + b)[1..] == a[1..] + b;
      EncodeAllAppend(a[1..], b);
    }
  }

  lemma DecodeOfPart(f: Frame, s: seq<Byte>)
    requires Admissible(f) && s < Encode(f)
    ensures Decode(s) == (ShortRead, [])
  {
    if 4 <= |s| {
      assert s[..4] == Encode(f)[..4] == PutUint32(Header(f.payload));
      Uint32OfPut(Header(f.payload));
    }
  }

  /** A reader that has seen only part of a frame stream has parsed a prefix of the frame list,
      and the bytes it holds back are less than one whole frame. */
  lemma {:induction false} ParseOfPrefix(fs: seq<Frame>, s: seq<Byte>)
    requires forall f :: f in fs ==> Admissible(f)
    requires s <= EncodeAll(fs)
    ensures ParseAll(s).0 <= fs
    ensures var k := |ParseAll(s).0|;
            if k < |fs| then ParseAll(s).1 < Encode(fs[k]) else ParseAll(s).1 == []
  {
    if fs != [] {
      var e, more := Encode(fs[0]), EncodeAll(fs[1..]);
      if |e| <= |s| {
        var t := s[|e|..];
        SplitPrefix(s, e, more);
        ParseOfCons(fs[0], t);
        ParseOfPrefix(fs[1..], t);
      } else {
        assert s == (e + more)[..|s|] == e[..|s|];
        DecodeOfPart(fs[0], s);
      }
    }
  }

  lemma SplitPrefix(s: seq<Byte>, e: seq<Byte>, more: seq<Byte>)
    requires s <= e + more && |e| <= |s|
    ensures s == e + s[|e|..] && s[|e|..] <= more
  {
    assert s[..|e|] == (e + more)[..|e|] == e;
    assert s[|e|..] == (e + more)[|e|..|s|] == more[..|s| - |e|];
  }

  // ---------------------------------------------------------------- the code

  /** An `io.Reader`/`io.Writer` over a byte queue whose writer has finished. */
  class ByteStream {
    var bytes: seq<Byte>

    constructor (s: seq<Byte>)
      ensures bytes == s
    {
      bytes := s;
    }

    /** `io.ReadFull`. */
    method ReadFull(buf: array<Byte>) returns (ok: bool)
      modifies this, buf
      ensures ok <==> buf.Length <= |old(bytes)|
      ensures ok ==> buf[..] == old(bytes)[..buf.Length] && bytes == old(bytes)[buf.Length..]
      ensures !ok ==> bytes == [] && buf[..|old(bytes)|] == old(bytes)
    {
      var n := if buf.Length <= |bytes| then buf.Length else |bytes|;
      for i := 0 to n
        invariant bytes == old(bytes)
        invariant buf[..i] == bytes[..i]
      {
        buf[i] := bytes[i];
      }
      ok := n == buf.Length;
      bytes := bytes[n..];
    }

    method Write(buf: array<Byte>)
      modifies this
      ensures bytes == old(bytes) + buf[..]
    {
      bytes := bytes + buf[..];
    }
  }

  /** Fills one buffer by index and hands it over in a single write. */
  method WriteFrame(w: ByteStream, msgType: Byte, payload: seq<Byte>)
    modifies w
    ensures w.bytes == old(w.bytes) + Encode(Frame(msgType, payload))
  {
    var buf := new Byte[5 + |payload|](_ => 0);
    var n := (1 + |payload|) % WORD;
    buf[0] := n / 0x100_0000;
    buf[1] := n / 0x1_0000 % 0x100;
    buf[2] := n / 0x100 % 0x100;
    buf[3] := n % 0x100;
    buf[4] := msgType;
    ghost var head := PutUint32(n) + [msgType];
    assert forall j :: 0 <= j < 5 ==> buf[j] == head[j];
    forall i | 0 <= i < |payload| {
      buf[5 + i] := payload[i];
    }
    assert forall j :: 0 <= j < 5 ==> buf[j] == head[j];
    assert forall j :: 0 <= j < |payload| ==> buf[5 + j] == payload[j];
    assert buf[..] == head + payload;
    w.Write(buf);
  }

  method ReadFrame(r: ByteStream) returns (res: ReadResult)
    modifies r
    ensures (res, r.bytes) == Decode(old(r.bytes))
  {
    var hdr := new Byte[4](_ => 0);
    var ok := r.ReadFull(hdr);
    if !ok {
      return ShortRead;
    }
    var n := Uint32(hdr[..]);
    if n == 0 || n > MAX_FRAME {
      return BadSize(n);
    }
    var body := new Byte[n](_ => 0);
    ok := r.ReadFull(body);
    if !ok {
      return ShortRead;
    }
    ghost var s := old(r.bytes);
    assert body[..] == s[4..][..n] == s[4..4 + n];
    assert body[1..] == s[5..4 + n];
    res := Got(Frame(body[0], body[1..]));
  }
}
