/** Length-prefixed messages of webbridge/grpcweb.go: the "Length-Prefixed-Message" of gRPC over HTTP/2, one byte of
    flags and a four-byte big-endian length in front of the payload. */
module Framing {
  newtype byte = x: int | 0 <= x < 256

  type Bytes = seq<byte>

  const WORD: nat := 0x1_0000_0000

  /** The largest message read, four megabytes. */
  const MAX_MESSAGE: nat := 0x40_0000

  function BigEndian(v: nat): (b: Bytes)
    requires v < WORD
    ensures |b| == 4
  {
    [(v / 0x100_0000) as byte, (v / 0x1_0000 % 0x100) as byte, (v / 0x100 % 0x100) as byte, (v % 0x100) as byte]
  }

  function Uint32(b: Bytes): (v: nat)
    requires |b| == 4
    ensures v < WORD
  {
    b[0] as int * 0x100_0000 + b[1] as int * 0x1_0000 + b[2] as int * 0x100 + b[3] as int
  }

  /** Writing and reading a length are inverse in both directions. */
  lemma BigEndianInverse(v: nat, b: Bytes)
    requires v < WORD && |b| == 4
    ensures Uint32(BigEndian(v)) == v
    ensures BigEndian(Uint32(b)) == b
  {
    var q := v / 0x100;
    var q' := q / 0x100;
    assert q' == v / 0x1_0000 && q' / 0x100 == v / 0x100_0000;
    assert v == q * 0x100 + v % 0x100 && q == q' * 0x100 + q % 0x100 && q' == q' / 0x100 * 0x100 + q' % 0x100;
    BytesBack(b[0] as int, b[1] as int, b[2] as int, b[3] as int);
  }

  lemma BytesBack(a: nat, b: nat, c: nat, d: nat)
    requires a < 0x100 && b < 0x100 && c < 0x100 && d < 0x100
    ensures var v := a * 0x100_0000 + b * 0x1_0000 + c * 0x100 + d;
            v / 0x100_0000 == a && v / 0x1_0000 % 0x100 == b && v / 0x100 % 0x100 == c && v % 0x100 == d
  {
    var v := a * 0x100_0000 + b * 0x1_0000 + c * 0x100 + d;
    assert v / 0x1_0000 == a * 0x100 + b;
    assert v / 0x100 == (a * 0x100 + b) * 0x100 + c;
  }

  /** A message on the wire; the length wraps around at 32 bits. */
  function Frame(data: Bytes): Bytes {
    [0] + BigEndian(|data| % WORD) + data
  }

  function Frames(ps: seq<Bytes>): Bytes {
    if ps == [] then [] else Frame(ps[0]) + Frames(ps[1..])
  }

  method PutUint32(b: array<byte>, at: nat, v: nat)
    requires at + 4 <= b.Length && v < WORD
    modifies b
    ensures b[..] == old(b[..at]) + BigEndian(v) + old(b[at + 4..])
  {
    b[at] := (v / 0x100_0000) as byte;
    b[at + 1] := (v / 0x1_0000 % 0x100) as byte;
    b[at + 2] := (v / 0x100 % 0x100) as byte;
    b[at + 3] := (v % 0x100) as byte;
  }

  /** lpmMessage of a marshalled message. */
  method LpmMessage(data: Bytes) returns (frame: Bytes)
    ensures frame == Frame(data)
  {
    var header := new byte[5] [0, 0, 0, 0, 0];
    PutUint32(header, 1, |data| % WORD);
    frame := header[..] + data;
  }

  // ---- reading -------------------------------------------------------------------------

  datatype ReadError = Nil | EOF | UnexpectedEOF | Broken

  /** What recv reports: a message to unmarshal, a message left as it is, or why there is none. */
  datatype Received = Got(data: Bytes) | Unchanged | EndOfStream | HeaderFailed | BodyFailed | BadMessage

  /** A request body: what is still to come, and whether the connection breaks behind it instead of ending. */
  class Body {
    var unread: Bytes
    const breaks: bool

    constructor (unread: Bytes, breaks: bool)
      ensures this.unread == unread && this.breaks == breaks
    {
      this.unread, this.breaks := unread, breaks;
    }

    /** io.ReadFull. */
    method ReadFull(buf: array<byte>) returns (err: ReadError)
      modifies this, buf
      ensures err == ReadOutcome(old(unread), breaks, buf.Length)
      ensures err == Nil ==> buf[..] == old(unread)[..buf.Length] && unread == old(unread)[buf.Length..]
      ensures err != Nil ==> unread == []
    {
      var n := if |unread| < buf.Length then |unread| else buf.Length;
      forall i | 0 <= i < n {
        buf[i] := unread[i];
      }
      err := ReadOutcome(unread, breaks, buf.Length);
      unread := unread[n..];
    }
  }

  function ReadOutcome(unread: Bytes, breaks: bool, n: nat): ReadError {
    if |unread| >= n then Nil
    else if breaks then Broken
    else if unread == [] then EOF
    else UnexpectedEOF
  }

  /** One recv as a function of the bytes to come: its result and what it leaves. */
  function RecvOf(unread: Bytes, breaks: bool, parses: Bytes -> bool): (Received, Bytes) {
    if |unread| < 5 then ((if unread == [] && !breaks then EndOfStream else HeaderFailed), [])
    else
      var length := Uint32(unread[1..5]);
      if length < 1 then (Unchanged, unread[5..])
      else
        var n := if length < MAX_MESSAGE then length else MAX_MESSAGE;
        if |unread| - 5 < n then (BodyFailed, [])
        else
          var data := unread[5..5 + n];
          (if parses(data) then Got(data) else BadMessage, unread[5 + n..])
  }

  class GrpcWebStream {
    const body: Body
    const parses: Bytes -> bool

    constructor (body: Body, parses: Bytes -> bool)
      ensures this.body == body && this.parses == parses
    {
      this.body, this.parses := body, parses;
    }

    method Recv() returns (r: Received)
      modifies body
      ensures (r, body.unread) == RecvOf(old(body.unread), body.breaks, parses)
      ensures r == EndOfStream <==> old(body.unread) == [] && !body.breaks
      ensures r.Got? ==> parses(r.data)
    {
      ghost var unread := body.unread;
      var header := new byte[5];
      var err := body.ReadFull(header);
      if err == EOF {
        return EndOfStream;
      }
      if err != Nil {
        return HeaderFailed;
      }
      var length := Uint32(header[1..5]);
      assert header[1..5] == unread[1..5];
      if length < 1 {
        return Unchanged;
      }
      var data := new byte[if length < MAX_MESSAGE then length else MAX_MESSAGE];
      err := body.ReadFull(data);
      if err != Nil {
        return BodyFailed;
      }
      assert data[..] == unread[5..5 + data.Length] && body.unread == unread[5 + data.Length..];
      if !parses(data[..]) {
        return BadMessage;
      }
      return Got(data[..]);
    }
  }

  // ---- round trips ---------------------------------------------------------------------

  /** What a receiver should make of a payload: the empty one is not even unmarshalled. */
  function Expected(p: Bytes, parses: Bytes -> bool): Received {
    if p == [] then Unchanged else if parses(p) then Got(p) else BadMessage
  }

  predicate Usable(p: Bytes, parses: Bytes -> bool) {
    p == [] || parses(p)
  }

  predicate AllUsable(ps: seq<Bytes>, parses: Bytes -> bool) {
    forall i :: 0 <= i < |ps| ==> Usable(ps[i], parses)
  }

  lemma FrameParts(p: Bytes, rest: Bytes)
    ensures var s := Frame(p) + rest;
            && |s| == 5 + |p| + |rest| && s[1..5] == BigEndian(|p| % WORD) && s[5..] == p + rest
  {
    var s := Frame(p) + rest;
    assert Frame(p) == [0] + BigEndian(|p| % WORD) + p;
    assert s[1..5] == BigEndian(|p| % WORD);
    assert s[5..] == p + rest;
  }

  /** The first message comes out whole or is refused, with the rest left for later, if and only if it has at most four
      megabytes; a longer one that parses does not come out. */
  lemma FirstFrame(p: Bytes, rest: Bytes, breaks: bool, parses: Bytes -> bool)
    ensures RecvOf(Frame(p) + rest, breaks, parses) == (Expected(p, parses), rest) <==> |p| <= MAX_MESSAGE
    ensures Usable(p, parses) ==> (RecvOf(Frame(p) + rest, breaks, parses).0 == Expected(p, parses) <==> |p| <= MAX_MESSAGE)
  {
    hide Frame, BigEndian, Uint32;
    var s := Frame(p) + rest;
    FrameParts(p, rest);
    LengthRead(|p| % WORD);
    var length := |p| % WORD;
    if 0 < length {
      var n := if length < MAX_MESSAGE then length else MAX_MESSAGE;
      assert s[5..5 + n] == (p + rest)[..n] && s[5 + n..] == (p + rest)[n..];
      if n == |p| { assert (p + rest)[..n] == p && (p + rest)[n..] == rest; }
    } else {
      assert p == [] ==> p + rest == rest;
    }
  }

  /** A message of at most four megabytes that cannot be unmarshalled is refused, and the next one is read all the same. */
  lemma BadFrame(p: Bytes, rest: Bytes, breaks: bool, parses: Bytes -> bool)
    requires 1 <= |p| <= MAX_MESSAGE
    ensures RecvOf(Frame(p) + rest, breaks, parses) == (BadMessage, rest) <==> !parses(p)
  {
    hide RecvOf, Frame;
    FirstFrame(p, rest, breaks, parses);
  }

  /** Reading reports the end of the stream if and only if nothing is left of a body that does not break. */
  lemma EndIff(unread: Bytes, breaks: bool, parses: Bytes -> bool)
    ensures RecvOf(unread, breaks, parses).0 == EndOfStream <==> unread == [] && !breaks
  {
    hide Uint32;
  }

  lemma LengthRead(v: nat)
    requires v < WORD
    ensures Uint32(BigEndian(v)) == v
  {
    hide BigEndian, Uint32;
    BigEndianInverse(v, [0, 0, 0, 0]);
  }

  /** Repeated recv up to the first that gives no message. */
  function Drain(unread: Bytes, breaks: bool, parses: Bytes -> bool): seq<Received>
    decreases |unread|
  {
    var r := RecvOf(unread, breaks, parses);
    if (r.0.Got? || r.0.Unchanged?) && |r.1| < |unread| then [r.0] + Drain(r.1, breaks, parses) else [r.0]
  }

  /** The payloads in order up to the first that cannot be unmarshalled, else the end. */
  function AllExpected(ps: seq<Bytes>, parses: Bytes -> bool): seq<Received> {
    if ps == [] then [EndOfStream]
    else if !Usable(ps[0], parses) then [BadMessage]
    else [Expected(ps[0], parses)] + AllExpected(ps[1..], parses)
  }

  predicate AllFit(ps: seq<Bytes>) {
    forall i :: 0 <= i < |ps| ==> |ps[i]| <= MAX_MESSAGE
  }

  /** A stream of messages comes out payload by payload, up to the first that cannot be unmarshalled or to its end, when
      none exceeds four megabytes; and only then, when all can be unmarshalled. */
  lemma {:induction false} StreamRoundTrip(ps: seq<Bytes>, parses: Bytes -> bool)
    ensures AllFit(ps) ==> Drain(Frames(ps), false, parses) == AllExpected(ps, parses)
    ensures AllUsable(ps, parses) ==> (Drain(Frames(ps), false, parses) == AllExpected(ps, parses) <==> AllFit(ps))
    decreases |ps|
  {
    hide *;
    if ps == [] {
      NoStream(ps, parses);
    } else {
      var p, rest := ps[0], Frames(ps[1..]);
      var d := Drain(Frame(p) + rest, false, parses);
      FirstFrame(p, rest, false, parses);
      FramesParts(ps);
      StreamRoundTrip(ps[1..], parses);
      DrainStep(Frame(p) + rest, false, parses);
      FitStep(ps);
      UsableStep(ps, parses);
      ExpectedStep(ps, parses);
      if Usable(p, parses) {
        SameTail(d, Expected(p, parses), AllExpected(ps[1..], parses));
      }
    }
  }

  lemma NoStream(ps: seq<Bytes>, parses: Bytes -> bool)
    requires ps == []
    ensures Drain(Frames(ps), false, parses) == AllExpected(ps, parses) && AllFit(ps)
  {
  }

  lemma UsableStep(ps: seq<Bytes>, parses: Bytes -> bool)
    requires ps != []
    ensures AllUsable(ps, parses) <==> Usable(ps[0], parses) && AllUsable(ps[1..], parses)
  {
    hide Usable;
    if Usable(ps[0], parses) && AllUsable(ps[1..], parses) {
      assert forall i :: 0 < i < |ps| ==> ps[i] == ps[1..][i - 1];
    }
  }

  lemma ExpectedStep(ps: seq<Bytes>, parses: Bytes -> bool)
    requires ps != []
    ensures !Usable(ps[0], parses) ==> AllExpected(ps, parses) == [BadMessage] && Expected(ps[0], parses) == BadMessage
    ensures Usable(ps[0], parses) ==>
              && AllExpected(ps, parses) == [Expected(ps[0], parses)] + AllExpected(ps[1..], parses)
              && (Expected(ps[0], parses).Got? || Expected(ps[0], parses).Unchanged?)
  {
  }

  lemma FitStep(ps: seq<Bytes>)
    requires ps != []
    ensures AllFit(ps) <==> |ps[0]| <= MAX_MESSAGE && AllFit(ps[1..])
  {
    if AllFit(ps[1..]) && |ps[0]| <= MAX_MESSAGE {
      assert forall i :: 0 < i < |ps| ==> ps[i] == ps[1..][i - 1];
    }
  }

  lemma SameTail(d: seq<Received>, first: Received, tail: seq<Received>)
    requires d != []
    ensures d == [first] + tail <==> d[0] == first && d[1..] == tail
  {
    assert d == [d[0]] + d[1..];
    assert ([first] + tail)[1..] == tail;
  }

  lemma DrainStep(unread: Bytes, breaks: bool, parses: Bytes -> bool)
    ensures var r, d := RecvOf(unread, breaks, parses), Drain(unread, breaks, parses);
            && d != [] && d[0] == r.0
            && ((r.0.Got? || r.0.Unchanged?) && |r.1| < |unread| ==> d[1..] == Drain(r.1, breaks, parses))
            && (!r.0.Got? && !r.0.Unchanged? ==> d == [r.0])
  {
    hide RecvOf;
  }

  // ---- a stream cut or broken anywhere -----------------------------------------------------

  /** `n` bytes are whole messages that can all be unmarshalled. */
  predicate BetweenMessages(ps: seq<Bytes>, n: nat, parses: Bytes -> bool) {
    exists k :: 0 <= k <= |ps| && |Frames(ps[..k])| == n && AllUsable(ps[..k], parses)
  }

  /** What a body ends with after `n` bytes of a message that has more. */
  function Ending(n: nat, breaks: bool): Received {
    if n == 0 && !breaks then EndOfStream else if n < 5 then HeaderFailed else BodyFailed
  }

  /** The payloads whose messages lie within the first `n` bytes, up to one that cannot be unmarshalled; else how it ends. */
  function CutOff(ps: seq<Bytes>, n: nat, breaks: bool, parses: Bytes -> bool): seq<Received> {
    if ps == [] then [Ending(0, breaks)]
    else if n < |Frame(ps[0])| then [Ending(n, breaks)]
    else if !Usable(ps[0], parses) then [BadMessage]
    else [Expected(ps[0], parses)] + CutOff(ps[1..], n - |Frame(ps[0])|, breaks, parses)
  }

  lemma FramesParts(ps: seq<Bytes>)
    requires ps != []
    ensures Frames(ps) == Frame(ps[0]) + Frames(ps[1..]) && |Frame(ps[0])| == 5 + |ps[0]|
  {
    FrameParts(ps[0], []);
    hide Frame;
    assert Frame(ps[0]) + [] == Frame(ps[0]);
  }

  /** Of a message that is cut short nothing comes out. */
  lemma CutFrame(p: Bytes, n: nat, breaks: bool, parses: Bytes -> bool)
    requires n < 5 + |p| == |Frame(p)| && |p| <= MAX_MESSAGE
    ensures RecvOf(Frame(p)[..n], breaks, parses).0 == Ending(n, breaks)
  {
    FrameParts(p, []);
    LengthRead(|p| % WORD);
    hide Frame, BigEndian, Uint32;
    assert Frame(p) + [] == Frame(p);
    if n >= 5 {
      assert Frame(p)[..n][1..5] == Frame(p)[1..5];
    }
  }

  /** A stream of messages that ends or breaks after any number of bytes gives the payloads that came whole, up to the
      first that cannot be unmarshalled, and then its end if and only if it ended between two messages with all before
      them unmarshalled; ending or breaking inside one is an error. */
  lemma {:induction false} EndsBetweenMessages(ps: seq<Bytes>, n: nat, breaks: bool, parses: Bytes -> bool)
    requires n <= |Frames(ps)| && AllFit(ps)
    ensures var d := Drain(Frames(ps)[..n], breaks, parses);
            && d == CutOff(ps, n, breaks, parses) && d != []
            && (d[|d| - 1] == EndOfStream <==> !breaks && BetweenMessages(ps, n, parses))
    decreases |ps|
  {
    hide *;
    var s := Frames(ps)[..n];
    DrainStep(s, breaks, parses);
    if ps == [] {
      NothingSent(ps, n, breaks, parses);
      OnlyStart(ps, n, parses);
    } else {
      var p, rest := ps[0], Frames(ps[1..]);
      FramesParts(ps);
      FitStep(ps);
      Between(ps, n, parses);
      CutOffStep(ps, n, breaks, parses);
      if n < |Frame(p)| {
        assert s == Frame(p)[..n];
        CutFrame(p, n, breaks, parses);
        EndingEnds(n, breaks);
      } else {
        var k := n - |Frame(p)|;
        assert s == Frame(p) + rest[..k];
        FirstFrame(p, rest[..k], breaks, parses);
        ExpectedStep(ps, parses);
        if Usable(p, parses) {
          EndsBetweenMessages(ps[1..], k, breaks, parses);
          var d := Drain(s, breaks, parses);
          assert d == [d[0]] + d[1..];
        }
      }
    }
  }

  lemma EndingEnds(n: nat, breaks: bool)
    ensures Ending(n, breaks) == EndOfStream <==> n == 0 && !breaks
    ensures !Ending(n, breaks).Got? && !Ending(n, breaks).Unchanged?
  {
  }

  lemma CutOffStep(ps: seq<Bytes>, n: nat, breaks: bool, parses: Bytes -> bool)
    requires ps != []
    ensures CutOff(ps, n, breaks, parses) ==
              if n < |Frame(ps[0])| then [Ending(n, breaks)]
              else if !Usable(ps[0], parses) then [BadMessage]
              else [Expected(ps[0], parses)] + CutOff(ps[1..], n - |Frame(ps[0])|, breaks, parses)
  {
    hide Frame;
  }

  lemma NothingSent(ps: seq<Bytes>, n: nat, breaks: bool, parses: Bytes -> bool)
    requires ps == [] && n <= |Frames(ps)|
    ensures Drain(Frames(ps)[..n], breaks, parses) == CutOff(ps, n, breaks, parses) == [Ending(0, breaks)] && n == 0
    ensures Ending(0, breaks) == EndOfStream <==> !breaks
  {
  }

  lemma OnlyStart(ps: seq<Bytes>, n: nat, parses: Bytes -> bool)
    requires ps == []
    ensures BetweenMessages(ps, n, parses) <==> n == 0
  {
    assert ps[..0] == [];
    if n == 0 { assert |Frames(ps[..0])| == n && AllUsable(ps[..0], parses); }
  }

  /** The places between messages, message by message. */
  lemma Between(ps: seq<Bytes>, n: nat, parses: Bytes -> bool)
    requires ps != []
    ensures BetweenMessages(ps, n, parses) <==>
              n == 0 || (n >= |Frame(ps[0])| && Usable(ps[0], parses) && BetweenMessages(ps[1..], n - |Frame(ps[0])|, parses))
  {
    hide Frame, Frames, AllUsable, Usable;
    var f := |Frame(ps[0])|;
    NoFrames(ps[..0], parses);
    if BetweenMessages(ps, n, parses) {
      var k :| 0 <= k <= |ps| && |Frames(ps[..k])| == n && AllUsable(ps[..k], parses);
      if k > 0 {
        FramesParts(ps[..k]);
        UsableStep(ps[..k], parses);
        assert ps[..k][1..] == ps[1..][..k - 1] && ps[..k][0] == ps[0];
        assert |Frames(ps[1..][..k - 1])| == n - f;
      }
    }
    if n == 0 { assert |Frames(ps[..0])| == n; }
    if n >= f && Usable(ps[0], parses) && BetweenMessages(ps[1..], n - f, parses) {
      var k :| 0 <= k <= |ps| - 1 && |Frames(ps[1..][..k])| == n - f && AllUsable(ps[1..][..k], parses);
      FramesParts(ps[..k + 1]);
      UsableStep(ps[..k + 1], parses);
      assert ps[..k + 1][1..] == ps[1..][..k] && ps[..k + 1][0] == ps[0];
      assert |Frames(ps[..k + 1])| == n;
    }
  }

  lemma NoFrames(ps: seq<Bytes>, parses: Bytes -> bool)
    requires ps == []
    ensures Frames(ps) == [] && AllUsable(ps, parses)
  {
  }
}
