/** The response side of Forward: headers, messages and trailers in every interleaving. */
module ForwarderResponses {
  import opened Text
  import opened Forwarder
  import opened ForwarderSafety

  /** What the incoming stream has seen once the headers and these messages went out. */
  function Shown(ms: seq<int>): seq<InEvent> {
    [Header] + Deliveries(ms)
  }

  /** The result is in the channel or was taken from it. */
  predicate HandedOver(s: State, p: ForwardError) {
    s.o2iCh == Some(p) || (s.taken != [] && s.taken[|s.taken| - 1] == FromO2I(p))
  }

  // ---- streamed responses --------------------------------------------------------------

  /** How a streamed response ends: with trailers after every message, or with a failed Send. */
  predicate StreamDone(s: State, p: ForwardError) {
    || (s.outgoingEnd.Some? && !s.inFailed && s.inLog == Shown(s.responses) + [Trailer]
        && p == ForwardError(None, if s.outgoingEnd == Some(EOF) then None else s.outgoingEnd))
    || (s.outgoingEnd.None? && s.inFailed && s.inLog == Shown(s.responses) && s.responses != []
        && p.incomingErr.Some? && p.outgoingErr.None?)
  }

  ghost predicate StreamInv(s: State) {
    match s.o2i
    case ONone => s.responses == [] && s.inLog == [] && s.outgoingEnd.None? && !s.inFailed
    case ORecv(first) =>
      && s.outgoingEnd.None? && !s.inFailed
      && if first then s.responses == [] && s.inLog == [] else s.responses != [] && s.inLog == Shown(s.responses)
    case OHeader(r) =>
      && s.inLog == [] && !s.inFailed
      && (match r case Msg(m) => s.responses == [m] && s.outgoingEnd.None?
                  case RecvErr(e) => s.responses == [] && s.outgoingEnd == Some(e))
    case OSend(m) =>
      && s.outgoingEnd.None? && !s.inFailed && s.responses != [] && s.responses[|s.responses| - 1] == m
      && s.inLog == Shown(s.responses[..|s.responses| - 1])
    case OTrailer(e) => s.outgoingEnd == Some(e) && !s.inFailed && s.inLog == Shown(s.responses)
    case OReport(p) => StreamDone(s, p)
    case OExited => forall p :: HandedOver(s, p) ==> StreamDone(s, p)
    case _ => false
  }

  // ---- unary responses -----------------------------------------------------------------

  /** The response is complete: its status arrived, or a second message did. */
  predicate Complete(s: State, m: int, trailers: bool, e: Err) {
    if trailers then s.responses == [m] && s.outgoingEnd == Some(e)
    else |s.responses| == 2 && s.responses[0] == m && s.outgoingEnd.None? && e == EOF
  }

  predicate Got(s: State, got: Option<int>, trailers: bool, e: Err) {
    match got
    case None => trailers && s.responses == [] && s.outgoingEnd == Some(e)
    case Some(m) => Complete(s, m, trailers, e)
  }

  /** Headers, and trailers unless a second message took their place. */
  function Meta(s: State): seq<InEvent> {
    if |s.responses| == 2 then [Header] else [Header, Trailer]
  }

  /** How a unary response ends: an error without a message, or one message after headers and trailers. */
  predicate UnaryDone(s: State, p: ForwardError) {
    || (s.inLog == [Header, Trailer] && !s.inFailed && p.incomingErr.None? && |s.responses| <= 1 && s.outgoingEnd.Some?
        && p.outgoingErr == (if s.outgoingEnd != Some(EOF) then s.outgoingEnd else Some(UNAVAILABLE))
        && (s.outgoingEnd == Some(EOF) ==> s.responses == []))
    || (s.responses != [] && Complete(s, s.responses[0], |s.responses| == 1, EOF)
        && s.inLog == Meta(s) + [Deliver(s.responses[0])]
        && p.outgoingErr.None? && (p.incomingErr.Some? <==> s.inFailed))
  }

  ghost predicate UnaryInv(s: State) {
    match s.o2i
    case ONone => s.responses == [] && s.inLog == [] && s.outgoingEnd.None? && !s.inFailed
    case UFirst => s.responses == [] && s.inLog == [] && s.outgoingEnd.None? && !s.inFailed
    case USecond(m) => s.responses == [m] && s.inLog == [] && s.outgoingEnd.None? && !s.inFailed
    case UHeader(got, trailers, e) => s.inLog == [] && !s.inFailed && Got(s, got, trailers, e)
    case UTrailer(got, e) => s.inLog == [Header] && !s.inFailed && Got(s, got, true, e)
    case USend(m) => !s.inFailed && Complete(s, m, |s.responses| == 1, EOF) && s.inLog == Meta(s)
    case OReport(p) => UnaryDone(s, p)
    case OExited => forall p :: HandedOver(s, p) ==> UnaryDone(s, p)
    case _ => false
  }

  ghost predicate ResponseInv(s: State) {
    if s.serverStreaming then StreamInv(s) else UnaryInv(s)
  }

  // ---- preservation --------------------------------------------------------------------

  lemma ShownStep(ms: seq<int>, m: int)
    ensures Shown(ms + [m]) == Shown(ms) + [Deliver(m)]
    ensures Shown([]) == [Header]
  {
    DeliveriesStep(ms, m);
  }

  lemma StreamRecv(s: State, r: RecvResult)
    requires StreamInv(s) && s.o2i.ORecv?
    ensures StreamInv(AfterO2IRecv(s, r))
  {
    hide Shown, StreamDone;
    match r {
      case Msg(m) => LastOf(s.responses, m);
      case RecvErr(e) =>
    }
  }

  lemma LastOf(ms: seq<int>, m: int)
    ensures (ms + [m])[..|ms|] == ms && [] + [m] == [m]
  {
  }

  lemma StreamHeader(s: State)
    requires StreamInv(s) && s.o2i.OHeader?
    ensures StreamInv(AfterO2IHeader(s))
  {
    ShownStep([], 0);
    hide Shown;
    assert [] + [Header] == [Header];
    match s.o2i.r {
      case Msg(m) => assert s.responses[..0] == [];
      case RecvErr(e) =>
    }
  }

  lemma StreamTrailer(s: State)
    requires StreamInv(s) && s.o2i.OTrailer?
    ensures StreamInv(AfterO2ITrailer(s))
  {
    hide Shown;
  }

  lemma StreamSend(s: State, err: Option<Err>)
    requires StreamInv(s) && s.o2i.OSend?
    ensures StreamInv(AfterO2ISend(s, err))
  {
    var n := |s.responses| - 1;
    ShownStep(s.responses[..n], s.o2i.m);
    assert s.responses[..n] + [s.o2i.m] == s.responses;
    hide Shown;
  }

  lemma UnaryRecvStep(s: State, r: RecvResult)
    requires UnaryInv(s) && (s.o2i.UFirst? || s.o2i.USecond?)
    ensures UnaryInv(AfterO2IRecv(s, r))
  {
  }

  lemma UnaryHeaderStep(s: State)
    requires UnaryInv(s) && s.o2i.UHeader?
    ensures UnaryInv(AfterO2IHeader(s))
  {
  }

  lemma UnaryTrailerStep(s: State)
    requires UnaryInv(s) && s.o2i.UTrailer?
    ensures UnaryInv(AfterO2ITrailer(s))
  {
  }

  lemma UnarySendStep(s: State, err: Option<Err>)
    requires UnaryInv(s) && s.o2i.USend?
    ensures UnaryInv(AfterO2ISend(s, err))
  {
  }

  /** Nothing on the response side differs but what the channel and the select loop hold. */
  predicate SameResponses(s: State, t: State) {
    && t.serverStreaming == s.serverStreaming && t.responses == s.responses && t.outgoingEnd == s.outgoingEnd
    && t.inLog == s.inLog && t.inFailed == s.inFailed
  }

  lemma SameStays(s: State, t: State)
    requires ResponseInv(s) && SameResponses(s, t) && t.o2i == s.o2i
    requires forall p :: HandedOver(t, p) ==> HandedOver(s, p)
    ensures ResponseInv(t)
  {
    hide Shown;
    if s.serverStreaming {
      assert forall p :: StreamDone(s, p) == StreamDone(t, p);
    } else {
      assert forall p :: UnaryDone(s, p) == UnaryDone(t, p);
    }
  }

  lemma Reported(s: State, t: State, p: ForwardError)
    requires ResponseInv(s) && ChannelInv(s) && s.o2i == OReport(p)
    requires t == s.(o2iCh := Some(p), o2i := OExited)
    ensures ResponseInv(t)
  {
    hide Shown;
    assert forall q :: HandedOver(t, q) ==> q == p;
    if s.serverStreaming {
      assert StreamDone(t, p);
    } else {
      assert UnaryDone(t, p);
    }
  }

  lemma ResponseStep(s: State, step: Step)
    requires MainInv(s) && ChannelInv(s) && ResponseInv(s) && Enabled(s, step)
    ensures ResponseInv(Next(s, step))
  {
    if ByO2I(step) {
      ResponseByO2I(s, step);
    } else if step.Launch? {
      ResponseByLaunch(s);
    } else {
      OthersFrame(s, step);
      hide Next, ResponseInv, MainInv, ChannelInv;
      SameStays(s, Next(s, step));
    }
  }

  lemma ResponseByLaunch(s: State)
    requires MainInv(s) && ResponseInv(s) && s.main == Launching
    ensures ResponseInv(Next(s, Launch))
  {
    assert s.o2i == ONone;
    hide Shown, MainInv;
  }

  lemma OthersFrame(s: State, step: Step)
    requires ChannelInv(s) && Enabled(s, step) && !ByO2I(step) && !step.Launch?
    ensures SameResponses(s, Next(s, step)) && Next(s, step).o2i == s.o2i
    ensures forall p :: HandedOver(Next(s, step), p) ==> HandedOver(s, p)
  {
    hide ChannelInv, Next, Enabled, SameResponses, HandedOver;
    if ByI2O(step) { OthersByI2O(s, step); }
    else if BySelect(step) { OthersBySelect(s, step); }
    else if ByDefer(step) { OthersByDefer(s, step); }
    else { OthersByOpening(s, step); }
  }

  lemma OthersByI2O(s: State, step: Step)
    requires ByI2O(step) && Enabled(s, step)
    ensures SameResponses(s, Next(s, step)) && Next(s, step).o2i == s.o2i
    ensures forall p :: HandedOver(Next(s, step), p) ==> HandedOver(s, p)
  {
    I2OFrame(s, step);
    hide Next, Enabled;
  }

  lemma OthersBySelect(s: State, step: Step)
    requires ChannelInv(s) && BySelect(step) && Enabled(s, step)
    ensures SameResponses(s, Next(s, step)) && Next(s, step).o2i == s.o2i
    ensures forall p :: HandedOver(Next(s, step), p) ==> HandedOver(s, p)
  {
    match step {
      case SelectI2O =>
        assert OneError(s.i2oCh.value);
        OthersByI2OResult(s);
      case SelectO2I => OthersByO2IResult(s);
      case SelectDone(e) => OthersByDone(s, Failed(e));
    }
  }

  lemma OthersByI2OResult(s: State)
    requires s.main == Selecting && s.i2oCh.Some? && OneError(s.i2oCh.value)
    ensures var t := OnI2O(s, s.i2oCh.value);
            SameResponses(s, t) && t.o2i == s.o2i && forall p :: HandedOver(t, p) ==> HandedOver(s, p)
  {
    hide OnI2O;
    I2OResultFrame(s);
  }

  lemma OthersByO2IResult(s: State)
    requires s.main == Selecting && s.o2iCh.Some?
    ensures var t := OnO2I(s, s.o2iCh.value);
            SameResponses(s, t) && t.o2i == s.o2i && forall p :: HandedOver(t, p) ==> HandedOver(s, p)
  {
  }

  lemma OthersByDone(s: State, r: Outcome)
    ensures var t := s.(main := Closing(r));
            SameResponses(s, t) && t.o2i == s.o2i && forall p :: HandedOver(t, p) ==> HandedOver(s, p)
  {
  }

  lemma OthersByDefer(s: State, step: Step)
    requires ByDefer(step) && Enabled(s, step)
    ensures SameResponses(s, Next(s, step)) && Next(s, step).o2i == s.o2i
    ensures forall p :: HandedOver(Next(s, step), p) ==> HandedOver(s, p)
  {
  }

  lemma OthersByOpening(s: State, step: Step)
    requires (step.ContextDone? || ByOpening(step)) && !step.Launch? && Enabled(s, step)
    ensures SameResponses(s, Next(s, step)) && Next(s, step).o2i == s.o2i
    ensures forall p :: HandedOver(Next(s, step), p) ==> HandedOver(s, p)
  {
    OpeningFrame(s, step);
    hide Next, Enabled;
  }

  /** Opening the stream touches nothing on the response side. */
  predicate OwnOpening(s: State, t: State) {
    t == s.(main := t.main, requests := t.requests, incomingEnd := t.incomingEnd, outLog := t.outLog,
            streamOpen := t.streamOpen, streamClosed := t.streamClosed, i2o := t.i2o, cancelled := t.cancelled)
  }

  lemma OpeningFrame(s: State, step: Step)
    requires (step.ContextDone? || ByOpening(step)) && !step.Launch? && Enabled(s, step)
    ensures OwnOpening(s, Next(s, step))
  {
    match step {
      case UnaryRecv(r) => UnaryRecvFrame(s, r);
      case OpenStream(err) => OpenFrame(s, err);
      case UnarySend(err) => UnarySendFrame(s, err);
      case _ => OpeningFrameRest(s, step);
    }
  }

  lemma UnaryRecvFrame(s: State, r: RecvResult)
    ensures OwnOpening(s, AfterUnaryRecv(s, r))
  {
  }

  lemma OpenFrame(s: State, err: Option<Err>)
    ensures OwnOpening(s, AfterOpen(s, err))
  {
  }

  lemma UnarySendFrame(s: State, err: Option<Err>)
    requires s.main.NeedSend?
    ensures OwnOpening(s, AfterUnarySend(s, err))
  {
    var t := s.(outLog := s.outLog + [Send(s.main.m)]);
    assert OwnOpening(s, t.(main := NeedCloseSend));
    if err.Some? { assert OwnOpening(s, t.(main := NeedClose(err.value))); }
  }

  lemma OpeningFrameRest(s: State, step: Step)
    requires (step.ContextDone? || step.UnaryClose? || step.UnaryCloseSend?) && Enabled(s, step)
    ensures OwnOpening(s, Next(s, step))
  {
  }

  lemma ResponseByO2I(s: State, step: Step)
    requires ChannelInv(s) && ResponseInv(s) && ByO2I(step) && Enabled(s, step)
    ensures ResponseInv(Next(s, step))
  {
    hide ResponseInv, ChannelInv, AfterO2IRecv, AfterO2IHeader, AfterO2ITrailer, AfterO2ISend;
    match step {
      case O2IRecv(r) => ResponseByRecv(s, r);
      case O2IHeader => ResponseByHeader(s);
      case O2ITrailer => ResponseByTrailer(s);
      case O2ISend(err) => ResponseBySend(s, err);
      case O2IReport => Reported(s, Next(s, step), s.o2i.perr);
    }
  }

  lemma ResponseByRecv(s: State, r: RecvResult)
    requires ResponseInv(s) && (s.o2i.ORecv? || s.o2i.UFirst? || s.o2i.USecond?)
    ensures ResponseInv(AfterO2IRecv(s, r))
  {
    O2IRecvFrame(s, r);
    hide Shown, StreamDone, UnaryDone, AfterO2IRecv, Received;
    if s.serverStreaming { StreamRecv(s, r); } else { UnaryRecvStep(s, r); }
  }

  lemma ResponseByHeader(s: State)
    requires ResponseInv(s) && (s.o2i.OHeader? || s.o2i.UHeader?)
    ensures ResponseInv(AfterO2IHeader(s))
  {
    O2IHeaderFrame(s);
    hide Shown, StreamDone, UnaryDone, AfterO2IHeader;
    if s.serverStreaming { StreamHeader(s); } else { UnaryHeaderStep(s); }
  }

  lemma ResponseByTrailer(s: State)
    requires ResponseInv(s) && (s.o2i.OTrailer? || s.o2i.UTrailer?)
    ensures ResponseInv(AfterO2ITrailer(s))
  {
    O2ITrailerFrame(s);
    hide Shown, StreamDone, UnaryDone, AfterO2ITrailer;
    if s.serverStreaming { StreamTrailer(s); } else { UnaryTrailerStep(s); }
  }

  lemma ResponseBySend(s: State, err: Option<Err>)
    requires ResponseInv(s) && (s.o2i.OSend? || s.o2i.USend?)
    ensures ResponseInv(AfterO2ISend(s, err))
  {
    O2ISendFrame(s, err);
    hide Shown, StreamDone, UnaryDone, AfterO2ISend;
    if s.serverStreaming { StreamSend(s, err); } else { UnarySendStep(s, err); }
  }

  // ---- every run -----------------------------------------------------------------------

  ghost predicate Inv(s: State) {
    MainInv(s) && ChannelInv(s) && RequestInv(s) && ResponseInv(s)
  }

  lemma InvInit(clientStreaming: bool, serverStreaming: bool)
    ensures Inv(Init(clientStreaming, serverStreaming))
  {
  }

  lemma InvStep(s: State, step: Step)
    requires Inv(s) && Enabled(s, step)
    ensures Inv(Next(s, step))
  {
    hide MainInv, ChannelInv, RequestInv, ResponseInv, Next, Enabled;
    MainStep(s, step);
    ChannelStep(s, step);
    RequestStep(s, step);
    ResponseStep(s, step);
  }

  lemma {:induction false} InvRun(s: State, steps: seq<Step>)
    requires Inv(s) && Run(s, steps).Some?
    ensures Inv(Run(s, steps).value)
    decreases |steps|
  {
    if steps != [] {
      InvStep(s, steps[0]);
      hide Inv, Next, Enabled;
      InvRun(Next(s, steps[0]), steps[1..]);
    }
  }

  /** The state `s` is reached by some interleaving of a call of Forward. */
  ghost predicate Reachable(s: State) {
    exists steps :: Run(Init(s.clientStreaming, s.serverStreaming), steps) == Some(s)
  }

  lemma ReachableInv(s: State)
    requires Reachable(s)
    ensures Inv(s)
  {
    hide Inv;
    var steps :| Run(Init(s.clientStreaming, s.serverStreaming), steps) == Some(s);
    InvInit(s.clientStreaming, s.serverStreaming);
    InvRun(Init(s.clientStreaming, s.serverStreaming), steps);
  }

  /** Requests go out in order with at most one in flight, and nothing is sent after a CloseSend; a CloseSend
      after the client's EOF comes only when every request has been sent. */
  lemma RequestsInOrder(s: State)
    requires Reachable(s)
    ensures Sends(s.outLog) <= s.requests && |s.requests| - |Sends(s.outLog)| <= 1
    ensures NoSendAfterCloseSend(s.outLog)
    ensures CloseSend in s.outLog && IsEOF(s.incomingEnd) ==> Sends(s.outLog) == s.requests
  {
    ReachableInv(s);
    var flight := InFlight(s);
    assert s.requests == Sends(s.outLog) + flight;
    assert CloseSend in s.outLog ==> flight == [];
    assert Sends(s.outLog) + [] == Sends(s.outLog);
    hide *;
  }

  lemma {:induction false} DeliveredShown(ms: seq<int>)
    ensures Delivered(Shown(ms)) == ms
    decreases |ms|
  {
    if ms == [] {
      DeliveredStep([], Header);
      assert [] + [Header] == [Header] == Shown([]);
      assert Delivered([]) == [];
    } else {
      var n := |ms| - 1;
      DeliveredShown(ms[..n]);
      ShownStep(ms[..n], ms[n]);
      assert ms[..n] + [ms[n]] == ms;
      DeliveredStep(Shown(ms[..n]), Deliver(ms[n]));
    }
  }

  /** The log of a streamed call: headers, then messages, then at most one set of trailers. */
  ghost predicate StreamShape(log: seq<InEvent>, ms: seq<int>) {
    log == [] || log == Shown(ms) || log == Shown(ms) + [Trailer]
  }

  /** Streamed responses go out in order behind one set of headers, with at most one in flight; trailers come last. */
  lemma ResponsesInOrder(s: State)
    requires Reachable(s) && s.serverStreaming
    ensures exists k :: |s.responses| - 1 <= k <= |s.responses| && 0 <= k && StreamShape(s.inLog, s.responses[..k])
    ensures s.inLog == [] ==> |s.responses| <= 1
    ensures Trailer in s.inLog ==> s.outgoingEnd.Some? && s.inLog == Shown(s.responses) + [Trailer]
  {
    ReachableInv(s);
    var n := |s.responses|;
    assert s.responses[..n] == s.responses;
    NoTrailerShown(s.responses);
    if n > 0 { NoTrailerShown(s.responses[..n - 1]); }
    if s.o2i == OExited { LastResult(s); }
    hide Shown, MainInv, ChannelInv, RequestInv;
    if s.o2i.OSend? {
      assert StreamShape(s.inLog, s.responses[..n - 1]);
    } else {
      assert StreamShape(s.inLog, s.responses[..n]);
    }
  }

  lemma {:induction false} NoTrailerShown(ms: seq<int>)
    ensures Trailer !in Shown(ms)
    decreases |ms|
  {
    if ms != [] {
      NoTrailerShown(ms[..|ms| - 1]);
      ShownStep(ms[..|ms| - 1], ms[|ms| - 1]);
      assert ms[..|ms| - 1] + [ms[|ms| - 1]] == ms;
    }
  }

  /** An exited response goroutine has left its result in the channel or with the select loop. */
  lemma LastResult(s: State)
    requires ChannelInv(s) && s.o2i == OExited
    ensures exists p :: HandedOver(s, p)
  {
    if s.o2iCh.Some? {
      assert HandedOver(s, s.o2iCh.value);
    } else {
      assert HandedOver(s, s.taken[|s.taken| - 1].perr);
    }
  }

  /** The log of a unary call: headers, then trailers unless a second message arrived, then at most one message. */
  predicate UnaryShape(s: State) {
    || s.inLog == []
    || s.inLog == [Header]
    || s.inLog == [Header, Trailer]
    || (s.responses != [] && s.inLog == Meta(s) + [Deliver(s.responses[0])])
  }

  /** A unary response is sent at most once, only after its status or a second message arrived; the headers come
      first, and trailers are skipped exactly when a second message arrived. */
  lemma UnaryResponse(s: State)
    requires Reachable(s) && !s.serverStreaming
    ensures UnaryShape(s)
    ensures forall m :: Deliver(m) in s.inLog ==>
              |s.responses| == 2 || (s.responses == [m] && s.outgoingEnd == Some(EOF))
    ensures s.o2i.OReport? || s.o2i.OExited? ==> (Trailer in s.inLog <==> |s.responses| <= 1)
  {
    ReachableInv(s);
    if s.o2i == OExited { LastResult(s); }
    hide MainInv, ChannelInv, RequestInv;
  }

  /** A nil result of a call with streamed responses means that every message up to the server's EOF was sent on,
      followed by the trailers; of any other call, that exactly the first message was. */
  lemma NilMeansDelivered(s: State)
    requires Reachable(s) && s.main == Returned(Success)
    ensures !s.inFailed
    ensures s.serverStreaming ==> s.outgoingEnd == Some(EOF) && s.inLog == Shown(s.responses) + [Trailer]
    ensures !s.serverStreaming ==> s.responses != [] && s.inLog == Meta(s) + [Deliver(s.responses[0])]
  {
    ReachableInv(s);
    assert s.o2i == OExited && HandedOver(s, ForwardError(None, None));
    hide MainInv, ChannelInv, RequestInv, Shown;
    if s.serverStreaming {
      assert StreamDone(s, ForwardError(None, None));
    } else {
      assert UnaryDone(s, ForwardError(None, None));
    }
  }

  /** Both channels have room whenever a goroutine wants to hand over its result, the request side always reports
      exactly one error, and the select loop takes each result at most once. */
  lemma ResultsHandedOverOnce(s: State)
    requires Reachable(s)
    ensures s.i2o.IReport? ==> Enabled(s, I2OReport) && OneError(s.i2o.perr)
    ensures s.o2i.OReport? ==> Enabled(s, O2IReport)
    ensures |s.taken| <= 2 && forall i, j :: 0 <= i < j < |s.taken| ==> s.taken[i].FromI2O? && s.taken[j].FromO2I?
  {
    ReachableInv(s);
  }

  /** Waiting for the goroutines starts only after Close and cancel; when Forward returns none is running and any
      opened stream is closed. */
  lemma CleanReturn(s: State)
    requires Reachable(s) && (s.main.Waiting? || s.main.Returned?)
    ensures s.cancelled && (s.streamOpen ==> s.streamClosed && Close in s.outLog)
    ensures s.main.Returned? ==> !Running(s)
  {
    ReachableInv(s);
  }

  // ---- Forward returns -----------------------------------------------------------------

  /** Stream operations fail once the context is done, as Forward demands of its streams. */
  predicate Honours(s: State, step: Step) {
    s.cancelled ==>
      match step
      case UnaryRecv(r) => r.RecvErr?
      case OpenStream(err) => err.Some?
      case UnarySend(err) => err.Some?
      case I2ORecv(r) => r.RecvErr?
      case I2OSend(err) => err.Some?
      case O2IRecv(r) => r.RecvErr?
      case O2ISend(err) => err.Some?
      case _ => true
  }

  function MainRank(m: Main): nat {
    match m
    case Start => 40 case NeedStream(_) => 39 case NeedSend(_) => 38 case NeedClose(_) => 37 case NeedCloseSend => 37
    case Launching => 36 case Selecting => 4 case Closing(_) => 3 case Cancelling(_) => 2 case Waiting(_) => 1
    case Returned(_) => 0
  }

  function I2ORank(p: I2O): nat {
    match p case INone => 0 case IRecv => 5 case ISend(_) => 6 case IReport(_) => 2 case IExited => 0
  }

  function O2IRank(p: O2I): nat {
    match p
    case ONone => 0 case ORecv(_) => 9 case OHeader(_) => 8 case OTrailer(_) => 7 case OSend(_) => 7
    case UFirst => 9 case USecond(_) => 9 case UHeader(_, _, _) => 8 case UTrailer(_, _) => 7 case USend(_) => 6
    case OReport(_) => 2 case OExited => 0
  }

  function Rank(s: State): nat {
    MainRank(s.main) + I2ORank(s.i2o) + O2IRank(s.o2i) + if s.i2oCh.Some? then 1 else 0
  }

  lemma RankDrops(s: State, step: Step)
    requires Inv(s) && Enabled(s, step) && s.cancelled && Honours(s, step)
    ensures Rank(Next(s, step)) < Rank(s) && Next(s, step).cancelled
  {
    assert s.i2oCh.Some? ==> OneError(s.i2oCh.value);
    assert s.main == Launching ==> s.o2i == ONone;
    assert s.i2o.IReport? ==> s.i2oCh.None?;
    hide Inv;
    if ByO2I(step) { O2IFrame(s, step); RankByO2I(s, step); }
    else if ByI2O(step) { I2OFrame(s, step); RankByI2O(s, step); }
    else if BySelect(step) { RankBySelect(s, step); }
    else { RankByMain(s, step); }
  }

  lemma RankByO2I(s: State, step: Step)
    requires ByO2I(step) && Enabled(s, step) && s.cancelled && Honours(s, step)
    ensures Rank(Next(s, step)) < Rank(s) && Next(s, step).cancelled
  {
    hide Next, Enabled, O2IRank, Honours;
    O2IFrame(s, step);
    O2IRankDrops(s, step);
  }

  lemma O2IRankDrops(s: State, step: Step)
    requires ByO2I(step) && Enabled(s, step) && s.cancelled && Honours(s, step)
    ensures O2IRank(Next(s, step).o2i) < O2IRank(s.o2i)
  {
    match step {
      case O2IRecv(r) => RecvRankDrops(s, r);
      case O2IHeader => HeaderRankDrops(s);
      case O2ITrailer => assert O2IRank(AfterO2ITrailer(s).o2i) < O2IRank(s.o2i);
      case O2ISend(err) => assert O2IRank(AfterO2ISend(s, err).o2i) < O2IRank(s.o2i);
      case O2IReport =>
    }
  }

  lemma RecvRankDrops(s: State, r: RecvResult)
    requires r.RecvErr? && (s.o2i.ORecv? || s.o2i.UFirst? || s.o2i.USecond?)
    ensures O2IRank(AfterO2IRecv(s, r).o2i) < O2IRank(s.o2i)
  {
  }

  lemma HeaderRankDrops(s: State)
    requires s.o2i.OHeader? || s.o2i.UHeader?
    ensures O2IRank(AfterO2IHeader(s).o2i) < O2IRank(s.o2i)
  {
  }

  lemma RankByI2O(s: State, step: Step)
    requires ByI2O(step) && Enabled(s, step) && s.cancelled && Honours(s, step)
    ensures Rank(Next(s, step)) < Rank(s) && Next(s, step).cancelled
  {
  }

  lemma RankBySelect(s: State, step: Step)
    requires BySelect(step) && Enabled(s, step) && s.cancelled && (s.i2oCh.Some? ==> OneError(s.i2oCh.value))
    ensures Rank(Next(s, step)) < Rank(s) && Next(s, step).cancelled
  {
    if step.SelectI2O? { I2OResultFrame(s); }
  }

  lemma RankByMain(s: State, step: Step)
    requires (ByDefer(step) || ByOpening(step)) && Enabled(s, step) && s.cancelled && Honours(s, step)
    requires s.main == Launching ==> s.o2i == ONone
    ensures Rank(Next(s, step)) < Rank(s) && Next(s, step).cancelled
  {
    match step {
      case UnaryRecv(r) => assert AfterUnaryRecv(s, r).main.Cancelling?;
      case OpenStream(err) => assert AfterOpen(s, err).main.Cancelling?;
      case UnarySend(err) => UnarySendRank(s, err);
      case Launch => assert MainRank(s.main) == 36;
      case _ =>
    }
  }

  lemma UnarySendRank(s: State, err: Option<Err>)
    requires s.main.NeedSend?
    ensures Rank(AfterUnarySend(s, err)) < Rank(s) && AfterUnarySend(s, err).cancelled == s.cancelled
  {
  }

  predicate AllHonour(s: State, steps: seq<Step>)
    decreases |steps|
  {
    steps == [] || (Enabled(s, steps[0]) && Honours(s, steps[0]) && AllHonour(Next(s, steps[0]), steps[1..]))
  }

  /** Once the context is done, at most `Rank(s)` more steps follow. */
  lemma {:induction false} FewStepsLeft(s: State, steps: seq<Step>)
    requires Inv(s) && s.cancelled && AllHonour(s, steps)
    ensures |steps| <= Rank(s)
    decreases |steps|
  {
    if steps != [] {
      RankDrops(s, steps[0]);
      InvStep(s, steps[0]);
      hide Inv, Next, Rank;
      FewStepsLeft(Next(s, steps[0]), steps[1..]);
    }
  }

  /** No interleaving gets stuck before Forward has returned: some goroutine can move whatever the streams answer. */
  lemma NeverStuck(s: State)
    requires Reachable(s) && !s.main.Returned?
    ensures exists step: Step :: !step.ContextDone? && Enabled(s, step) && Honours(s, step)
  {
    ReachableInv(s);
    var step := NextStep(s);
    assert Enabled(s, step) && Honours(s, step);
  }

  /** A step that is possible. */
  lemma NextStep(s: State) returns (step: Step)
    requires Inv(s) && !s.main.Returned?
    ensures !step.ContextDone? && Enabled(s, step) && Honours(s, step)
  {
    match s.main {
      case Start => step := if s.clientStreaming then OpenStream(Some(EOF)) else UnaryRecv(RecvErr(EOF));
      case NeedStream(_) => step := OpenStream(Some(EOF));
      case NeedSend(_) => step := UnarySend(Some(EOF));
      case NeedClose(_) => step := UnaryClose;
      case NeedCloseSend => step := UnaryCloseSend;
      case Launching => step := Launch;
      case Closing(_) => step := DeferredClose;
      case Cancelling(_) => step := DeferredCancel;
      case _ =>
        if s.i2o !in {INone, IExited} {
          step := if s.i2o == IRecv then I2ORecv(RecvErr(EOF)) else if s.i2o.ISend? then I2OSend(Some(EOF)) else I2OReport;
        } else if s.o2i !in {ONone, OExited} {
          step := StepO2I(s);
        } else if s.main.Waiting? {
          step := WaitDone;
        } else {
          step := SelectO2I;
        }
    }
  }

  lemma StepO2I(s: State) returns (step: Step)
    requires ChannelInv(s) && s.o2i !in {ONone, OExited}
    ensures ByO2I(step) && Enabled(s, step) && Honours(s, step)
  {
    match s.o2i {
      case ORecv(_) => step := O2IRecv(RecvErr(EOF));
      case UFirst => step := O2IRecv(RecvErr(EOF));
      case USecond(_) => step := O2IRecv(RecvErr(EOF));
      case OHeader(_) => step := O2IHeader;
      case UHeader(_, _, _) => step := O2IHeader;
      case OTrailer(_) => step := O2ITrailer;
      case UTrailer(_, _) => step := O2ITrailer;
      case OSend(_) => step := O2ISend(Some(EOF));
      case USend(_) => step := O2ISend(Some(EOF));
      case _ => step := O2IReport;
    }
  }
}
