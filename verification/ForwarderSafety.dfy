/** What holds in every interleaving of Forward. */
module ForwarderSafety {
  import opened Text
  import opened Forwarder

  /** The messages of the Send calls, in order. */
  function Sends(log: seq<OutEvent>): seq<int>
    decreases |log|
  {
    if log == [] then []
    else Sends(log[..|log| - 1]) + match log[|log| - 1] case Send(m) => [m] case _ => []
  }

  /** The messages of the Deliver events, in order. */
  function Delivered(log: seq<InEvent>): seq<int>
    decreases |log|
  {
    if log == [] then []
    else Delivered(log[..|log| - 1]) + match log[|log| - 1] case Deliver(m) => [m] case _ => []
  }

  function Deliveries(ms: seq<int>): seq<InEvent>
    decreases |ms|
  {
    if ms == [] then [] else Deliveries(ms[..|ms| - 1]) + [Deliver(ms[|ms| - 1])]
  }

  lemma SendsStep(log: seq<OutEvent>, e: OutEvent)
    ensures Sends(log + [e]) == Sends(log) + if e.Send? then [e.m] else []
  {
    assert (log + [e])[..|log|] == log;
  }

  lemma DeliveredStep(log: seq<InEvent>, e: InEvent)
    ensures Delivered(log + [e]) == Delivered(log) + if e.Deliver? then [e.m] else []
  {
    assert (log + [e])[..|log|] == log;
  }

  lemma DeliveriesStep(ms: seq<int>, m: int)
    ensures Deliveries(ms + [m]) == Deliveries(ms) + [Deliver(m)]
  {
    assert (ms + [m])[..|ms|] == ms;
  }

  // ---- the invariant -------------------------------------------------------------------

  predicate Before(s: State) {
    s.main.Start? || s.main.NeedStream? || s.main.NeedSend? || s.main.NeedClose? || s.main.NeedCloseSend? || s.main.Launching?
  }

  predicate After(s: State) {
    s.main.Closing? || s.main.Cancelling? || s.main.Waiting? || s.main.Returned?
  }

  function ResultOf(m: Main): Outcome
    requires m.Closing? || m.Cancelling? || m.Waiting? || m.Returned?
  {
    m.r
  }

  /** The calling goroutine: what it has opened, closed and cancelled where it stands. */
  predicate MainInv(s: State) {
    && (Before(s) ==> s.o2i == ONone && s.taken == [])
    && (s.main.Start? ==> !s.streamOpen && s.requests == [] && s.incomingEnd.None?)
    && (s.main.NeedStream? || s.main.NeedSend? || s.main.NeedClose? || s.main.NeedCloseSend? ==> !s.clientStreaming)
    && (s.main.NeedStream? ==> !s.streamOpen && s.requests == [s.main.m])
    && (s.main.NeedSend? || s.main.NeedClose? || s.main.NeedCloseSend? ==> s.streamOpen)
    && (s.main.NeedSend? ==> s.outLog == [] && s.requests == [s.main.m])
    && (s.main.NeedClose? || s.main.NeedCloseSend? ==> CloseSend !in s.outLog)
    && (s.main.Launching? || s.main.Selecting? || s.main.Closing? ==> s.streamOpen)
    && (s.main.Selecting? || s.main.Closing? ==> s.o2i != ONone)
    && (!s.streamOpen ==> s.outLog == [] && s.i2o == INone && s.o2i == ONone && |s.requests| <= 1 && s.taken == [])
    && (s.streamOpen && s.clientStreaming <==> s.i2o != INone)
    && (s.streamClosed <==> Close in s.outLog)
    && (s.streamClosed ==> s.main.Cancelling? || s.main.Waiting? || s.main.Returned?)
    && (s.main.Cancelling? || s.main.Waiting? || s.main.Returned? ==> s.streamOpen ==> s.streamClosed)
    && (s.main.Waiting? || s.main.Returned? ==> s.cancelled)
    && (s.main.Returned? ==> !Running(s))
    && (!s.clientStreaming && (s.main.Launching? || s.main.Selecting? || s.main.Closing?) ==> CloseSend in s.outLog)
  }

  predicate OneError(perr: ForwardError) {
    perr.incomingErr.Some? != perr.outgoingErr.Some?
  }

  /** The channels: each forwarding goroutine hands over one result, which the select loop takes at most once. */
  predicate ChannelInv(s: State) {
    && (s.i2o != IExited ==> s.i2oCh.None? && (s.taken == [] || s.taken[0].FromO2I?))
    && (s.i2o == IExited ==> if s.i2oCh.Some? then s.taken == [] || s.taken[0].FromO2I?
                             else s.taken != [] && s.taken[0].FromI2O?)
    && (s.o2i != OExited ==> s.o2iCh.None? && (s.taken == [] || s.taken[|s.taken| - 1].FromI2O?))
    && (s.o2i == OExited ==> if s.o2iCh.Some? then s.taken == [] || s.taken[|s.taken| - 1].FromI2O?
                             else s.taken != [] && s.taken[|s.taken| - 1].FromO2I?)
    && |s.taken| <= 2
    && (|s.taken| == 2 ==> s.taken[0].FromI2O? && s.taken[1].FromO2I?)
    && (s.taken != [] && s.taken[|s.taken| - 1].FromO2I? ==> After(s))
    && (s.i2o.IReport? ==> OneError(s.i2o.perr))
    && (s.i2oCh.Some? ==> OneError(s.i2oCh.value))
    && (s.taken != [] && s.taken[0].FromI2O? ==> OneError(s.taken[0].perr))
    && (After(s) && ResultOf(s.main) == Success ==>
          s.taken != [] && s.taken[|s.taken| - 1] == FromO2I(ForwardError(None, None)))
  }

  /** Requests not yet handed to the outgoing stream. */
  function InFlight(s: State): seq<int> {
    if !s.streamOpen then s.requests
    else if s.i2o.ISend? then [s.i2o.m]
    else if s.main.NeedSend? then [s.main.m]
    else []
  }

  predicate NoSendAfterCloseSend(log: seq<OutEvent>) {
    forall i, j :: 0 <= i < j < |log| && log[i] == CloseSend ==> !log[j].Send?
  }

  predicate RequestInv(s: State) {
    && Sends(s.outLog) + InFlight(s) == s.requests
    && |InFlight(s)| <= 1
    && NoSendAfterCloseSend(s.outLog)
    && (CloseSend in s.outLog ==> !s.i2o.IRecv? && !s.i2o.ISend? && !s.main.NeedSend?)
    && (s.i2o.IRecv? || s.i2o.ISend? ==> s.incomingEnd.None?)
  }

  // ---- who changes what ----------------------------------------------------------------

  predicate ByI2O(step: Step) { step.I2ORecv? || step.I2OSend? || step.I2OReport? }

  predicate ByO2I(step: Step) { step.O2IRecv? || step.O2IHeader? || step.O2ITrailer? || step.O2ISend? || step.O2IReport? }

  predicate BySelect(step: Step) { step.SelectDone? || step.SelectI2O? || step.SelectO2I? }

  predicate ByDefer(step: Step) { step.DeferredClose? || step.DeferredCancel? || step.WaitDone? }

  predicate ByOpening(step: Step) {
    step.UnaryRecv? || step.OpenStream? || step.UnarySend? || step.UnaryClose? || step.UnaryCloseSend? || step.Launch?
  }

  /** A step of forwardIncomingToOutgoing touches only its own side. */
  predicate OwnI2O(s: State, t: State) {
    && t == s.(i2o := t.i2o, i2oCh := t.i2oCh, requests := t.requests, incomingEnd := t.incomingEnd, outLog := t.outLog)
    && t.i2o != INone && s.i2o != INone && s.i2o != IExited
    && (t.i2o == IExited <==> s.i2o.IReport?)
    && (t.i2o == IExited ==> t.i2oCh == Some(s.i2o.perr))
    && (t.i2o != IExited ==> t.i2oCh == s.i2oCh)
    && (t.i2o.IReport? ==> OneError(t.i2o.perr))
    && (t.outLog == s.outLog || (s.i2o.ISend? && t.outLog == s.outLog + [Send(s.i2o.m)]))
  }

  lemma I2OFrame(s: State, step: Step)
    requires ByI2O(step) && Enabled(s, step)
    ensures OwnI2O(s, Next(s, step))
  {
    match step {
      case I2ORecv(r) => I2ORecvFrame(s, r);
      case I2OSend(err) => I2OSendFrame(s, err);
      case I2OReport => assert Next(s, step) == s.(i2oCh := Some(s.i2o.perr), i2o := IExited);
    }
  }

  lemma I2ORecvFrame(s: State, r: RecvResult)
    requires s.i2o == IRecv
    ensures OwnI2O(s, AfterI2ORecv(s, r))
  {
    match r {
      case Msg(m) => I2OMessageFrame(s, m);
      case RecvErr(e) => I2OEndFrame(s, e);
    }
  }

  lemma I2OMessageFrame(s: State, m: int)
    requires s.i2o == IRecv
    ensures OwnI2O(s, s.(requests := s.requests + [m], i2o := ISend(m)))
  {
  }

  lemma I2OEndFrame(s: State, e: Err)
    requires s.i2o == IRecv
    ensures OwnI2O(s, s.(incomingEnd := Some(e), i2o := IReport(ForwardError(Some(e), None))))
  {
  }

  lemma I2OSendFrame(s: State, err: Option<Err>)
    requires s.i2o.ISend?
    ensures OwnI2O(s, AfterI2OSend(s, err))
  {
  }

  /** A step of forwardOutgoingToIncoming touches only its own side. */
  predicate OwnO2I(s: State, t: State) {
    && t == s.(o2i := t.o2i, o2iCh := t.o2iCh, responses := t.responses, outgoingEnd := t.outgoingEnd,
               inLog := t.inLog, inFailed := t.inFailed)
    && t.o2i != ONone && s.o2i != ONone && s.o2i != OExited
    && (t.o2i == OExited ==> t.o2iCh.Some?)
    && (t.o2i != OExited ==> t.o2iCh == s.o2iCh)
  }

  lemma O2IFrame(s: State, step: Step)
    requires ByO2I(step) && Enabled(s, step)
    ensures OwnO2I(s, Next(s, step))
  {
    match step {
      case O2IRecv(r) => O2IRecvFrame(s, r);
      case O2IHeader => O2IHeaderFrame(s);
      case O2ITrailer => O2ITrailerFrame(s);
      case O2ISend(err) => O2ISendFrame(s, err);
      case O2IReport => assert Next(s, step) == s.(o2iCh := Some(s.o2i.perr), o2i := OExited);
    }
  }

  lemma O2IRecvFrame(s: State, r: RecvResult)
    requires s.o2i.ORecv? || s.o2i.UFirst? || s.o2i.USecond?
    ensures OwnO2I(s, AfterO2IRecv(s, r))
  {
    hide AfterO2IRecv, Received;
    ReceivedFrame(s, r);
    var o := RecvFrame(s, r);
  }

  lemma ReceivedFrame(s: State, r: RecvResult)
    ensures Received(s, r) == s.(responses := Received(s, r).responses, outgoingEnd := Received(s, r).outgoingEnd)
  {
  }

  lemma RecvFrame(s: State, r: RecvResult) returns (o: O2I)
    requires s.o2i.ORecv? || s.o2i.UFirst? || s.o2i.USecond?
    ensures AfterO2IRecv(s, r) == Received(s, r).(o2i := o) && o !in {ONone, OExited}
  {
    hide Received, OnRecv;
    RecvLeads(s.o2i, r);
    o := OnRecv(s.o2i, r);
  }

  lemma RecvLeads(o: O2I, r: RecvResult)
    requires o.ORecv? || o.UFirst? || o.USecond?
    ensures OnRecv(o, r) !in {ONone, OExited}
  {
    HeaderLeads(r);
  }

  lemma O2IHeaderFrame(s: State)
    requires s.o2i.OHeader? || s.o2i.UHeader?
    ensures OwnO2I(s, AfterO2IHeader(s))
  {
    hide AfterO2IHeader;
    var o := HeaderFrame(s);
  }

  lemma HeaderFrame(s: State) returns (o: O2I)
    requires s.o2i.OHeader? || s.o2i.UHeader?
    ensures AfterO2IHeader(s) == s.(inLog := s.inLog + [Header], o2i := o) && o !in {ONone, OExited}
  {
    hide AfterHeader, UnaryVerdict;
    o := AfterO2IHeader(s).o2i;
    match s.o2i {
      case OHeader(r) => HeaderLeads(r);
      case UHeader(got, _, e) => VerdictLeads(got, e);
    }
  }

  lemma HeaderLeads(r: RecvResult)
    ensures AfterHeader(r) !in {ONone, OExited}
  {
  }

  lemma VerdictLeads(got: Option<int>, e: Err)
    ensures UnaryVerdict(got, e) !in {ONone, OExited}
  {
  }

  lemma O2ITrailerFrame(s: State)
    requires s.o2i.OTrailer? || s.o2i.UTrailer?
    ensures OwnO2I(s, AfterO2ITrailer(s))
  {
    hide AfterO2ITrailer;
    var o := TrailerFrame(s);
  }

  lemma TrailerFrame(s: State) returns (o: O2I)
    requires s.o2i.OTrailer? || s.o2i.UTrailer?
    ensures AfterO2ITrailer(s) == s.(inLog := s.inLog + [Trailer], o2i := o) && o !in {ONone, OExited}
  {
    o := AfterO2ITrailer(s).o2i;
  }

  lemma O2ISendFrame(s: State, err: Option<Err>)
    requires s.o2i.OSend? || s.o2i.USend?
    ensures OwnO2I(s, AfterO2ISend(s, err))
  {
  }

  // ---- preservation --------------------------------------------------------------------

  lemma MainStep(s: State, step: Step)
    requires MainInv(s) && ChannelInv(s) && RequestInv(s) && Enabled(s, step)
    ensures MainInv(Next(s, step))
  {
    hide MainInv, ChannelInv, RequestInv, Next, Enabled;
    if ByI2O(step) { MainByI2O(s, step); }
    else if ByO2I(step) { MainByO2I(s, step); }
    else if BySelect(step) { MainBySelect(s, step); }
    else if ByDefer(step) { MainByDefer(s, step); }
    else if ByOpening(step) { MainByOpening(s, step); }
    else { MainByContext(s, step); }
  }

  lemma MainByI2O(s: State, step: Step)
    requires MainInv(s) && ByI2O(step) && Enabled(s, step)
    ensures MainInv(Next(s, step))
  {
    I2OFrame(s, step);
    hide Next, Enabled;
  }

  lemma MainByO2I(s: State, step: Step)
    requires MainInv(s) && ByO2I(step) && Enabled(s, step)
    ensures MainInv(Next(s, step))
  {
    O2IFrame(s, step);
    hide Next, Enabled;
  }

  lemma MainBySelect(s: State, step: Step)
    requires MainInv(s) && ChannelInv(s) && BySelect(step) && Enabled(s, step)
    ensures MainInv(Next(s, step))
  {
    match step {
      case SelectDone(e) => MainByDone(s, Failed(e));
      case SelectI2O =>
        assert OneError(s.i2oCh.value);
        MainByI2OResult(s);
      case SelectO2I => MainByO2IResult(s);
    }
  }

  lemma MainByDone(s: State, r: Outcome)
    requires MainInv(s) && s.main == Selecting
    ensures MainInv(s.(main := Closing(r)))
  {
  }

  lemma MainByI2OResult(s: State)
    requires MainInv(s) && s.main == Selecting && s.i2oCh.Some? && OneError(s.i2oCh.value)
    ensures MainInv(OnI2O(s, s.i2oCh.value))
  {
    var perr := s.i2oCh.value;
    var t := s.(i2oCh := None, taken := s.taken + [FromI2O(perr)]);
    hide MainInv;
    MainByTaken(s, t);
    if IsEOF(perr.incomingErr) || IsEOF(perr.outgoingErr) {
      MainByCloseSend(t);
    } else {
      MainByDone(t, OnI2O(s, perr).main.r);
    }
  }

  /** Taking a result leaves the caller where it is. */
  lemma MainByTaken(s: State, t: State)
    requires MainInv(s) && s.main == Selecting
    requires t == s.(i2oCh := t.i2oCh, o2iCh := t.o2iCh, taken := t.taken)
    ensures MainInv(t)
  {
  }

  lemma MainByCloseSend(s: State)
    requires MainInv(s) && s.main == Selecting
    ensures MainInv(s.(outLog := s.outLog + [CloseSend]))
  {
  }

  lemma MainByO2IResult(s: State)
    requires MainInv(s) && s.main == Selecting && s.o2iCh.Some?
    ensures MainInv(OnO2I(s, s.o2iCh.value))
  {
    hide MainInv;
    var t := s.(o2iCh := None, taken := s.taken + [FromO2I(s.o2iCh.value)]);
    MainByTaken(s, t);
    MainByDone(t, OnO2I(s, s.o2iCh.value).main.r);
  }

  lemma MainByDefer(s: State, step: Step)
    requires MainInv(s) && ByDefer(step) && Enabled(s, step)
    ensures MainInv(Next(s, step))
  {
  }

  lemma MainByOpening(s: State, step: Step)
    requires MainInv(s) && RequestInv(s) && ByOpening(step) && Enabled(s, step)
    ensures MainInv(Next(s, step))
  {
    match step {
      case UnaryRecv(r) => MainByUnaryRecv(s, r);
      case OpenStream(err) => MainByOpen(s, err);
      case UnarySend(err) => MainByUnarySend(s, err);
      case _ => MainByRest(s, step);
    }
  }

  lemma MainByUnaryRecv(s: State, r: RecvResult)
    requires MainInv(s) && s.main == Start && !s.clientStreaming
    ensures MainInv(AfterUnaryRecv(s, r))
  {
  }

  lemma MainByOpen(s: State, err: Option<Err>)
    requires MainInv(s) && ((s.main == Start && s.clientStreaming) || s.main.NeedStream?)
    ensures MainInv(AfterOpen(s, err))
  {
  }

  lemma MainByUnarySend(s: State, err: Option<Err>)
    requires MainInv(s) && s.main.NeedSend?
    ensures MainInv(AfterUnarySend(s, err))
  {
  }

  lemma MainByRest(s: State, step: Step)
    requires MainInv(s) && (step.UnaryClose? || step.UnaryCloseSend? || step.Launch?) && Enabled(s, step)
    ensures MainInv(Next(s, step))
  {
  }

  lemma MainByContext(s: State, step: Step)
    requires MainInv(s) && step.ContextDone? && Enabled(s, step)
    ensures MainInv(Next(s, step))
  {
  }

  lemma ChannelStep(s: State, step: Step)
    requires MainInv(s) && ChannelInv(s) && Enabled(s, step)
    ensures ChannelInv(Next(s, step))
  {
    hide MainInv, ChannelInv, Next, Enabled;
    if ByI2O(step) { ChannelByI2O(s, step); }
    else if ByO2I(step) { ChannelByO2I(s, step); }
    else if BySelect(step) { ChannelBySelect(s, step); }
    else if ByDefer(step) { ChannelByDefer(s, step); }
    else if ByOpening(step) { ChannelByOpening(s, step); }
    else { ChannelByContext(s, step); }
  }

  lemma ChannelByI2O(s: State, step: Step)
    requires ChannelInv(s) && ByI2O(step) && Enabled(s, step)
    ensures ChannelInv(Next(s, step))
  {
    I2OFrame(s, step);
    hide Next, Enabled;
  }

  lemma ChannelByO2I(s: State, step: Step)
    requires ChannelInv(s) && ByO2I(step) && Enabled(s, step)
    ensures ChannelInv(Next(s, step))
  {
    O2IFrame(s, step);
    hide Next, Enabled;
  }

  lemma ChannelBySelect(s: State, step: Step)
    requires ChannelInv(s) && BySelect(step) && Enabled(s, step)
    ensures ChannelInv(Next(s, step))
  {
    match step {
      case SelectI2O => ChannelByI2OResult(s);
      case SelectO2I => ChannelByO2IResult(s);
      case SelectDone(e) => assert Next(s, step) == s.(main := Closing(Failed(e)));
    }
  }

  lemma I2OResultFrame(s: State)
    requires s.main == Selecting && s.i2oCh.Some? && OneError(s.i2oCh.value)
    ensures var t := OnI2O(s, s.i2oCh.value);
      && t == s.(i2oCh := None, taken := s.taken + [FromI2O(s.i2oCh.value)], outLog := t.outLog, main := t.main)
      && (t.main == Selecting || (t.main.Closing? && t.main.r.Failed?))
      && (t.outLog == s.outLog || t.outLog == s.outLog + [CloseSend])
  {
    var perr := s.i2oCh.value;
    var t := s.(i2oCh := None, taken := s.taken + [FromI2O(perr)]);
    if IsEOF(perr.incomingErr) || IsEOF(perr.outgoingErr) {
      assert OnI2O(s, perr) == t.(outLog := t.outLog + [CloseSend]);
    } else {
      assert OnI2O(s, perr).main.Closing?;
    }
  }

  lemma ChannelByI2OResult(s: State)
    requires ChannelInv(s) && s.main == Selecting && s.i2oCh.Some?
    ensures ChannelInv(OnI2O(s, s.i2oCh.value))
  {
    hide OnI2O;
    I2OResultFrame(s);
    assert s.taken == [];
    assert OnI2O(s, s.i2oCh.value).taken == [FromI2O(s.i2oCh.value)];
  }

  lemma ChannelByO2IResult(s: State)
    requires ChannelInv(s) && s.main == Selecting && s.o2iCh.Some?
    ensures ChannelInv(OnO2I(s, s.o2iCh.value))
  {
    assert |s.taken| <= 1;
  }

  lemma ChannelByDefer(s: State, step: Step)
    requires ChannelInv(s) && ByDefer(step) && Enabled(s, step)
    ensures ChannelInv(Next(s, step))
  {
  }

  lemma ChannelByOpening(s: State, step: Step)
    requires MainInv(s) && ChannelInv(s) && ByOpening(step) && Enabled(s, step)
    ensures ChannelInv(Next(s, step))
  {
    hide *;
    OpeningStarts(s, step);
    if step.OpenStream? {
      OpenedChannels(s, step);
    } else if step.UnaryRecv? {
      ReceivedChannels(s, step);
    } else if step.UnarySend? {
      SentChannels(s, step);
    } else {
      OpeningChannels(s, step);
    }
    ChannelsUntouched(s, Next(s, step));
  }

  /** Nobody has a result before the goroutines run. */
  predicate NoResultYet(s: State, t: State) {
    && s.o2i == ONone && s.taken == [] && t.taken == [] && t.i2oCh == s.i2oCh && t.o2iCh == s.o2iCh
    && !t.o2i.OExited? && (t.i2o == s.i2o || (s.i2o == INone && t.i2o == IRecv))
    && (After(t) ==> ResultOf(t.main) != Success)
  }

  lemma OpeningStarts(s: State, step: Step)
    requires MainInv(s) && ByOpening(step) && Enabled(s, step)
    ensures s.o2i == ONone && s.taken == [] && (step.OpenStream? ==> s.i2o == INone)
  {
  }

  lemma OpenedChannels(s: State, step: Step)
    requires step.OpenStream? && Enabled(s, step) && s.o2i == ONone && s.taken == [] && s.i2o == INone
    ensures NoResultYet(s, Next(s, step))
  {
    hide NoResultYet, AfterOpen;
    OpenedNoResult(s, step.err);
  }

  lemma OpenedNoResult(s: State, err: Option<Err>)
    requires s.o2i == ONone && s.taken == [] && s.i2o == INone
    ensures NoResultYet(s, AfterOpen(s, err))
  {
  }

  lemma ReceivedChannels(s: State, step: Step)
    requires step.UnaryRecv? && Enabled(s, step) && s.o2i == ONone && s.taken == []
    ensures NoResultYet(s, Next(s, step))
  {
  }

  lemma SentChannels(s: State, step: Step)
    requires step.UnarySend? && Enabled(s, step) && s.o2i == ONone && s.taken == []
    ensures NoResultYet(s, Next(s, step))
  {
    hide NoResultYet, AfterUnarySend;
    SentNoResult(s, step.err);
  }

  lemma SentNoResult(s: State, err: Option<Err>)
    requires s.main.NeedSend? && s.o2i == ONone && s.taken == []
    ensures NoResultYet(s, AfterUnarySend(s, err))
  {
  }

  lemma OpeningChannels(s: State, step: Step)
    requires ByOpening(step) && !step.OpenStream? && !step.UnaryRecv? && !step.UnarySend?
    requires Enabled(s, step) && s.o2i == ONone && s.taken == []
    ensures NoResultYet(s, Next(s, step))
  {
  }

  lemma ChannelsUntouched(s: State, t: State)
    requires ChannelInv(s) && NoResultYet(s, t)
    ensures ChannelInv(t)
  {
  }

  lemma ChannelByContext(s: State, step: Step)
    requires ChannelInv(s) && step.ContextDone? && Enabled(s, step)
    ensures ChannelInv(Next(s, step))
  {
  }

  lemma RequestStep(s: State, step: Step)
    requires MainInv(s) && ChannelInv(s) && RequestInv(s) && Enabled(s, step)
    ensures RequestInv(Next(s, step))
  {
    hide MainInv, ChannelInv, RequestInv, Next, Enabled;
    if ByI2O(step) { RequestByI2O(s, step); }
    else if ByO2I(step) { RequestByO2I(s, step); }
    else if BySelect(step) { RequestBySelect(s, step); }
    else if ByDefer(step) { RequestByDefer(s, step); }
    else if ByOpening(step) { RequestByOpening(s, step); }
    else { RequestByContext(s, step); }
  }

  lemma RequestByI2O(s: State, step: Step)
    requires MainInv(s) && RequestInv(s) && ByI2O(step) && Enabled(s, step)
    ensures RequestInv(Next(s, step))
  {
    assert s.streamOpen && !s.main.NeedSend?;
    hide Sends, MainInv;
    match step {
      case I2ORecv(r) => RequestByI2ORecv(s, r);
      case I2OSend(err) => RequestByI2OSend(s, err);
      case I2OReport => hide NoSendAfterCloseSend;
    }
  }

  lemma LogStep(log: seq<OutEvent>, e: OutEvent)
    requires NoSendAfterCloseSend(log) && (e.Send? ==> CloseSend !in log)
    ensures NoSendAfterCloseSend(log + [e])
    ensures CloseSend in log + [e] <==> CloseSend in log || e == CloseSend
    ensures Sends(log + [e]) == Sends(log) + if e.Send? then [e.m] else []
  {
    SendsStep(log, e);
    hide Sends;
  }

  lemma RequestByI2ORecv(s: State, r: RecvResult)
    requires RequestInv(s) && s.streamOpen && !s.main.NeedSend? && s.i2o == IRecv
    ensures RequestInv(AfterI2ORecv(s, r))
  {
    hide Sends, NoSendAfterCloseSend;
    assert Sends(s.outLog) + [] == Sends(s.outLog);
  }

  lemma RequestByI2OSend(s: State, err: Option<Err>)
    requires RequestInv(s) && s.streamOpen && !s.main.NeedSend? && s.i2o.ISend?
    ensures RequestInv(AfterI2OSend(s, err))
  {
    LogStep(s.outLog, Send(s.i2o.m));
    hide Sends, NoSendAfterCloseSend;
    assert Sends(s.outLog) + [s.i2o.m] + [] == s.requests;
  }

  lemma RequestByO2I(s: State, step: Step)
    requires RequestInv(s) && ByO2I(step) && Enabled(s, step)
    ensures RequestInv(Next(s, step))
  {
    O2IFrame(s, step);
    hide Next, Enabled, Sends, NoSendAfterCloseSend;
  }

  lemma RequestBySelect(s: State, step: Step)
    requires MainInv(s) && ChannelInv(s) && RequestInv(s) && BySelect(step) && Enabled(s, step)
    ensures RequestInv(Next(s, step))
  {
    match step {
      case SelectI2O =>
        assert s.i2o == IExited && s.streamOpen && OneError(s.i2oCh.value);
        hide MainInv, ChannelInv;
        RequestByI2OResult(s);
      case _ => hide MainInv, ChannelInv, Sends, NoSendAfterCloseSend;
    }
  }

  lemma RequestByI2OResult(s: State)
    requires RequestInv(s) && s.main == Selecting && s.i2oCh.Some? && s.i2o == IExited && s.streamOpen
    requires OneError(s.i2oCh.value)
    ensures RequestInv(OnI2O(s, s.i2oCh.value))
  {
    hide *;
    var t := OnI2O(s, s.i2oCh.value);
    I2OResultFrame(s);
    RequestWithLog(s, t);
  }

  /** Appending a CloseSend when nothing is in flight and nothing more will be sent. */
  lemma RequestWithLog(s: State, t: State)
    requires RequestInv(s) && s.streamOpen && s.i2o !in {IRecv} && !s.i2o.ISend? && !s.main.NeedSend?
    requires t.outLog == s.outLog || t.outLog == s.outLog + [CloseSend]
    requires t.streamOpen && t.i2o == s.i2o && !t.main.NeedSend? && t.requests == s.requests
    ensures RequestInv(t)
  {
    LogStep(s.outLog, CloseSend);
    hide Sends, NoSendAfterCloseSend;
    assert Sends(s.outLog) + [] == Sends(s.outLog);
  }

  lemma RequestByDefer(s: State, step: Step)
    requires MainInv(s) && RequestInv(s) && ByDefer(step) && Enabled(s, step)
    ensures RequestInv(Next(s, step))
  {
    hide *;
    RequestParts(s);
    LogStep(s.outLog, Close);
    DeferFrame(s, step);
    RequestParts(Next(s, step));
  }

  /** Requests in flight, with the log as it is. */
  lemma RequestParts(s: State)
    ensures RequestInv(s) <==>
              && Sends(s.outLog) + InFlight(s) == s.requests && |InFlight(s)| <= 1 && NoSendAfterCloseSend(s.outLog)
              && (CloseSend in s.outLog ==> !s.i2o.IRecv? && !s.i2o.ISend? && !s.main.NeedSend?)
              && (s.i2o.IRecv? || s.i2o.ISend? ==> s.incomingEnd.None?)
  {
    hide Sends, InFlight, NoSendAfterCloseSend;
  }

  lemma DeferFrame(s: State, step: Step)
    requires MainInv(s) && ByDefer(step) && Enabled(s, step)
    ensures var t := Next(s, step);
            && t.outLog == (if step == DeferredClose then s.outLog + [Close] else s.outLog)
            && t.requests == s.requests && t.i2o == s.i2o && t.incomingEnd == s.incomingEnd && InFlight(t) == InFlight(s)
            && !t.main.NeedSend?
    ensures step in {DeferredClose, DeferredCancel, WaitDone}
  {
  }

  lemma RequestByOpening(s: State, step: Step)
    requires MainInv(s) && RequestInv(s) && ByOpening(step) && Enabled(s, step)
    ensures RequestInv(Next(s, step))
  {
    NoSendsYet();
    hide Sends;
    match step {
      case UnaryRecv(r) => hide NoSendAfterCloseSend;
      case OpenStream(err) => RequestByOpen(s, err);
      case UnarySend(err) => RequestByUnarySend(s, err);
      case UnaryClose => RequestByUnaryClose(s, Close);
      case UnaryCloseSend => RequestByUnaryClose(s, CloseSend);
      case Launch => hide NoSendAfterCloseSend;
    }
  }

  lemma NoSendsYet()
    ensures Sends([]) == []
  {
  }

  lemma RequestByOpen(s: State, err: Option<Err>)
    requires MainInv(s) && RequestInv(s) && ((s.main == Start && s.clientStreaming) || s.main.NeedStream?)
    ensures RequestInv(AfterOpen(s, err))
  {
    NoSendsYet();
    hide Sends;
    assert s.outLog == [] && !s.streamOpen;
    assert [] + s.requests == s.requests;
  }

  lemma RequestByUnarySend(s: State, err: Option<Err>)
    requires MainInv(s) && s.main.NeedSend?
    ensures RequestInv(AfterUnarySend(s, err))
  {
    assert s.outLog == [] && s.requests == [s.main.m] && s.streamOpen && s.i2o == INone;
    hide MainInv, RequestInv;
    var t := AfterUnarySend(s, err);
    assert t.outLog == [Send(s.main.m)];
    OneSend(t, s.main.m);
  }

  lemma OneSend(t: State, m: int)
    requires t.outLog == [Send(m)] && t.requests == [m] && t.streamOpen && t.i2o == INone && !t.main.NeedSend?
    ensures RequestInv(t)
  {
    SendsStep([], Send(m));
    NoSendsYet();
    assert [] + [Send(m)] == [Send(m)] && [] + [m] + [] == [m];
    hide Sends;
  }

  lemma RequestByUnaryClose(s: State, e: OutEvent)
    requires MainInv(s) && RequestInv(s) && (s.main.NeedClose? || s.main.NeedCloseSend?) && !e.Send?
    ensures forall main, closed :: (main == Launching || main.Cancelling?) ==>
              RequestInv(s.(outLog := s.outLog + [e], streamClosed := closed, main := main))
  {
    LogStep(s.outLog, e);
    hide Sends, NoSendAfterCloseSend;
    assert s.streamOpen && s.i2o == INone;
    assert Sends(s.outLog) + [] == Sends(s.outLog);
  }

  lemma RequestByContext(s: State, step: Step)
    requires RequestInv(s) && step.ContextDone? && Enabled(s, step)
    ensures RequestInv(Next(s, step))
  {
    hide Sends, NoSendAfterCloseSend;
  }
}
