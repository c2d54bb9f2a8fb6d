/** ProxyForwarder.Forward of grpcadapter/forwarder.go as a system of interleaved steps: the calling goroutine,
    the two forwarding goroutines, their one-slot channels, and streams that answer as they please. */
module Forwarder {
  import opened Text

  /** Errors of stream operations. `EOF` stands for every error that is io.EOF in the sense of errors.Is. */
  datatype Err = EOF | Status(code: int)

  const UNAVAILABLE := Status(14)

  datatype RecvResult = Msg(m: int) | RecvErr(e: Err)

  /** forwardError: which side failed, and how. */
  datatype ForwardError = ForwardError(incomingErr: Option<Err>, outgoingErr: Option<Err>)

  datatype Outcome = Success | Failed(e: Err)

  /** Where the goroutine running Forward stands. */
  datatype Main =
    | Start                      // about to open the stream, or to receive the unary request
    | NeedStream(m: int)         // unary request received, about to open the stream
    | NeedSend(m: int)           // about to send the unary request
    | NeedClose(e: Err)          // unary send failed, about to close the stream
    | NeedCloseSend              // unary request sent
    | Launching                  // about to start the outgoing-to-incoming goroutine
    | Selecting
    | Closing(r: Outcome)        // deferred outgoing.Close()
    | Cancelling(r: Outcome)     // deferred cancel()
    | Waiting(r: Outcome)        // deferred wg.Wait()
    | Returned(r: Outcome)

  /** forwardIncomingToOutgoing. */
  datatype I2O = INone | IRecv | ISend(m: int) | IReport(perr: ForwardError) | IExited

  /** forwardOutgoingToIncoming and forwardUnaryResponse. */
  datatype O2I =
    | ONone
    | ORecv(first: bool)
    | OHeader(r: RecvResult)
    | OTrailer(e: Err)
    | OSend(m: int)
    | UFirst
    | USecond(m: int)
    | UHeader(got: Option<int>, trailers: bool, e: Err)
    | UTrailer(got: Option<int>, e: Err)
    | USend(m: int)
    | OReport(perr: ForwardError)
    | OExited

  datatype OutEvent = Send(m: int) | CloseSend | Close
  datatype InEvent = Header | Trailer | Deliver(m: int)

  /** A result the select loop took from one of the two channels. */
  datatype Taken = FromI2O(perr: ForwardError) | FromO2I(perr: ForwardError)

  datatype State = State(
    clientStreaming: bool, serverStreaming: bool,
    main: Main, i2o: I2O, o2i: O2I,
    i2oCh: Option<ForwardError>, o2iCh: Option<ForwardError>,
    taken: seq<Taken>,             // results taken by the select loop
    cancelled: bool, streamOpen: bool, streamClosed: bool,
    requests: seq<int>,            // received from the incoming stream
    incomingEnd: Option<Err>,      // how receiving from it ended
    outLog: seq<OutEvent>,         // calls on the outgoing stream
    responses: seq<int>,           // received from the outgoing stream
    outgoingEnd: Option<Err>,
    inLog: seq<InEvent>,           // calls on the incoming stream
    inFailed: bool)                // a Send on the incoming stream failed

  function Init(clientStreaming: bool, serverStreaming: bool): State {
    State(clientStreaming, serverStreaming, Start, INone, ONone, None, None, [], false, false, false,
          [], None, [], [], None, [], false)
  }

  /** One step; the arguments are what the environment answers. */
  datatype Step =
    | UnaryRecv(r: RecvResult)
    | OpenStream(err: Option<Err>)
    | UnarySend(err: Option<Err>)
    | UnaryClose
    | UnaryCloseSend
    | Launch
    | SelectDone(ctxErr: Err)
    | SelectI2O
    | SelectO2I
    | DeferredClose
    | DeferredCancel
    | WaitDone
    | I2ORecv(r: RecvResult)
    | I2OSend(err: Option<Err>)
    | I2OReport
    | O2IRecv(r: RecvResult)
    | O2IHeader
    | O2ITrailer
    | O2ISend(err: Option<Err>)
    | O2IReport
    | ContextDone                // deadline or cancellation by the client

  predicate Running(s: State) {
    s.i2o !in {INone, IExited} || s.o2i !in {ONone, OExited}
  }

  predicate IsEOF(e: Option<Err>) {
    e == Some(EOF)
  }

  predicate Enabled(s: State, step: Step) {
    match step
    case UnaryRecv(_) => s.main == Start && !s.clientStreaming
    case OpenStream(_) => (s.main == Start && s.clientStreaming) || s.main.NeedStream?
    case UnarySend(_) => s.main.NeedSend?
    case UnaryClose => s.main.NeedClose?
    case UnaryCloseSend => s.main == NeedCloseSend
    case Launch => s.main == Launching
    case SelectDone(e) => s.main == Selecting && s.cancelled && e != EOF
    case SelectI2O => s.main == Selecting && s.i2oCh.Some?
    case SelectO2I => s.main == Selecting && s.o2iCh.Some?
    case DeferredClose => s.main.Closing?
    case DeferredCancel => s.main.Cancelling?
    case WaitDone => s.main.Waiting? && !Running(s)
    case I2ORecv(_) => s.i2o == IRecv
    case I2OSend(_) => s.i2o.ISend?
    case I2OReport => s.i2o.IReport? && s.i2oCh.None?
    case O2IRecv(_) => s.o2i.ORecv? || s.o2i == UFirst || s.o2i.USecond?
    case O2IHeader => s.o2i.OHeader? || s.o2i.UHeader?
    case O2ITrailer => s.o2i.OTrailer? || s.o2i.UTrailer?
    case O2ISend(_) => s.o2i.OSend? || s.o2i.USend?
    case O2IReport => s.o2i.OReport? && s.o2iCh.None?
    case ContextDone => !s.cancelled
  }

  // ---- the calling goroutine -----------------------------------------------------------

  /** What the select loop does with the result of forwardIncomingToOutgoing. */
  function OnI2O(s: State, perr: ForwardError): State {
    var s := s.(i2oCh := None, taken := s.taken + [FromI2O(perr)]);
    if IsEOF(perr.incomingErr) || IsEOF(perr.outgoingErr) then s.(outLog := s.outLog + [CloseSend])
    else if perr.incomingErr.Some? then s.(main := Closing(Failed(perr.incomingErr.value)))
    else s.(main := Closing(OutcomeOf(perr.outgoingErr)))
  }

  function OutcomeOf(e: Option<Err>): Outcome {
    match e case None => Success case Some(e) => Failed(e)
  }

  /** What the select loop does with the result of forwardOutgoingToIncoming. */
  function OnO2I(s: State, perr: ForwardError): State {
    s.(o2iCh := None, taken := s.taken + [FromO2I(perr)],
       main := Closing(if perr.incomingErr.Some? then Failed(perr.incomingErr.value) else OutcomeOf(perr.outgoingErr)))
  }

  function AfterUnaryRecv(s: State, r: RecvResult): State {
    match r
    case Msg(m) => s.(requests := s.requests + [m], main := NeedStream(m))
    case RecvErr(e) => s.(incomingEnd := Some(e), main := Cancelling(Failed(if e == EOF then UNAVAILABLE else e)))
  }

  function AfterOpen(s: State, err: Option<Err>): State {
    match err
    case Some(e) => s.(main := Cancelling(Failed(e)))
    case None =>
      if s.main.NeedStream? then s.(streamOpen := true, main := NeedSend(s.main.m))
      else s.(streamOpen := true, i2o := IRecv, main := Launching)
  }

  function AfterUnarySend(s: State, err: Option<Err>): State
    requires s.main.NeedSend?
  {
    var s' := s.(outLog := s.outLog + [Send(s.main.m)]);
    if err.None? || err == Some(EOF) then s'.(main := NeedCloseSend) else s'.(main := NeedClose(err.value))
  }

  // ---- the forwarding goroutines -------------------------------------------------------

  function AfterI2ORecv(s: State, r: RecvResult): State {
    match r
    case Msg(m) => s.(requests := s.requests + [m], i2o := ISend(m))
    case RecvErr(e) => s.(incomingEnd := Some(e), i2o := IReport(ForwardError(Some(e), None)))
  }

  function AfterI2OSend(s: State, err: Option<Err>): State
    requires s.i2o.ISend?
  {
    var s' := s.(outLog := s.outLog + [Send(s.i2o.m)]);
    match err
    case None => s'.(i2o := IRecv)
    case Some(e) => s'.(i2o := IReport(ForwardError(None, Some(e))))
  }

  function Received(s: State, r: RecvResult): State {
    match r
    case Msg(m) => s.(responses := s.responses + [m])
    case RecvErr(e) => s.(outgoingEnd := Some(e))
  }

  /** What follows the headers of a streamed response. */
  function AfterHeader(r: RecvResult): O2I {
    match r case Msg(m) => OSend(m) case RecvErr(e) => OTrailer(e)
  }

  /** What the goroutine goes on with once a Recv has answered. */
  function OnRecv(o: O2I, r: RecvResult): O2I {
    match o
    case ORecv(first) => if first then OHeader(r) else AfterHeader(r)
    case UFirst => (match r case Msg(m) => USecond(m) case RecvErr(e) => UHeader(None, true, e))
    case USecond(m) => (match r case Msg(_) => UHeader(Some(m), false, EOF) case RecvErr(e) => UHeader(Some(m), true, e))
    case _ => o
  }

  function AfterO2IRecv(s: State, r: RecvResult): State {
    Received(s, r).(o2i := OnRecv(s.o2i, r))
  }

  /** The end of forwardUnaryResponse, after headers and trailers. */
  function UnaryVerdict(got: Option<int>, e: Err): O2I {
    if e != EOF then OReport(ForwardError(None, Some(e)))
    else if got.None? then OReport(ForwardError(None, Some(UNAVAILABLE)))
    else USend(got.value)
  }

  function AfterO2IHeader(s: State): State {
    var s' := s.(inLog := s.inLog + [Header]);
    match s.o2i
    case OHeader(r) => s'.(o2i := AfterHeader(r))
    case UHeader(got, trailers, e) => s'.(o2i := if trailers then UTrailer(got, e) else UnaryVerdict(got, e))
    case _ => s'
  }

  function AfterO2ITrailer(s: State): State {
    var s' := s.(inLog := s.inLog + [Trailer]);
    match s.o2i
    case OTrailer(e) => s'.(o2i := OReport(ForwardError(None, if e == EOF then None else Some(e))))
    case UTrailer(got, e) => s'.(o2i := UnaryVerdict(got, e))
    case _ => s'
  }

  function AfterO2ISend(s: State, err: Option<Err>): State
    requires s.o2i.OSend? || s.o2i.USend?
  {
    var s' := s.(inLog := s.inLog + [Deliver(s.o2i.m)], inFailed := s.inFailed || err.Some?);
    match err
    case Some(e) => s'.(o2i := OReport(ForwardError(Some(e), None)))
    case None => s'.(o2i := if s.o2i.OSend? then ORecv(false) else OReport(ForwardError(None, None)))
  }

  function Next(s: State, step: Step): State
    requires Enabled(s, step)
  {
    match step
    case UnaryRecv(r) => AfterUnaryRecv(s, r)
    case OpenStream(err) => AfterOpen(s, err)
    case UnarySend(err) => AfterUnarySend(s, err)
    case UnaryClose => s.(outLog := s.outLog + [Close], streamClosed := true, main := Cancelling(Failed(s.main.e)))
    case UnaryCloseSend => s.(outLog := s.outLog + [CloseSend], main := Launching)
    case Launch => s.(o2i := if s.serverStreaming then ORecv(true) else UFirst, main := Selecting)
    case SelectDone(e) => s.(main := Closing(Failed(e)))
    case SelectI2O => OnI2O(s, s.i2oCh.value)
    case SelectO2I => OnO2I(s, s.o2iCh.value)
    case DeferredClose => s.(outLog := s.outLog + [Close], streamClosed := true, main := Cancelling(s.main.r))
    case DeferredCancel => s.(cancelled := true, main := Waiting(s.main.r))
    case WaitDone => s.(main := Returned(s.main.r))
    case I2ORecv(r) => AfterI2ORecv(s, r)
    case I2OSend(err) => AfterI2OSend(s, err)
    case I2OReport => s.(i2oCh := Some(s.i2o.perr), i2o := IExited)
    case O2IRecv(r) => AfterO2IRecv(s, r)
    case O2IHeader => AfterO2IHeader(s)
    case O2ITrailer => AfterO2ITrailer(s)
    case O2ISend(err) => AfterO2ISend(s, err)
    case O2IReport => s.(o2iCh := Some(s.o2i.perr), o2i := OExited)
    case ContextDone => s.(cancelled := true)
  }

  /** The state after a run of enabled steps. */
  function Run(s: State, steps: seq<Step>): Option<State>
    decreases |steps|
  {
    if steps == [] then Some(s)
    else if !Enabled(s, steps[0]) then None
    else Run(Next(s, steps[0]), steps[1..])
  }
}
