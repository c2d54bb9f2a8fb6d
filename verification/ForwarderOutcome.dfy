/** What Forward returns, told from the answers of the two streams and of the context alone. */
module ForwarderOutcome {
  import opened Text
  import opened Forwarder
  import opened ForwarderSafety
  import opened ForwarderResponses

  // ---- what the environment answered -----------------------------------------------------

  /** The answers of a run that matter: how receiving and sending on either stream ended, how opening the outgoing one
      failed, how many responses came, what the select loop chose last, and whether the context was done. */
  datatype Seen = Seen(
    incomingEnd: Option<Err>, sendErr: Option<Err>, outgoingEnd: Option<Err>, deliverErr: Option<Err>,
    openErr: Option<Err>, messages: nat, choice: Option<Step>, done: bool)

  const NOTHING := Seen(None, None, None, None, None, 0, None, false)

  function Note(w: Seen, step: Step): Seen {
    match step
    case UnaryRecv(RecvErr(e)) => w.(incomingEnd := Some(e))
    case I2ORecv(RecvErr(e)) => w.(incomingEnd := Some(e))
    case OpenStream(Some(e)) => w.(openErr := Some(e))
    case UnarySend(Some(e)) => w.(sendErr := Some(e))
    case I2OSend(Some(e)) => w.(sendErr := Some(e))
    case O2IRecv(Msg(_)) => w.(messages := w.messages + 1)
    case O2IRecv(RecvErr(e)) => w.(outgoingEnd := Some(e))
    case O2ISend(Some(e)) => w.(deliverErr := Some(e))
    case SelectDone(_) => w.(choice := Some(step))
    case SelectI2O => w.(choice := Some(step))
    case SelectO2I => w.(choice := Some(step))
    case ContextDone => w.(done := true)
    case _ => w
  }

  function Noted(w: Seen, steps: seq<Step>): Seen
    decreases |steps|
  {
    if steps == [] then w else Noted(Note(w, steps[0]), steps[1..])
  }

  /** What the response side makes of it: the error of the Send that failed, else the status of the server, which for a
      unary response must not be EOF before any message. */
  function ResponseVerdict(serverStreaming: bool, w: Seen): Outcome {
    if w.deliverErr.Some? then Failed(w.deliverErr.value)
    else if w.outgoingEnd.Some? && w.outgoingEnd != Some(EOF) then Failed(w.outgoingEnd.value)
    else if !serverStreaming && w.messages == 0 then Failed(UNAVAILABLE)
    else Success
  }

  /** The result of the call: of a unary request that did not come or could not be sent, its error; else the error of
      opening the stream; else what the last choice of the select loop stands for. */
  function Verdict(clientStreaming: bool, serverStreaming: bool, w: Seen): Outcome {
    if !clientStreaming && w.incomingEnd.Some? then Failed(if w.incomingEnd == Some(EOF) then UNAVAILABLE else w.incomingEnd.value)
    else if w.openErr.Some? then Failed(w.openErr.value)
    else if !clientStreaming && w.sendErr.Some? && w.sendErr != Some(EOF) then Failed(w.sendErr.value)
    else
      match w.choice
      case Some(SelectDone(e)) => Failed(e)
      case Some(SelectI2O) =>
        if w.incomingEnd.Some? then Failed(w.incomingEnd.value) else if w.sendErr.Some? then Failed(w.sendErr.value) else Success
      case _ => ResponseVerdict(serverStreaming, w)
  }

  // ---- the invariant ---------------------------------------------------------------------

  /** The request side hands over just how it ended; once its EOF was taken a CloseSend is out. */
  predicate TiedRequests(s: State, w: Seen) {
    && w.incomingEnd == s.incomingEnd
    && (s.clientStreaming && (s.i2o.INone? || s.i2o.IRecv? || s.i2o.ISend?) ==> w.incomingEnd == None == w.sendErr)
    && (s.i2o.IReport? ==> s.i2o.perr == ForwardError(w.incomingEnd, w.sendErr))
    && (s.i2oCh.Some? ==> s.i2oCh.value == ForwardError(w.incomingEnd, w.sendErr))
    && (s.i2oCh.Some? ==> s.i2o.IExited?)
    && (s.i2o.IExited? && s.i2oCh.None? && (IsEOF(w.incomingEnd) || IsEOF(w.sendErr)) ==> CloseSend in s.outLog)
  }

  /** The response side hands over just the error of its failed Send beside what the server's end says. */
  predicate TiedResponses(s: State, w: Seen) {
    && w.outgoingEnd == s.outgoingEnd && w.messages == |s.responses| && (s.inFailed <==> w.deliverErr.Some?)
    && (s.o2i.OReport? ==> s.o2i.perr.incomingErr == w.deliverErr)
    && (s.o2iCh.Some? ==> s.o2i.OExited? && s.o2iCh.value.incomingErr == w.deliverErr)
  }

  predicate Opened(s: State, w: Seen) {
    w.openErr.None? && (!s.clientStreaming ==> w.incomingEnd.None? && (w.sendErr.None? || w.sendErr == Some(EOF)))
  }

  predicate NotBegun(w: Seen) {
    w.incomingEnd.None? && w.sendErr.None? && w.openErr.None? && w.choice.None?
  }

  predicate TiedMain(s: State, w: Seen) {
    && (s.main.Start? || s.main.NeedStream? || s.main.NeedSend? ==> NotBegun(w))
    && (s.main.NeedClose? ==> w.(sendErr := None) == w.(sendErr := None, incomingEnd := None, openErr := None, choice := None)
                              && w.sendErr == Some(s.main.e) && s.main.e != EOF)
    && (s.main.NeedCloseSend? || s.main.Launching? ==> Opened(s, w) && w.choice.None?)
    && (s.main.Selecting? ==> Opened(s, w) && (w.choice.None? || w.choice == Some(SelectI2O)))
    && (s.main.Selecting? && w.choice == Some(SelectI2O) ==>
          s.i2o.IExited? && s.i2oCh.None? && (IsEOF(w.incomingEnd) || IsEOF(w.sendErr)))
    && (After(s) ==> ResultOf(s.main) == Verdict(s.clientStreaming, s.serverStreaming, w))
    && (After(s) && w.choice == Some(SelectI2O) ==> s.i2o.IExited?)
    && (After(s) && w.choice == Some(SelectO2I) ==> s.o2i.OExited?)
    && (After(s) && w.choice.None? ==> s.o2i.ONone?)
    && (w.choice.Some? ==> w.choice.value.SelectDone? || w.choice.value.SelectI2O? || w.choice.value.SelectO2I?)
    && (s.cancelled ==> w.done || s.main.Waiting? || s.main.Returned?)
    && (w.choice.Some? && w.choice.value.SelectDone? ==> w.done)
  }

  ghost predicate Tied(s: State, w: Seen) {
    Inv(s) && TiedRequests(s, w) && TiedResponses(s, w) && TiedMain(s, w)
  }

  lemma TiedInit(clientStreaming: bool, serverStreaming: bool)
    ensures Tied(Init(clientStreaming, serverStreaming), NOTHING)
  {
    InvInit(clientStreaming, serverStreaming);
    hide Inv;
  }

  // ---- the goroutine of the requests -----------------------------------------------------

  lemma RequestsByI2O(s: State, w: Seen, step: Step)
    requires TiedRequests(s, w) && s.clientStreaming && ByI2O(step) && Enabled(s, step)
    ensures TiedRequests(Next(s, step), Note(w, step))
  {
    match step {
      case I2ORecv(r) => hide *; RequestsByRecv(s, w, r);
      case I2OSend(err) => hide *; RequestsBySend(s, w, err);
      case I2OReport => hide *; RequestsByReport(s, w);
      case _ =>
    }
  }

  lemma RequestsByRecv(s: State, w: Seen, r: RecvResult)
    requires TiedRequests(s, w) && s.clientStreaming && Enabled(s, I2ORecv(r))
    ensures TiedRequests(Next(s, I2ORecv(r)), Note(w, I2ORecv(r)))
  {
  }

  lemma RequestsBySend(s: State, w: Seen, err: Option<Err>)
    requires TiedRequests(s, w) && s.clientStreaming && Enabled(s, I2OSend(err))
    ensures TiedRequests(Next(s, I2OSend(err)), Note(w, I2OSend(err)))
  {
  }

  lemma RequestsByReport(s: State, w: Seen)
    requires TiedRequests(s, w) && s.clientStreaming && Enabled(s, I2OReport)
    ensures TiedRequests(Next(s, I2OReport), Note(w, I2OReport))
  {
  }

  lemma ResponsesByI2O(s: State, w: Seen, step: Step)
    requires TiedResponses(s, w) && ByI2O(step) && Enabled(s, step)
    ensures TiedResponses(Next(s, step), Note(w, step))
  {
    I2OFrame(s, step);
    hide Next, Enabled;
  }

  lemma MainByRequests(s: State, w: Seen, step: Step)
    requires TiedMain(s, w) && s.clientStreaming && ByI2O(step) && Enabled(s, step)
    requires s.streamOpen && (s.main.Start? || s.main.NeedStream? || s.main.NeedSend? || s.main.NeedClose? ==> s.i2o.INone?)
    ensures TiedMain(Next(s, step), Note(w, step))
  {
    I2OFrame(s, step);
    hide Next, Enabled;
  }

  // ---- the goroutine of the responses ----------------------------------------------------

  lemma RequestsByO2I(s: State, w: Seen, step: Step)
    requires TiedRequests(s, w) && ByO2I(step) && Enabled(s, step)
    ensures TiedRequests(Next(s, step), Note(w, step))
  {
    O2IFrame(s, step);
    hide Next, Enabled;
  }

  lemma MainByResponses(s: State, w: Seen, step: Step)
    requires TiedMain(s, w) && ByO2I(step) && Enabled(s, step)
    ensures TiedMain(Next(s, step), Note(w, step))
  {
    hide Next, Enabled, Note, Verdict;
    O2IFrame(s, step);
    NotesResponses(w, step);
    if After(s) { RequestsDecide(s.clientStreaming, s.serverStreaming, w, Note(w, step)); }
  }

  /** Only the answers to the response side differ. */
  predicate SameButResponses(w: Seen, w': Seen) {
    w' == w.(outgoingEnd := w'.outgoingEnd, deliverErr := w'.deliverErr, messages := w'.messages)
  }

  lemma NotesResponses(w: Seen, step: Step)
    requires ByO2I(step)
    ensures SameButResponses(w, Note(w, step))
  {
  }

  lemma RequestsDecide(clientStreaming: bool, serverStreaming: bool, w: Seen, w': Seen)
    requires SameButResponses(w, w') && w.choice.Some? && (w.choice.value.SelectDone? || w.choice.value.SelectI2O?)
    ensures Verdict(clientStreaming, serverStreaming, w') == Verdict(clientStreaming, serverStreaming, w)
  {
  }

  lemma ResponsesByO2I(s: State, w: Seen, step: Step)
    requires TiedResponses(s, w) && ResponseInv(s) && ByO2I(step) && Enabled(s, step)
    ensures TiedResponses(Next(s, step), Note(w, step))
  {
    match step {
      case O2IRecv(r) => ResponsesByRecv(s, w, r);
      case O2IHeader => ResponsesByHeader(s, w);
      case O2ITrailer => ResponsesByTrailer(s, w);
      case O2ISend(err) => ResponsesBySend(s, w, err);
      case O2IReport =>
    }
  }

  lemma ResponsesByRecv(s: State, w: Seen, r: RecvResult)
    requires TiedResponses(s, w) && (s.o2i.ORecv? || s.o2i.UFirst? || s.o2i.USecond?)
    ensures TiedResponses(AfterO2IRecv(s, r), Note(w, O2IRecv(r)))
  {
  }

  /** Nothing has failed before the response side sends. */
  lemma NotYetFailed(s: State)
    requires ResponseInv(s) && (s.o2i.OHeader? || s.o2i.UHeader? || s.o2i.OTrailer? || s.o2i.UTrailer? || s.o2i.OSend? || s.o2i.USend?)
    ensures !s.inFailed
  {
  }

  lemma ResponsesByHeader(s: State, w: Seen)
    requires TiedResponses(s, w) && ResponseInv(s) && (s.o2i.OHeader? || s.o2i.UHeader?)
    ensures TiedResponses(AfterO2IHeader(s), Note(w, O2IHeader))
  {
    NotYetFailed(s);
    hide ResponseInv;
  }

  lemma ResponsesByTrailer(s: State, w: Seen)
    requires TiedResponses(s, w) && ResponseInv(s) && (s.o2i.OTrailer? || s.o2i.UTrailer?)
    ensures TiedResponses(AfterO2ITrailer(s), Note(w, O2ITrailer))
  {
    NotYetFailed(s);
    hide ResponseInv;
  }

  lemma ResponsesBySend(s: State, w: Seen, err: Option<Err>)
    requires TiedResponses(s, w) && ResponseInv(s) && (s.o2i.OSend? || s.o2i.USend?)
    ensures TiedResponses(AfterO2ISend(s, err), Note(w, O2ISend(err)))
  {
    NotYetFailed(s);
    hide ResponseInv;
  }

  // ---- the calling goroutine -------------------------------------------------------------

  /** A step of the calling goroutine outside the select loop leaves the other sides alone. */
  lemma MainFrame(s: State, step: Step)
    requires (ByOpening(step) || ByDefer(step) || step.ContextDone?) && !step.Launch? && Enabled(s, step)
    ensures OwnOpening(s, Next(s, step))
  {
    hide Next, Enabled, OwnOpening;
    if ByDefer(step) { DeferFrame(s, step); } else { OpeningFrame(s, step); }
  }

  lemma DeferFrame(s: State, step: Step)
    requires ByDefer(step) && Enabled(s, step)
    ensures OwnOpening(s, Next(s, step))
  {
  }

  lemma RequestsByMain(s: State, w: Seen, step: Step)
    requires MainInv(s) && TiedRequests(s, w) && (ByOpening(step) || ByDefer(step) || step.ContextDone?) && Enabled(s, step)
    ensures TiedRequests(Next(s, step), Note(w, step))
  {
    hide Next, Enabled, Note, MainInv, TiedRequests;
    match step {
      case UnaryRecv(r) => RequestsByUnaryRecv(s, w, r);
      case OpenStream(err) => RequestsByOpen(s, w, err);
      case UnarySend(err) => RequestsByUnarySend(s, w, err);
      case _ => RequestsByRest(s, w, step);
    }
  }

  lemma RequestsByUnaryRecv(s: State, w: Seen, r: RecvResult)
    requires MainInv(s) && TiedRequests(s, w) && Enabled(s, UnaryRecv(r))
    ensures TiedRequests(Next(s, UnaryRecv(r)), Note(w, UnaryRecv(r)))
  {
  }

  lemma RequestsByOpen(s: State, w: Seen, err: Option<Err>)
    requires MainInv(s) && TiedRequests(s, w) && Enabled(s, OpenStream(err))
    ensures TiedRequests(Next(s, OpenStream(err)), Note(w, OpenStream(err)))
  {
    assert s.i2o.INone?;
    hide MainInv;
  }

  lemma RequestsByUnarySend(s: State, w: Seen, err: Option<Err>)
    requires MainInv(s) && TiedRequests(s, w) && Enabled(s, UnarySend(err))
    ensures TiedRequests(Next(s, UnarySend(err)), Note(w, UnarySend(err)))
  {
    assert s.i2o.INone? && !s.clientStreaming;
    hide MainInv;
  }

  lemma RequestsByRest(s: State, w: Seen, step: Step)
    requires TiedRequests(s, w) && Enabled(s, step)
    requires step.UnaryClose? || step.UnaryCloseSend? || step.Launch? || ByDefer(step) || step.ContextDone?
    ensures TiedRequests(Next(s, step), Note(w, step))
  {
    hide TiedRequests, Enabled, Next, Note;
    RestFrame(s, step);
    NoRequestNoted(w, step);
    RequestsKept(s, Next(s, step), w, Note(w, step));
  }

  /** Nothing on the request side differs, and no call on the outgoing stream is taken back. */
  predicate SameRequests(s: State, t: State) {
    && t.clientStreaming == s.clientStreaming && t.incomingEnd == s.incomingEnd && t.i2o == s.i2o && t.i2oCh == s.i2oCh
    && s.outLog <= t.outLog
  }

  lemma RestFrame(s: State, step: Step)
    requires Enabled(s, step)
    requires step.UnaryClose? || step.UnaryCloseSend? || step.Launch? || ByDefer(step) || step.ContextDone?
    ensures SameRequests(s, Next(s, step))
  {
  }

  lemma NoRequestNoted(w: Seen, step: Step)
    requires step.UnaryClose? || step.UnaryCloseSend? || step.Launch? || ByDefer(step) || step.ContextDone?
    ensures Note(w, step).incomingEnd == w.incomingEnd && Note(w, step).sendErr == w.sendErr
  {
  }

  lemma RequestsKept(s: State, t: State, w: Seen, w': Seen)
    requires TiedRequests(s, w) && SameRequests(s, t) && w'.incomingEnd == w.incomingEnd && w'.sendErr == w.sendErr
    ensures TiedRequests(t, w')
  {
    assert forall k :: 0 <= k < |s.outLog| ==> s.outLog[k] == t.outLog[k];
  }

  lemma ResponsesByMain(s: State, w: Seen, step: Step)
    requires MainInv(s) && TiedResponses(s, w) && (ByOpening(step) || ByDefer(step) || step.ContextDone?) && Enabled(s, step)
    ensures TiedResponses(Next(s, step), Note(w, step))
  {
    NoResponseNoted(w, step);
    if step.Launch? {
      ResponsesByLaunch(s, w);
    } else {
      hide *;
      MainFrame(s, step);
      ResponsesKept(s, Next(s, step), w, Note(w, step));
    }
  }

  lemma NoResponseNoted(w: Seen, step: Step)
    requires ByOpening(step) || ByDefer(step) || step.ContextDone?
    ensures Note(w, step).outgoingEnd == w.outgoingEnd && Note(w, step).messages == w.messages && Note(w, step).deliverErr == w.deliverErr
  {
  }

  lemma ResponsesByLaunch(s: State, w: Seen)
    requires MainInv(s) && TiedResponses(s, w) && Enabled(s, Launch)
    ensures TiedResponses(Next(s, Launch), Note(w, Launch))
  {
    assert s.o2i.ONone?;
    hide MainInv;
  }

  lemma ResponsesKept(s: State, t: State, w: Seen, w': Seen)
    requires TiedResponses(s, w) && OwnOpening(s, t)
    requires w'.outgoingEnd == w.outgoingEnd && w'.messages == w.messages && w'.deliverErr == w.deliverErr
    ensures TiedResponses(t, w')
  {
  }

  lemma MainByOpening(s: State, w: Seen, step: Step)
    requires MainInv(s) && TiedMain(s, w) && ByOpening(step) && Enabled(s, step)
    ensures TiedMain(Next(s, step), Note(w, step))
  {
    hide Next, Enabled, Note, TiedMain, MainInv;
    NotLaunched(s, step);
    match step {
      case UnaryRecv(r) => MainByUnaryRecv(s, w, r);
      case OpenStream(err) => MainByOpen(s, w, err);
      case UnarySend(err) => MainByUnarySend(s, w, err);
      case UnaryClose => MainByUnaryClose(s, w);
      case UnaryCloseSend => MainByCloseSend(s, w);
      case Launch => MainByLaunch(s, w);
    }
  }

  lemma NotLaunched(s: State, step: Step)
    requires MainInv(s) && ByOpening(step) && Enabled(s, step)
    ensures s.o2i.ONone? && (step.UnarySend? || step.UnaryClose? || step.UnaryCloseSend? ==> !s.clientStreaming)
    ensures step.OpenStream? && s.main.NeedStream? ==> !s.clientStreaming
  {
  }

  lemma MainByUnaryRecv(s: State, w: Seen, r: RecvResult)
    requires TiedMain(s, w) && Enabled(s, UnaryRecv(r)) && s.o2i.ONone?
    ensures TiedMain(Next(s, UnaryRecv(r)), Note(w, UnaryRecv(r)))
  {
  }

  lemma MainByOpen(s: State, w: Seen, err: Option<Err>)
    requires TiedMain(s, w) && Enabled(s, OpenStream(err)) && s.o2i.ONone?
    ensures TiedMain(Next(s, OpenStream(err)), Note(w, OpenStream(err)))
  {
  }

  lemma MainByUnarySend(s: State, w: Seen, err: Option<Err>)
    requires TiedMain(s, w) && Enabled(s, UnarySend(err)) && s.o2i.ONone? && !s.clientStreaming
    ensures TiedMain(Next(s, UnarySend(err)), Note(w, UnarySend(err)))
  {
  }

  lemma MainByUnaryClose(s: State, w: Seen)
    requires TiedMain(s, w) && Enabled(s, UnaryClose) && s.o2i.ONone? && !s.clientStreaming
    ensures TiedMain(Next(s, UnaryClose), Note(w, UnaryClose))
  {
  }

  lemma MainByCloseSend(s: State, w: Seen)
    requires TiedMain(s, w) && Enabled(s, UnaryCloseSend)
    ensures TiedMain(Next(s, UnaryCloseSend), Note(w, UnaryCloseSend))
  {
    hide Verdict;
  }

  lemma MainByLaunch(s: State, w: Seen)
    requires TiedMain(s, w) && Enabled(s, Launch)
    ensures TiedMain(Next(s, Launch), Note(w, Launch))
  {
    hide Verdict;
  }

  lemma MainByDefer(s: State, w: Seen, step: Step)
    requires TiedMain(s, w) && (ByDefer(step) || step.ContextDone?) && Enabled(s, step)
    ensures TiedMain(Next(s, step), Note(w, step))
  {
    hide TiedMain, Next, Enabled, Note, Verdict;
    if step.ContextDone? {
      MainByContext(s, w);
    } else {
      DeferMoves(s, step);
      NothingNoted(w, step);
      MainMoves(s, Next(s, step), w);
    }
  }

  /** The deferred calls keep the result. */
  predicate KeepsResult(s: State, t: State) {
    && After(s) && After(t) && ResultOf(t.main) == ResultOf(s.main) && !t.main.Closing?
    && t.clientStreaming == s.clientStreaming && t.serverStreaming == s.serverStreaming && t.i2o == s.i2o && t.o2i == s.o2i
    && (t.cancelled ==> s.cancelled || t.main.Waiting? || t.main.Returned?)
    && (s.main.Waiting? || s.main.Returned? ==> t.main.Waiting? || t.main.Returned?)
  }

  lemma DeferMoves(s: State, step: Step)
    requires ByDefer(step) && Enabled(s, step)
    ensures KeepsResult(s, Next(s, step))
  {
  }

  lemma NothingNoted(w: Seen, step: Step)
    requires ByDefer(step)
    ensures Note(w, step) == w
  {
  }

  lemma MainMoves(s: State, t: State, w: Seen)
    requires TiedMain(s, w) && KeepsResult(s, t)
    ensures TiedMain(t, w)
  {
    hide Verdict;
  }

  lemma MainByContext(s: State, w: Seen)
    requires TiedMain(s, w) && Enabled(s, ContextDone)
    ensures TiedMain(s.(cancelled := true), w.(done := true))
    ensures Next(s, ContextDone) == s.(cancelled := true) && Note(w, ContextDone) == w.(done := true)
  {
    hide Verdict;
    DoneIgnored(s.clientStreaming, s.serverStreaming, w);
  }

  lemma DoneIgnored(clientStreaming: bool, serverStreaming: bool, w: Seen)
    ensures Verdict(clientStreaming, serverStreaming, w.(done := true)) == Verdict(clientStreaming, serverStreaming, w)
  {
  }

  // ---- the select loop -------------------------------------------------------------------

  lemma SelectedDone(s: State, w: Seen, e: Err)
    requires TiedMain(s, w) && TiedRequests(s, w) && TiedResponses(s, w) && Enabled(s, SelectDone(e))
    ensures var t, w' := Next(s, SelectDone(e)), Note(w, SelectDone(e)); TiedMain(t, w') && TiedRequests(t, w') && TiedResponses(t, w')
  {
  }

  /** What the select loop does with the result of the request side. */
  lemma TakesRequests(s: State)
    requires s.main == Selecting && s.i2oCh.Some? && OneError(s.i2oCh.value)
    ensures var p, t := s.i2oCh.value, OnI2O(s, s.i2oCh.value);
            TookRequests(s, t)
  {
    I2OResultFrame(s);
  }

  lemma SelectedRequests(s: State, w: Seen)
    requires TiedMain(s, w) && TiedRequests(s, w) && TiedResponses(s, w) && Enabled(s, SelectI2O)
    requires OneError(s.i2oCh.value) && s.clientStreaming
    ensures var t, w' := Next(s, SelectI2O), Note(w, SelectI2O); TiedMain(t, w') && TiedRequests(t, w') && TiedResponses(t, w')
  {
    hide *;
    SelectsRequests(s, w);
    TakesRequests(s);
    var t, w' := OnI2O(s, s.i2oCh.value), w.(choice := Some(SelectI2O));
    MainTookRequests(s, t, w);
    RequestsTaken(s, t, w);
    ResponsesStay(s, t, w);
  }

  lemma SelectsRequests(s: State, w: Seen)
    requires Enabled(s, SelectI2O)
    ensures s.main == Selecting && s.i2oCh.Some? && Next(s, SelectI2O) == OnI2O(s, s.i2oCh.value)
    ensures Note(w, SelectI2O) == w.(choice := Some(SelectI2O))
  {
    hide OnI2O;
  }

  predicate TookRequests(s: State, t: State) {
    && s.i2oCh.Some? && OneError(s.i2oCh.value)
    && t == s.(i2oCh := None, taken := t.taken, outLog := t.outLog, main := t.main)
    && var p := s.i2oCh.value;
       if IsEOF(p.incomingErr) || IsEOF(p.outgoingErr) then t.main == Selecting && t.outLog == s.outLog + [CloseSend]
       else t.main == Closing(Failed(if p.incomingErr.Some? then p.incomingErr.value else p.outgoingErr.value))
  }

  lemma MainTookRequests(s: State, t: State, w: Seen)
    requires TiedMain(s, w) && TiedRequests(s, w) && s.main == Selecting && s.clientStreaming && TookRequests(s, t)
    ensures TiedMain(t, w.(choice := Some(SelectI2O)))
  {
  }

  lemma RequestsTaken(s: State, t: State, w: Seen)
    requires TiedRequests(s, w) && TookRequests(s, t)
    ensures TiedRequests(t, w.(choice := Some(SelectI2O)))
  {
  }

  lemma ResponsesStay(s: State, t: State, w: Seen)
    requires TiedResponses(s, w) && TookRequests(s, t)
    ensures TiedResponses(t, w.(choice := Some(SelectI2O)))
  {
  }

  lemma SelectedResponses(s: State, w: Seen)
    requires TiedMain(s, w) && TiedRequests(s, w) && TiedResponses(s, w) && Enabled(s, SelectO2I)
    requires ResponseInv(s)
    ensures var t, w' := Next(s, SelectO2I), Note(w, SelectO2I); TiedMain(t, w') && TiedRequests(t, w') && TiedResponses(t, w')
  {
    var p := s.o2iCh.value;
    DoneVerdict(s, w, p);
    hide ResponseInv, ResponseVerdict;
  }

  /** What the response side hands over is its verdict. */
  lemma DoneVerdict(s: State, w: Seen, p: ForwardError)
    requires ResponseInv(s) && TiedResponses(s, w) && s.o2iCh == Some(p)
    ensures ResponseVerdict(s.serverStreaming, w)
              == (if p.incomingErr.Some? then Failed(p.incomingErr.value) else if p.outgoingErr.Some? then Failed(p.outgoingErr.value) else Success)
  {
    assert HandedOver(s, p);
    if s.serverStreaming {
      assert StreamDone(s, p);
    } else {
      assert UnaryDone(s, p);
    }
    hide ResponseInv, Shown;
  }

  // ---- every run -------------------------------------------------------------------------

  lemma TiedParts(s: State, w: Seen)
    ensures Tied(s, w) <==> Inv(s) && TiedRequests(s, w) && TiedResponses(s, w) && TiedMain(s, w)
    ensures Inv(s) ==> MainInv(s) && ChannelInv(s) && RequestInv(s) && ResponseInv(s)
  {
    hide MainInv, ChannelInv, RequestInv, ResponseInv, TiedRequests, TiedResponses, TiedMain;
  }

  lemma StepKinds(s: State, step: Step)
    requires MainInv(s) && ChannelInv(s) && Enabled(s, step)
    ensures ByI2O(step) || ByO2I(step) || BySelect(step) || ByOpening(step) || ByDefer(step) || step.ContextDone?
    ensures ByI2O(step) || step.SelectI2O? ==> s.clientStreaming && s.streamOpen
    ensures ByI2O(step) ==> !s.main.Start? && !s.main.NeedStream? && !s.main.NeedSend? && !s.main.NeedClose?
    ensures step.SelectI2O? ==> OneError(s.i2oCh.value)
  {
  }

  lemma TiedStep(s: State, w: Seen, step: Step)
    requires Tied(s, w) && Enabled(s, step)
    ensures Tied(Next(s, step), Note(w, step))
  {
    hide *;
    TiedParts(s, w);
    StepKinds(s, step);
    InvStep(s, step);
    if ByI2O(step) {
      RequestsByI2O(s, w, step);
      ResponsesByI2O(s, w, step);
      MainByRequests(s, w, step);
    } else if ByO2I(step) {
      RequestsByO2I(s, w, step);
      ResponsesByO2I(s, w, step);
      MainByResponses(s, w, step);
    } else if BySelect(step) {
      TiedBySelect(s, w, step);
    } else {
      RequestsByMain(s, w, step);
      ResponsesByMain(s, w, step);
      if ByOpening(step) { MainByOpening(s, w, step); } else { MainByDefer(s, w, step); }
    }
    TiedParts(Next(s, step), Note(w, step));
  }

  lemma TiedBySelect(s: State, w: Seen, step: Step)
    requires TiedMain(s, w) && TiedRequests(s, w) && TiedResponses(s, w) && ResponseInv(s) && BySelect(step) && Enabled(s, step)
    requires step.SelectI2O? ==> OneError(s.i2oCh.value) && s.clientStreaming
    ensures var t, w' := Next(s, step), Note(w, step); TiedMain(t, w') && TiedRequests(t, w') && TiedResponses(t, w')
  {
    hide Next, Enabled, Note, TiedMain, TiedRequests, TiedResponses, ResponseInv;
    match step {
      case SelectDone(e) => SelectedDone(s, w, e);
      case SelectI2O => SelectedRequests(s, w);
      case SelectO2I => SelectedResponses(s, w);
    }
  }

  lemma {:induction false} TiedRun(s: State, w: Seen, steps: seq<Step>)
    requires Tied(s, w) && Run(s, steps).Some?
    ensures Tied(Run(s, steps).value, Noted(w, steps))
    decreases |steps|
  {
    if steps != [] {
      hide Tied, Next, Enabled, Note;
      TiedStep(s, w, steps[0]);
      TiedRun(Next(s, steps[0]), Note(w, steps[0]), steps[1..]);
    }
  }

  /** Whatever the interleaving, Forward returns the verdict of what its streams and its context answered; the context
      decides only once it is done. */
  lemma ReturnsVerdict(clientStreaming: bool, serverStreaming: bool, steps: seq<Step>)
    requires var s := Run(Init(clientStreaming, serverStreaming), steps); s.Some? && s.value.main.Returned?
    ensures var w := Noted(NOTHING, steps);
            && Run(Init(clientStreaming, serverStreaming), steps).value.main.r == Verdict(clientStreaming, serverStreaming, w)
            && (w.choice.Some? && w.choice.value.SelectDone? ==> w.done)
            && (serverStreaming && w.choice == Some(SelectO2I) ==> (w.outgoingEnd.Some? <==> w.deliverErr.None?))
  {
    hide Inv, Tied, Verdict, Run, Noted;
    TiedInit(clientStreaming, serverStreaming);
    TiedRun(Init(clientStreaming, serverStreaming), NOTHING, steps);
    VerdictReached(Run(Init(clientStreaming, serverStreaming), steps).value, Noted(NOTHING, steps));
    InvInit(clientStreaming, serverStreaming);
    SameCall(Init(clientStreaming, serverStreaming), steps);
  }

  lemma VerdictReached(s: State, w: Seen)
    requires Tied(s, w) && s.main.Returned?
    ensures s.main.r == Verdict(s.clientStreaming, s.serverStreaming, w)
    ensures w.choice.Some? && w.choice.value.SelectDone? ==> w.done
    ensures s.serverStreaming && w.choice == Some(SelectO2I) ==> (w.outgoingEnd.Some? <==> w.deliverErr.None?)
  {
    hide Verdict, MainInv, ChannelInv, RequestInv, StreamInv, UnaryInv, TiedRequests;
    if s.serverStreaming && w.choice == Some(SelectO2I) { StreamEnded(s); }
  }

  /** A streamed response that is over either was ended by the server or could not be sent on. */
  lemma StreamEnded(s: State)
    requires ChannelInv(s) && ResponseInv(s) && s.serverStreaming && s.o2i.OExited?
    ensures s.outgoingEnd.Some? <==> !s.inFailed
  {
    LastResult(s);
    var p :| HandedOver(s, p);
    hide ChannelInv, HandedOver, Shown;
    assert StreamDone(s, p);
  }

  /** A call with streamed responses whose response side decides returns nil if and only if the server ended the stream
      with EOF and every message could be sent on. */
  lemma NilExactly(clientStreaming: bool, steps: seq<Step>)
    requires var s := Run(Init(clientStreaming, true), steps); s.Some? && s.value.main.Returned?
    requires var w := Noted(NOTHING, steps);
             w.choice == Some(SelectO2I) && w.openErr.None? && (clientStreaming || (w.incomingEnd.None? && w.sendErr.None?))
    ensures var w := Noted(NOTHING, steps);
            Run(Init(clientStreaming, true), steps).value.main.r == Success <==> w.outgoingEnd == Some(EOF) && w.deliverErr.None?
  {
    hide Run, Noted;
    ReturnsVerdict(clientStreaming, true, steps);
  }

  lemma {:induction false} SameCall(s: State, steps: seq<Step>)
    requires Inv(s) && Run(s, steps).Some?
    ensures var t := Run(s, steps).value; t.clientStreaming == s.clientStreaming && t.serverStreaming == s.serverStreaming
    decreases |steps|
  {
    if steps != [] {
      hide Inv, Next, Enabled;
      InvParts(s);
      SameFlags(s, steps[0]);
      InvStep(s, steps[0]);
      SameCall(Next(s, steps[0]), steps[1..]);
    }
  }

  lemma InvParts(s: State)
    requires Inv(s)
    ensures ChannelInv(s)
  {
    hide MainInv, ChannelInv, RequestInv, ResponseInv;
  }

  predicate SameKind(s: State, t: State) {
    t.clientStreaming == s.clientStreaming && t.serverStreaming == s.serverStreaming
  }

  lemma SameFlags(s: State, step: Step)
    requires ChannelInv(s) && Enabled(s, step)
    ensures SameKind(s, Next(s, step))
  {
    hide ChannelInv, Next, Enabled, SameKind;
    if ByI2O(step) { FlagsByI2O(s, step); }
    else if ByO2I(step) { FlagsByO2I(s, step); }
    else if BySelect(step) { FlagsBySelect(s, step); }
    else if step.Launch? { FlagsByLaunch(s); }
    else { FlagsByMain(s, step); }
  }

  lemma FlagsByI2O(s: State, step: Step)
    requires ByI2O(step) && Enabled(s, step)
    ensures SameKind(s, Next(s, step))
  {
    I2OFrame(s, step);
    hide Next, Enabled;
  }

  lemma FlagsByO2I(s: State, step: Step)
    requires ByO2I(step) && Enabled(s, step)
    ensures SameKind(s, Next(s, step))
  {
    O2IFrame(s, step);
    hide Next, Enabled;
  }

  lemma FlagsByMain(s: State, step: Step)
    requires !ByI2O(step) && !ByO2I(step) && !BySelect(step) && !step.Launch? && Enabled(s, step)
    ensures SameKind(s, Next(s, step))
  {
    hide Next, Enabled;
    MainFrame(s, step);
  }

  lemma FlagsByLaunch(s: State)
    requires Enabled(s, Launch)
    ensures SameKind(s, Next(s, Launch))
  {
  }

  lemma FlagsBySelect(s: State, step: Step)
    requires ChannelInv(s) && BySelect(step) && Enabled(s, step)
    ensures SameKind(s, Next(s, step))
  {
    hide OnI2O;
    if step.SelectI2O? { TakesRequests(s); }
  }

  /** Once the request side's EOF was taken, or the unary request went out, a CloseSend is out: the server learns that
      no more requests come. */
  lemma ServerToldOfEnd(clientStreaming: bool, serverStreaming: bool, steps: seq<Step>)
    requires Run(Init(clientStreaming, serverStreaming), steps).Some?
    ensures var s, w := Run(Init(clientStreaming, serverStreaming), steps).value, Noted(NOTHING, steps);
            && (clientStreaming && s.main.Selecting? && w.choice == Some(SelectI2O) ==>
                  CloseSend in s.outLog && (IsEOF(w.incomingEnd) || IsEOF(w.sendErr)))
            && (!clientStreaming && s.main.Selecting? ==> CloseSend in s.outLog)
  {
    hide Inv, Tied, Run, Noted;
    TiedInit(clientStreaming, serverStreaming);
    TiedRun(Init(clientStreaming, serverStreaming), NOTHING, steps);
    InvInit(clientStreaming, serverStreaming);
    SameCall(Init(clientStreaming, serverStreaming), steps);
    var s := Run(Init(clientStreaming, serverStreaming), steps).value;
    if s.main.Selecting? { ToldOfEnd(s, Noted(NOTHING, steps)); }
  }

  lemma ToldOfEnd(s: State, w: Seen)
    requires Tied(s, w) && s.main.Selecting?
    ensures s.clientStreaming && w.choice == Some(SelectI2O) ==> CloseSend in s.outLog && (IsEOF(w.incomingEnd) || IsEOF(w.sendErr))
    ensures !s.clientStreaming ==> CloseSend in s.outLog
  {
    hide ChannelInv, RequestInv, ResponseInv, TiedResponses, Verdict;
  }
}
