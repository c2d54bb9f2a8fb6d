/** What the pipelined exchange returns, told from the answers of its stream and of the context alone. */
module PipelinedOutcome {
  import opened Text
  import opened PipelinedClient

  /** How the requester and the receiver failed, the responses that came, and whose result the caller took last. */
  datatype Seen = Seen(sendErr: Option<Err>, recvErr: Option<Err>, answers: seq<seq<Bytes>>, last: Option<Step>)

  const NOTHING := Seen(None, None, [], None)

  function Note(w: Seen, step: Step): Seen {
    match step
    case Send(Some(e)) => w.(sendErr := Some(e))
    case GiveUp(e) => w.(recvErr := Some(e))
    case Receive(NoFiles(e)) => w.(recvErr := Some(e))
    case Receive(Files(files)) => w.(answers := w.answers + [files])
    case TakeSent => w.(last := Some(step))
    case TakeReceived => w.(last := Some(step))
    case _ => w
  }

  function Noted(w: Seen, steps: seq<Step>): Seen
    decreases |steps|
  {
    if steps == [] then w else Noted(Note(w, steps[0]), steps[1..])
  }

  /** The error of the side whose result was taken last, if it failed; else all responses in order. */
  function Verdict(requests: seq<string>, w: Seen): Result {
    if requests == [] then Ok([])
    else if w.last == Some(TakeSent) && w.sendErr.Some? then Error(w.sendErr.value)
    else if w.last == Some(TakeReceived) && w.recvErr.Some? then Error(w.recvErr.value)
    else Ok(Flat(w.answers))
  }

  // ---- the invariant ---------------------------------------------------------------------

  /** The requester hands over just how sending ended. */
  predicate TiedRequester(s: State, w: Seen) {
    && (s.requester.Sending? || s.requester.Releasing? ==> w.sendErr.None?)
    && (s.requester.SReport? ==> s.requester.err == w.sendErr)
    && (s.sendCh.Some? ==> s.requester.SExited? && s.sendCh.value == w.sendErr)
  }

  /** The receiver hands over just how receiving ended. */
  predicate TiedReceiver(s: State, w: Seen) {
    && w.answers == s.answers
    && (s.receiver.AtBarrier? || s.receiver.Receiving? ==> w.recvErr.None?)
    && (s.receiver.RStore? ==> s.receiver.err == w.recvErr)
    && (s.receiver.RReport? ==> s.receiver.err == w.recvErr)
    && (s.recvCh.Some? ==> s.receiver.RExited? && s.recvCh.value == w.recvErr)
  }

  /** Taken last from the side that has exited. */
  predicate TookLast(s: State, w: Seen) {
    && (w.last == Some(TakeSent) ==> s.requester.SExited?)
    && (w.last == Some(TakeReceived) ==> s.receiver.RExited?)
    && (w.last.Some? ==> w.last.value.TakeSent? || w.last.value.TakeReceived?)
  }

  /** The result stands, and what it came from does not change any more. */
  predicate Stands(s: State, w: Seen, r: Result) {
    && r == Verdict(s.requests, w)
    && (s.requests != [] ==> w.last.Some?)
    && (r.Ok? && s.requests != [] ==>
          s.requester.SExited? && s.receiver.RExited? && w.sendErr.None? && w.recvErr.None?)
  }

  predicate TiedMain(s: State, w: Seen) {
    && TookLast(s, w)
    && match s.main
       case Collecting(seen) =>
         && (seen == 0 ==> w.last.None?)
         && (seen == 1 ==>
               || (w.last == Some(TakeSent) && w.sendErr.None? && s.sendCh.None?)
               || (w.last == Some(TakeReceived) && w.recvErr.None? && s.recvCh.None?))
       case Cancelling(r) => Stands(s, w, r)
       case Waiting(r) => Stands(s, w, r)
       case Returned(r) => Stands(s, w, r)
  }

  predicate Tied(s: State, w: Seen) {
    Inv(s) && TiedRequester(s, w) && TiedReceiver(s, w) && TiedMain(s, w)
  }

  lemma TiedInit(requests: seq<string>)
    ensures Tied(Init(requests), NOTHING)
  {
    InvInit(requests);
    hide Inv, Flat;
  }

  predicate ByRequester(step: Step) { step.Send? || step.Release? || step.ReportSent? }

  predicate ByMain(step: Step) { step.TakeSent? || step.TakeReceived? || step.Cancel? || step.WaitDone? }

  // ---- preservation ----------------------------------------------------------------------

  lemma RequesterTied(s: State, w: Seen, step: Step)
    requires TiedRequester(s, w) && TiedReceiver(s, w) && ByRequester(step) && Enabled(s, step)
    ensures TiedRequester(Next(s, step), Note(w, step)) && TiedReceiver(Next(s, step), Note(w, step))
  {
  }

  lemma RequesterStands(s: State, w: Seen, step: Step)
    requires TiedMain(s, w) && ByRequester(step) && Enabled(s, step)
    ensures TiedMain(Next(s, step), Note(w, step))
  {
    hide Flat;
  }

  lemma ReceiverTied(s: State, w: Seen, step: Step)
    requires TiedRequester(s, w) && TiedReceiver(s, w) && !ByRequester(step) && !ByMain(step) && Enabled(s, step)
    ensures TiedRequester(Next(s, step), Note(w, step)) && TiedReceiver(Next(s, step), Note(w, step))
  {
  }

  lemma ReceiverStands(s: State, w: Seen, step: Step)
    requires TiedMain(s, w) && !ByRequester(step) && !ByMain(step) && Enabled(s, step)
    ensures TiedMain(Next(s, step), Note(w, step))
  {
    hide Flat;
  }

  lemma MainTied(s: State, w: Seen, step: Step)
    requires TiedRequester(s, w) && TiedReceiver(s, w) && ByMain(step) && Enabled(s, step)
    ensures TiedRequester(Next(s, step), Note(w, step)) && TiedReceiver(Next(s, step), Note(w, step))
  {
    hide Collected;
  }

  lemma MainStands(s: State, w: Seen, step: Step)
    requires Inv(s) && TiedRequester(s, w) && TiedReceiver(s, w) && TiedMain(s, w) && ByMain(step) && Enabled(s, step)
    requires Inv(Next(s, step))
    ensures TiedMain(Next(s, step), Note(w, step))
  {
    hide Inv, Next, Note, TiedMain, TiedRequester, TiedReceiver;
    if step.TakeSent? { TakesSent(s, w); }
    else if step.TakeReceived? { TakesReceived(s, w); }
    else { MovesOn(s, w, step); }
  }

  lemma TakesSent(s: State, w: Seen)
    requires Inv(s) && TiedRequester(s, w) && TiedReceiver(s, w) && TiedMain(s, w) && Enabled(s, TakeSent)
    ensures TiedMain(Next(s, TakeSent), Note(w, TakeSent))
  {
    hide Flat;
    FirstResult(s);
  }

  lemma TakesReceived(s: State, w: Seen)
    requires Inv(s) && TiedRequester(s, w) && TiedReceiver(s, w) && TiedMain(s, w) && Enabled(s, TakeReceived)
    ensures TiedMain(Next(s, TakeReceived), Note(w, TakeReceived))
  {
    hide Flat;
    FirstResult(s);
  }

  /** The result taken first stems from the other side. */
  lemma FirstResult(s: State)
    requires Inv(s) && s.main.Collecting?
    ensures s.requests != [] && s.main.seen <= 1
    ensures s.main.seen == 1 && s.sendCh.Some? ==> FromReceiver(None) in s.taken
    ensures s.main.seen == 1 && s.recvCh.Some? ==> FromRequester(None) in s.taken
    ensures FromReceiver(None) in s.taken ==> s.receiver.RExited? && s.res == Flat(s.answers)
    ensures FromRequester(None) in s.taken ==> s.requester.SExited?
    ensures s.recvCh == Some(None) ==> s.receiver.RExited? && s.res == Flat(s.answers)
  {
    hide Flat;
  }

  lemma MovesOn(s: State, w: Seen, step: Step)
    requires TiedMain(s, w) && (step.Cancel? || step.WaitDone?) && Enabled(s, step)
    ensures TiedMain(Next(s, step), Note(w, step))
  {
    hide Flat;
  }

  lemma TiedStep(s: State, w: Seen, step: Step)
    requires Tied(s, w) && Enabled(s, step)
    ensures Tied(Next(s, step), Note(w, step))
  {
    hide *;
    TiedParts(s, w);
    InvStep(s, step);
    if ByRequester(step) {
      RequesterTied(s, w, step);
      RequesterStands(s, w, step);
    } else if ByMain(step) {
      MainTied(s, w, step);
      MainStands(s, w, step);
    } else {
      ReceiverTied(s, w, step);
      ReceiverStands(s, w, step);
    }
    TiedParts(Next(s, step), Note(w, step));
  }

  lemma TiedParts(s: State, w: Seen)
    ensures Tied(s, w) <==> Inv(s) && TiedRequester(s, w) && TiedReceiver(s, w) && TiedMain(s, w)
  {
    hide Inv, TiedRequester, TiedReceiver, TiedMain;
  }

  lemma {:induction false} TiedRun(s: State, w: Seen, steps: seq<Step>)
    requires Tied(s, w) && Run(s, steps).Some?
    ensures Tied(Run(s, steps).value, Noted(w, steps)) && Run(s, steps).value.requests == s.requests
    decreases |steps|
  {
    if steps != [] {
      hide Tied, Next, Enabled, Note;
      TiedStep(s, w, steps[0]);
      SameRequests(s, steps[0]);
      TiedRun(Next(s, steps[0]), Note(w, steps[0]), steps[1..]);
    }
  }

  lemma SameRequests(s: State, step: Step)
    requires Enabled(s, step)
    ensures Next(s, step).requests == s.requests
  {
    hide Collected;
  }

  /** Whatever the interleaving, the call returns the verdict of what its stream and its context answered. */
  lemma ReturnsVerdict(requests: seq<string>, steps: seq<Step>)
    requires var s := Run(Init(requests), steps); s.Some? && s.value.main.Returned?
    ensures var r, w := Run(Init(requests), steps).value.main.r, Noted(NOTHING, steps);
            r == Verdict(requests, w) && (r.Ok? && requests != [] ==> w.sendErr.None? && w.recvErr.None?)
  {
    hide Run, Noted, Tied, Verdict;
    TiedInit(requests);
    TiedRun(Init(requests), NOTHING, steps);
    VerdictReached(Run(Init(requests), steps).value, Noted(NOTHING, steps));
    assert Init(requests).requests == requests;
  }

  lemma VerdictReached(s: State, w: Seen)
    requires Tied(s, w) && s.main.Returned?
    ensures s.main.r == Verdict(s.requests, w)
    ensures s.main.r.Ok? && s.requests != [] ==> w.sendErr.None? && w.recvErr.None?
  {
    hide Verdict, Inv, TiedRequester, TiedReceiver;
  }

  /** The call returns all responses, in order, if and only if neither side failed; an error is that of a side that
      failed, and of the only one if the other did not. */
  lemma ErrorsAreTheirs(requests: seq<string>, steps: seq<Step>)
    requires var s := Run(Init(requests), steps); s.Some? && s.value.main.Returned? && requests != []
    ensures var r, w := Run(Init(requests), steps).value.main.r, Noted(NOTHING, steps);
            && (r == Ok(Flat(w.answers)) <==> w.sendErr.None? && w.recvErr.None?)
            && (r.Error? ==> Some(r.e) == w.sendErr || Some(r.e) == w.recvErr)
            && (w.sendErr.Some? && w.recvErr.None? ==> r == Error(w.sendErr.value))
            && (w.sendErr.None? && w.recvErr.Some? ==> r == Error(w.recvErr.value))
  {
    hide Run, Noted, Flat;
    ReturnsVerdict(requests, steps);
  }
}
