/** execFileDescriptorRequests of reflection/client.go as a system of interleaved steps: the caller, the requester and
    the receiver, the semaphore between them, and a stream that answers as it pleases. */
module PipelinedClient {
  import opened Text

  type Bytes = seq<bv8>

  /** Errors of stream operations, of the context, and of answers that are no file descriptors. */
  datatype Err = Err(code: int)

  /** The response to one request: its files, or why there are none. */
  datatype Answer = Files(files: seq<Bytes>) | NoFiles(e: Err)

  datatype Result = Ok(files: seq<Bytes>) | Error(e: Err)

  /** The calling goroutine; `seen` results were nil so far. */
  datatype Main = Collecting(seen: nat) | Cancelling(r: Result) | Waiting(r: Result) | Returned(r: Result)

  /** fileDescriptorsRequester, about to send request `i`, or to release barrier `i`. */
  datatype Requester = Sending(i: nat) | Releasing(i: nat) | SReport(err: Option<Err>) | SExited

  /** fileDescriptorsReceiver at barrier `i`, or receiving response `i`; then its result is stored and reported. */
  datatype Receiver =
    | AtBarrier(i: nat) | Receiving(i: nat) | RStore(err: Option<Err>) | RReport(err: Option<Err>) | RExited

  datatype State = State(
    requests: seq<string>,
    main: Main, requester: Requester, receiver: Receiver,
    semaphore: nat,                    // values in the channel of capacity |requests|
    sendCh: Option<Option<Err>>, recvCh: Option<Option<Err>>,
    cancelled: bool,
    sent: seq<string>,                 // requests sent
    awaited: nat,                      // responses waited for
    answers: seq<seq<Bytes>>,          // responses received
    gathered: seq<Bytes>,              // the receiver's files
    res: seq<Bytes>,
    taken: seq<Taken>)                 // results the caller took

  datatype Taken = FromRequester(err: Option<Err>) | FromReceiver(err: Option<Err>)

  function Init(requests: seq<string>): State {
    State(requests, if requests == [] then Returned(Ok([])) else Collecting(0),
          if requests == [] then SExited else Sending(0), if requests == [] then RExited else AtBarrier(0),
          0, None, None, false, [], 0, [], [], [], [])
  }

  datatype Step =
    | Send(err: Option<Err>) | Release | ReportSent
    | Acquire | GiveUp(ctxErr: Err) | Receive(answer: Answer) | Store | ReportReceived
    | TakeSent | TakeReceived | Cancel | WaitDone

  predicate Running(s: State) {
    !s.requester.SExited? || !s.receiver.RExited?
  }

  predicate Enabled(s: State, step: Step) {
    match step
    case Send(_) => s.requester.Sending? && s.requester.i < |s.requests|
    case Release => s.requester.Releasing? && s.semaphore < |s.requests|
    case ReportSent => s.requester.SReport? && s.sendCh.None?
    case Acquire => s.receiver.AtBarrier? && s.semaphore > 0
    case GiveUp(_) => s.receiver.AtBarrier? && s.cancelled
    case Receive(_) => s.receiver.Receiving?
    case Store => s.receiver.RStore?
    case ReportReceived => s.receiver.RReport? && s.recvCh.None?
    case TakeSent => s.main.Collecting? && s.sendCh.Some?
    case TakeReceived => s.main.Collecting? && s.recvCh.Some?
    case Cancel => s.main.Cancelling?
    case WaitDone => s.main.Waiting? && !Running(s)
  }

  /** What the caller makes of one result. */
  function Collected(s: State, err: Option<Err>): Main
    requires s.main.Collecting?
  {
    match err
    case Some(e) => Cancelling(Error(e))
    case None => if s.main.seen == 1 then Cancelling(Ok(s.res)) else Collecting(s.main.seen + 1)
  }

  function AfterReceive(s: State, answer: Answer): State
    requires s.receiver.Receiving?
  {
    match answer
    case NoFiles(e) => s.(receiver := RStore(Some(e)), gathered := [])
    case Files(files) =>
      var i := s.receiver.i + 1;
      s.(answers := s.answers + [files], gathered := s.gathered + files,
         receiver := if i == |s.requests| then RStore(None) else AtBarrier(i))
  }

  function Next(s: State, step: Step): State
    requires Enabled(s, step)
  {
    match step
    case Send(None) => s.(sent := s.sent + [s.requests[s.requester.i]], requester := Releasing(s.requester.i))
    case Send(Some(e)) => s.(requester := SReport(Some(e)))
    case Release =>
      var i := s.requester.i + 1;
      s.(semaphore := s.semaphore + 1, requester := if i == |s.requests| then SReport(None) else Sending(i))
    case ReportSent => s.(sendCh := Some(s.requester.err), requester := SExited)
    case Acquire => s.(semaphore := s.semaphore - 1, awaited := s.awaited + 1, receiver := Receiving(s.receiver.i))
    case GiveUp(e) => s.(receiver := RStore(Some(e)), gathered := [])
    case Receive(answer) => AfterReceive(s, answer)
    case Store => s.(res := s.gathered, receiver := RReport(s.receiver.err))
    case ReportReceived => s.(recvCh := Some(s.receiver.err), receiver := RExited)
    case TakeSent => s.(sendCh := None, taken := s.taken + [FromRequester(s.sendCh.value)], main := Collected(s, s.sendCh.value))
    case TakeReceived => s.(recvCh := None, taken := s.taken + [FromReceiver(s.recvCh.value)], main := Collected(s, s.recvCh.value))
    case Cancel => s.(cancelled := true, main := Waiting(s.main.r))
    case WaitDone => s.(main := Returned(s.main.r))
  }

  /** The state after a run of enabled steps. */
  function Run(s: State, steps: seq<Step>): Option<State>
    decreases |steps|
  {
    if steps == [] then Some(s)
    else if !Enabled(s, steps[0]) then None
    else Run(Next(s, steps[0]), steps[1..])
  }

  ghost predicate Reachable(s: State) {
    exists requests, steps :: Run(Init(requests), steps) == Some(s)
  }

  /** In-order concatenation. */
  function Flat(answers: seq<seq<Bytes>>): seq<Bytes>
    decreases |answers|
  {
    if answers == [] then [] else Flat(answers[..|answers| - 1]) + answers[|answers| - 1]
  }

  // ---- invariant -----------------------------------------------------------------------

  /** How many barriers the requester has released. */
  function Released(s: State): int {
    s.semaphore + s.awaited
  }

  predicate RequesterInv(s: State) {
    && |s.sent| <= |s.requests| && s.sent == s.requests[..|s.sent|]
    && (match s.requester
        case Sending(i) => i < |s.requests| && |s.sent| == i == Released(s)
        case Releasing(i) => i < |s.requests| && |s.sent| == i + 1 && Released(s) == i
        case SReport(err) => |s.sent| == Released(s) && (err.None? ==> |s.sent| == |s.requests|)
        case SExited => |s.sent| == Released(s))
    && (s.sendCh.Some? ==> s.requester.SExited? && FromRequester(None) !in s.taken
                           && (s.sendCh.value.None? ==> |s.sent| == |s.requests|))
    && (FromRequester(None) in s.taken ==> s.requester.SExited? && |s.sent| == |s.requests|)
  }

  predicate ReceiverInv(s: State) {
    && |s.answers| <= s.awaited <= |s.requests|
    && (match s.receiver
        case AtBarrier(i) => i < |s.requests| && s.awaited == i == |s.answers| && s.gathered == Flat(s.answers)
        case Receiving(i) => i < |s.requests| && s.awaited == i + 1 && |s.answers| == i && s.gathered == Flat(s.answers)
        case RStore(err) => if err.None? then |s.answers| == |s.requests| && s.gathered == Flat(s.answers) else s.gathered == []
        case RReport(err) => err.None? ==> ResultIn(s)
        case RExited => true)
    && (s.recvCh.Some? ==> s.receiver.RExited? && FromReceiver(None) !in s.taken && (s.recvCh.value.None? ==> ResultIn(s)))
    && (FromReceiver(None) in s.taken ==> s.receiver.RExited? && ResultIn(s))
  }

  /** Every response is in, and the shared result is their concatenation. */
  predicate ResultIn(s: State) {
    |s.answers| == |s.requests| && s.res == Flat(s.answers)
  }

  /** Nothing is lost between a goroutine and the caller. */
  predicate MainInv(s: State) {
    match s.main
    case Collecting(seen) =>
      && !s.cancelled && s.requests != []
      && (s.requester.SExited? ==> s.sendCh.Some? || FromRequester(None) in s.taken)
      && (s.receiver.RExited? ==> s.recvCh.Some? || FromReceiver(None) in s.taken)
      && s.taken == (if seen == 0 then [] else if FromRequester(None) in s.taken then [FromRequester(None)] else [FromReceiver(None)])
      && seen <= 1
    case Cancelling(r) => Decided(s, r)
    case Waiting(r) => s.cancelled && Decided(s, r)
    case Returned(r) => !Running(s) && Decided(s, r) && (s.cancelled || s.requests == [])
  }

  /** There is no error if and only if both results were nil, and an error is one of the results. */
  predicate Decided(s: State, r: Result) {
    |s.taken| <= 2
    && (r.Ok? && s.requests != [] ==> FromRequester(None) in s.taken && FromReceiver(None) in s.taken && r.files == s.res)
    && (r.Error? ==> FromRequester(Some(r.e)) in s.taken || FromReceiver(Some(r.e)) in s.taken)
    && (FromRequester(None) in s.taken && FromReceiver(None) in s.taken ==> r.Ok?)
    && (s.requests == [] ==> r == Ok([]))
  }

  predicate Inv(s: State) {
    RequesterInv(s) && ReceiverInv(s) && MainInv(s)
  }

  lemma InvInit(requests: seq<string>)
    ensures Inv(Init(requests))
  {
    hide *;
    RequesterInit(requests);
    ReceiverInit(requests);
    MainInit(requests);
    InvParts(Init(requests));
  }

  lemma RequesterInit(requests: seq<string>)
    ensures RequesterInv(Init(requests))
  {
    assert requests[..0] == [];
  }

  lemma ReceiverInit(requests: seq<string>)
    ensures ReceiverInv(Init(requests))
  {
    assert Flat([]) == [];
  }

  lemma MainInit(requests: seq<string>)
    ensures MainInv(Init(requests))
  {
  }

  lemma InvParts(s: State)
    ensures Inv(s) <==> RequesterInv(s) && ReceiverInv(s) && MainInv(s)
  {
    hide RequesterInv, ReceiverInv, MainInv;
  }

  lemma FlatMore(answers: seq<seq<Bytes>>, files: seq<Bytes>)
    ensures Flat(answers + [files]) == Flat(answers) + files
  {
    assert (answers + [files])[..|answers|] == answers;
  }

  lemma InvStep(s: State, step: Step)
    requires Inv(s) && Enabled(s, step)
    ensures Inv(Next(s, step))
  {
    hide *;
    InvParts(s);
    if step.TakeSent? || step.TakeReceived? || step.Cancel? || step.WaitDone? {
      MainStep(s, step);
    } else if step.Send? || step.Release? || step.ReportSent? {
      RequesterStep(s, step);
    } else {
      ReceiverStep(s, step);
    }
    InvParts(Next(s, step));
  }

  lemma MainStep(s: State, step: Step)
    requires RequesterInv(s) && ReceiverInv(s) && MainInv(s) && Enabled(s, step)
    requires step.TakeSent? || step.TakeReceived? || step.Cancel? || step.WaitDone?
    ensures var t := Next(s, step); RequesterInv(t) && ReceiverInv(t) && MainInv(t)
  {
    hide Flat;
  }

  lemma RequesterStep(s: State, step: Step)
    requires RequesterInv(s) && ReceiverInv(s) && MainInv(s) && Enabled(s, step)
    requires step.Send? || step.Release? || step.ReportSent?
    ensures var t := Next(s, step); RequesterInv(t) && ReceiverInv(t) && MainInv(t)
  {
    hide Flat;
  }

  lemma ReceiverStep(s: State, step: Step)
    requires RequesterInv(s) && ReceiverInv(s) && MainInv(s) && Enabled(s, step)
    requires step.Acquire? || step.GiveUp? || step.Receive? || step.Store? || step.ReportReceived?
    ensures var t := Next(s, step); RequesterInv(t) && ReceiverInv(t) && MainInv(t)
  {
    hide Flat;
    if step.Receive? && step.answer.Files? {
      FlatMore(s.answers, step.answer.files);
    }
  }

  lemma {:induction false} InvRun(s: State, steps: seq<Step>)
    requires Inv(s) && Run(s, steps).Some?
    ensures Inv(Run(s, steps).value)
    decreases |steps|
  {
    if steps != [] {
      InvStep(s, steps[0]);
      hide Inv, Next, Enabled;
      InvRun(Next(s, steps[0]), steps[1..]);
    }
  }

  lemma ReachableInv(s: State)
    requires Reachable(s)
    ensures Inv(s)
  {
    var requests, steps :| Run(Init(requests), steps) == Some(s);
    InvInit(requests);
    InvRun(Init(requests), steps);
  }

  // ---- properties ----------------------------------------------------------------------

  /** Requests go out in order; responses are only waited for when their requests were sent; the semaphore has room
      whenever the requester releases a barrier. */
  lemma AwaitedWereSent(s: State)
    requires Reachable(s)
    ensures s.sent <= s.requests && s.awaited <= |s.sent| && |s.answers| <= s.awaited
    ensures s.semaphore <= |s.requests| && (s.requester.Releasing? ==> Enabled(s, Release))
  {
    ReachableInv(s);
    hide Flat;
  }

  /** A result without error is the in-order concatenation of the responses to all requests, each of which was sent. */
  lemma NilMeansAll(s: State)
    requires Reachable(s) && s.main.Returned? && s.main.r.Ok?
    ensures s.sent == s.requests && |s.answers| == |s.requests| && s.main.r.files == Flat(s.answers)
  {
    ReachableInv(s);
  }

  /** When both results were nil the call returns the responses; an error it returns is the error of a result. */
  lemma BothNilMeansAll(s: State)
    requires Reachable(s) && s.main.Returned? && s.requests != []
    ensures FromRequester(None) in s.taken && FromReceiver(None) in s.taken <==> s.main.r == Ok(Flat(s.answers))
    ensures s.main.r.Error? <==> !(FromRequester(None) in s.taken && FromReceiver(None) in s.taken)
    ensures s.main.r.Error? ==> FromRequester(Some(s.main.r.e)) in s.taken || FromReceiver(Some(s.main.r.e)) in s.taken
  {
    ReachableInv(s);
    hide Flat;
  }

  /** Neither goroutine outlives the call, and both were cancelled before it waited for them. */
  lemma NoneOutlives(s: State)
    requires Reachable(s)
    ensures s.main.Returned? ==> !Running(s)
    ensures s.main.Waiting? ==> s.cancelled
    ensures |s.taken| <= 2
  {
    ReachableInv(s);
    hide Flat;
  }

  /** No interleaving gets stuck before the call has returned. */
  lemma NeverStuck(s: State)
    requires Reachable(s) && !s.main.Returned?
    ensures exists step: Step :: Enabled(s, step)
  {
    ReachableInv(s);
    hide Flat;
    var step;
    if !s.requester.SExited? {
      step := match s.requester case Sending(_) => Send(None) case Releasing(_) => Release case _ => ReportSent;
    } else if s.main.Cancelling? {
      step := Cancel;
    } else if s.receiver.Receiving? {
      step := Receive(NoFiles(Err(0)));
    } else if s.receiver.RStore? {
      step := Store;
    } else if s.receiver.RReport? {
      step := ReportReceived;
    } else if s.main.Collecting? {
      step := if s.sendCh.Some? then TakeSent else if s.recvCh.Some? then TakeReceived else Acquire;
    } else {
      step := if s.receiver.AtBarrier? then GiveUp(Err(0)) else WaitDone;
    }
    assert Enabled(s, step);
  }

  function Rank(s: State): int {
    (match s.requester
     case Sending(i) => 2 * (|s.requests| - i) + 2 case Releasing(i) => 2 * (|s.requests| - i) + 1
     case SReport(_) => 2 case SExited => 0)
    + (match s.receiver
       case AtBarrier(i) => 2 * (|s.requests| - i) + 4 case Receiving(i) => 2 * (|s.requests| - i) + 3
       case RStore(_) => 4 case RReport(_) => 2 case RExited => 0)
    + (match s.main case Collecting(seen) => 5 - seen case Cancelling(_) => 3 case Waiting(_) => 2 case Returned(_) => 0)
  }

  /** Every run is finite: each step brings the call nearer to its end. */
  lemma {:induction false} RunsEnd(s: State, steps: seq<Step>)
    requires Inv(s) && Run(s, steps).Some?
    ensures |steps| <= Rank(s)
    decreases |steps|
  {
    hide Inv, Next, Enabled, Rank;
    if steps == [] {
      RankIsNatural(s);
    } else {
      InvStep(s, steps[0]);
      RankDrops(s, steps[0]);
      RunsEnd(Next(s, steps[0]), steps[1..]);
    }
  }

  lemma RankIsNatural(s: State)
    requires Inv(s)
    ensures Rank(s) >= 0
  {
    hide Flat, ResultIn, Decided;
  }

  lemma RankDrops(s: State, step: Step)
    requires Inv(s) && Enabled(s, step)
    ensures 0 <= Rank(Next(s, step)) < Rank(s)
  {
    hide *;
    InvParts(s);
    InvStep(s, step);
    RankIsNatural(Next(s, step));
    if step.TakeSent? || step.TakeReceived? || step.Cancel? || step.WaitDone? {
      MainDrops(s, step);
    } else if step.Send? || step.Release? || step.ReportSent? {
      RequesterDrops(s, step);
    } else {
      ReceiverDrops(s, step);
    }
  }

  lemma MainDrops(s: State, step: Step)
    requires MainInv(s) && Enabled(s, step)
    requires step.TakeSent? || step.TakeReceived? || step.Cancel? || step.WaitDone?
    ensures Rank(Next(s, step)) < Rank(s)
  {
    hide Decided;
  }

  lemma RequesterDrops(s: State, step: Step)
    requires RequesterInv(s) && Enabled(s, step)
    requires step.Send? || step.Release? || step.ReportSent?
    ensures Rank(Next(s, step)) < Rank(s)
  {
  }

  lemma ReceiverDrops(s: State, step: Step)
    requires ReceiverInv(s) && Enabled(s, step)
    requires step.Acquire? || step.GiveUp? || step.Receive? || step.Store? || step.ReportReceived?
    ensures Rank(Next(s, step)) < Rank(s)
  {
    hide Flat, ResultIn;
  }

  /** Every call takes a bounded number of steps, whatever the interleaving and the answers. */
  lemma CallEnds(requests: seq<string>, steps: seq<Step>)
    requires Run(Init(requests), steps).Some?
    ensures |steps| <= 4 * |requests| + 11
  {
    hide *;
    InvInit(requests);
    RunsEnd(Init(requests), steps);
    FirstRank(requests);
  }

  lemma FirstRank(requests: seq<string>)
    ensures Rank(Init(requests)) <= 4 * |requests| + 11
  {
  }
}
