/** The wake-up protocol of reflection/resolver.go as a system of interleaved steps: the poller, any number of ResolveNow
    callers, the channel they close, and the once-functions that close it. */
module ResolveNow {
  import opened Text

  datatype Once = Fresh | InProgress | Done

  /** A ResolveNow call: it loads the current function, calls it, and inside reads the field and closes what it read. */
  datatype Caller = Loaded(f: nat) | Inside(f: nat, ch: Option<nat>) | Finished

  /** watch: resolving, in the select, or in newResolveNow between its two assignments. */
  datatype Poller = Resolving | Selecting | Making | Storing | Stopped

  datatype State = State(
    field: nat,             // the channel in r.resolveNow
    closes: seq<nat>,       // how often each channel ever made was closed
    notify: nat,            // the function in r.notifyResolveNow
    once: seq<Once>,        // every function ever made
    callers: seq<Caller>,
    poller: Poller,
    pending: bool)          // ResolveNow was called since resolve() last started

  const INIT := State(0, [0], 0, [Fresh], [], Resolving, false)

  datatype Step =
    | Request | Call(i: nat) | ReadField(i: nat) | CloseChannel(i: nat)
    | ResolveDone | IntervalOver | Woken | Make | StoreFunction | StopPoller

  predicate Enabled(s: State, step: Step) {
    match step
    case Request => s.notify < |s.once|
    case Call(i) => i < |s.callers| && s.callers[i].Loaded? && s.callers[i].f < |s.once| && s.once[s.callers[i].f] != InProgress
    case ReadField(i) => i < |s.callers| && s.callers[i].Inside? && s.callers[i].ch.None?
    case CloseChannel(i) =>
      i < |s.callers| && s.callers[i].Inside? && s.callers[i].ch.Some? && s.callers[i].ch.value < |s.closes| && s.callers[i].f < |s.once|
    case ResolveDone => s.poller == Resolving
    case IntervalOver => s.poller == Selecting
    case Woken => s.poller == Selecting && s.field < |s.closes| && s.closes[s.field] > 0
    case Make => s.poller == Making
    case StoreFunction => s.poller == Storing
    case StopPoller => s.poller == Selecting
  }

  function Next(s: State, step: Step): State
    requires Enabled(s, step)
  {
    match step
    case Request => s.(callers := s.callers + [Loaded(s.notify)], pending := true)
    case Call(i) =>
      var f := s.callers[i].f;
      if s.once[f] == Done then s.(callers := s.callers[i := Finished])
      else s.(callers := s.callers[i := Inside(f, None)], once := s.once[f := InProgress])
    case ReadField(i) => s.(callers := s.callers[i := Inside(s.callers[i].f, Some(s.field))])
    case CloseChannel(i) =>
      var ch := s.callers[i].ch.value;
      s.(callers := s.callers[i := Finished], closes := s.closes[ch := s.closes[ch] + 1], once := s.once[s.callers[i].f := Done])
    case ResolveDone => s.(poller := Selecting)
    case IntervalOver => s.(poller := Resolving, pending := false)
    case Woken => s.(poller := Making)
    case Make => s.(field := |s.closes|, closes := s.closes + [0], poller := Storing)
    case StoreFunction => s.(notify := |s.once|, once := s.once + [Fresh], poller := Resolving, pending := false)
    case StopPoller => s.(poller := Stopped)
  }

  function Run(s: State, steps: seq<Step>): Option<State>
    decreases |steps|
  {
    if steps == [] then Some(s)
    else if !Enabled(s, steps[0]) then None
    else Run(Next(s, steps[0]), steps[1..])
  }

  ghost predicate Reachable(s: State) {
    exists steps :: Run(INIT, steps) == Some(s)
  }

  // ---- invariant -----------------------------------------------------------------------

  /** Channels and functions are made in pairs; all but the newest function have closed their own channel, once. */
  predicate Paired(s: State) {
    && |s.once| > 0 && s.notify == |s.once| - 1
    && |s.closes| == |s.once| + (if s.poller == Storing then 1 else 0) && s.field == |s.closes| - 1
    && (forall k :: 0 <= k < s.notify ==> s.once[k] == Done)
    && (forall k :: 0 <= k < |s.closes| ==> s.closes[k] == if k < |s.once| && s.once[k] == Done then 1 else 0)
    && (s.poller in {Making, Storing} ==> s.once[s.notify] == Done)
  }

  /** At most one caller is inside a function; it is the newest one, and the channel it read is the newest one. */
  predicate CallersOk(s: State) {
    && (forall i :: 0 <= i < |s.callers| ==>
          match s.callers[i]
          case Loaded(f) => f <= s.notify
          case Inside(f, ch) => f == s.notify && s.notify < |s.once| && s.once[f] == InProgress && (ch.Some? ==> ch.value == s.field)
          case Finished => true)
    && (forall i, j :: 0 <= i < j < |s.callers| ==> !(s.callers[i].Inside? && s.callers[j].Inside?))
    && (s.notify < |s.once| && s.once[s.notify] == InProgress ==> exists i :: 0 <= i < |s.callers| && s.callers[i].Inside?)
  }

  /** Somebody holds the current function before it has fired. */
  predicate Held(s: State) {
    exists i :: 0 <= i < |s.callers| && (s.callers[i] == Loaded(s.notify) || s.callers[i].Inside?)
  }

  /** A request since the last start of resolve() has closed the channel, will close it, or is being answered. */
  predicate NotLost(s: State) {
    s.pending ==>
      || s.poller in {Making, Storing, Stopped}
      || (s.field < |s.closes| && s.closes[s.field] > 0)
      || Held(s)
  }

  predicate Inv(s: State) {
    Paired(s) && CallersOk(s) && NotLost(s)
  }

  lemma CallStep(s: State, i: nat)
    requires Inv(s) && Enabled(s, Call(i))
    ensures Inv(Next(s, Call(i)))
  {
    var t := Next(s, Call(i));
    var f := s.callers[i].f;
    assert f < s.notify ==> s.once[f] == Done;
    if s.once[f] == Fresh {
      assert t.callers[i].Inside?;
      assert forall j :: 0 <= j < |s.callers| ==> !s.callers[j].Inside?;
    } else {
      forall j | 0 <= j < |s.callers| && j != i ensures t.callers[j] == s.callers[j] { }
      if s.once[s.notify] == InProgress {
        var j :| 0 <= j < |s.callers| && s.callers[j].Inside?;
        assert t.callers[j].Inside?;
      }
      if s.once[s.notify] == Fresh && Held(s) {
        var j :| 0 <= j < |s.callers| && (s.callers[j] == Loaded(s.notify) || s.callers[j].Inside?);
        assert t.callers[j] == s.callers[j];
      }
    }
  }

  lemma ReadStep(s: State, i: nat)
    requires Inv(s) && Enabled(s, ReadField(i))
    ensures Inv(Next(s, ReadField(i)))
  {
    var t := Next(s, ReadField(i));
    assert t.callers[i].Inside?;
  }

  lemma CloseStep(s: State, i: nat)
    requires Inv(s) && Enabled(s, CloseChannel(i))
    ensures Inv(Next(s, CloseChannel(i)))
  {
    var t := Next(s, CloseChannel(i));
    assert s.callers[i].ch.value == s.field && s.callers[i].f == s.notify;
    assert s.poller !in {Making, Storing};
    assert t.closes[t.field] == 1;
  }

  lemma RequestStep(s: State)
    requires Inv(s)
    ensures Inv(Next(s, Request))
  {
    var t := Next(s, Request);
    assert t.callers[|s.callers|] == Loaded(s.notify);
    if s.once[s.notify] == InProgress {
      var j :| 0 <= j < |s.callers| && s.callers[j].Inside?;
      assert t.callers[j].Inside?;
    }
  }

  lemma PollerStep(s: State, step: Step)
    requires Inv(s) && Enabled(s, step)
    requires step in {ResolveDone, IntervalOver, Woken, Make, StoreFunction, StopPoller}
    ensures Inv(Next(s, step))
  {
  }

  lemma InvStep(s: State, step: Step)
    requires Inv(s) && Enabled(s, step)
    ensures Inv(Next(s, step))
  {
    hide Inv, Enabled, Next;
    match step {
      case Request => RequestStep(s);
      case Call(i) => CallStep(s, i);
      case ReadField(i) => ReadStep(s, i);
      case CloseChannel(i) => CloseStep(s, i);
      case _ => PollerStep(s, step);
    }
  }

  lemma {:induction false} InvRun(s: State, steps: seq<Step>)
    requires Inv(s) && Run(s, steps).Some?
    ensures Inv(Run(s, steps).value)
    decreases |steps|
  {
    if steps != [] {
      InvStep(s, steps[0]);
      hide Inv, Next, Enabled;
      InvRun(Next(s, steps[0]), steps[1..]);
    }
  }

  lemma ReachableInv(s: State)
    requires Reachable(s)
    ensures Inv(s)
  {
    var steps :| Run(INIT, steps) == Some(s);
    InvRun(INIT, steps);
  }

  // ---- properties ----------------------------------------------------------------------

  /** No channel is closed twice, although the functions read the field only when they are called. */
  lemma ClosedOnce(s: State)
    requires Reachable(s)
    ensures forall k :: 0 <= k < |s.closes| ==> s.closes[k] <= 1
    ensures forall i :: 0 <= i < |s.callers| && s.callers[i].Inside? && s.callers[i].ch.Some? ==>
              s.callers[i].ch.value < |s.closes| && s.closes[s.callers[i].ch.value] == 0
  {
    ReachableInv(s);
  }

  /** No request is lost. */
  lemma NoRequestLost(s: State)
    requires Reachable(s) && s.pending && s.poller != Stopped
    ensures || s.poller in {Making, Storing}
            || (s.field < |s.closes| && s.closes[s.field] > 0)
            || exists i :: 0 <= i < |s.callers| && (s.callers[i] == Loaded(s.notify) || s.callers[i].Inside?)
  {
    ReachableInv(s);
  }

  /** How many steps of callers and poller still lead to the next resolve(). */
  function StepsLeft(s: State): nat {
    (match s.poller case Resolving => 4 case Selecting => 3 case Making => 2 case Storing => 1 case Stopped => 0)
    + if s.poller in {Making, Storing} || (s.field < |s.closes| && s.closes[s.field] > 0) then 0
      else if s.notify < |s.once| && s.once[s.notify] == Fresh then 3
      else if exists i :: 0 <= i < |s.callers| && s.callers[i].Inside? && s.callers[i].ch.None? then 2
      else 1
  }

  /** A step of a caller or the poller that brings the next resolve() nearer, without the interval and new requests. */
  lemma Nearer(s: State) returns (step: Step)
    requires Inv(s) && s.pending && s.poller != Stopped
    ensures Enabled(s, step) && step !in {Request, IntervalOver, StopPoller}
    ensures var t := Next(s, step); t.poller != Stopped && if t.pending then StepsLeft(t) < StepsLeft(s) else t.poller == Resolving
  {
    if s.poller == Storing {
      step := StoreFunction;
    } else if s.poller == Making {
      step := Make;
    } else if s.closes[s.field] > 0 {
      step := if s.poller == Resolving then ResolveDone else Woken;
    } else {
      step := CallerNearer(s);
    }
  }

  lemma CallerNearer(s: State) returns (step: Step)
    requires Inv(s) && s.pending && s.poller in {Resolving, Selecting} && s.closes[s.field] == 0
    ensures Enabled(s, step) && (step.Call? || step.ReadField? || step.CloseChannel?)
    ensures Next(s, step).pending && StepsLeft(Next(s, step)) < StepsLeft(s)
  {
    var i :| 0 <= i < |s.callers| && (s.callers[i] == Loaded(s.notify) || s.callers[i].Inside?);
    if s.once[s.notify] == Fresh {
      step := Call(i);
    } else {
      var j :| 0 <= j < |s.callers| && s.callers[j].Inside?;
      if s.callers[j].ch.None? {
        step := ReadField(j);
      } else {
        step := CloseChannel(j);
      }
    }
  }

  /** From every reachable state with a request outstanding, at most seven steps of the callers and the poller lead to
      the next resolve(), even when the interval never ends. */
  lemma {:induction false} RequestServed(s: State) returns (steps: seq<Step>)
    requires Inv(s) && s.pending && s.poller != Stopped
    ensures Run(s, steps).Some? && Run(s, steps).value.poller == Resolving && !Run(s, steps).value.pending
    ensures |steps| <= StepsLeft(s) <= 7
    ensures forall k :: 0 <= k < |steps| ==> steps[k] !in {Request, IntervalOver, StopPoller}
    decreases StepsLeft(s)
  {
    var step := Nearer(s);
    InvStep(s, step);
    var t := Next(s, step);
    assert StepsLeft(s) <= 7;
    if t.pending {
      hide Inv, StepsLeft, Enabled, Next;
      var rest := RequestServed(t);
      steps := [step] + rest;
      assert steps[1..] == rest;
    } else {
      steps := [step];
      assert StepsLeft(s) > 0;
      assert steps[1..] == [];
    }
  }
}
