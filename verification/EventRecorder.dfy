/** The event recorder (pkg/event/event.go) as a protocol: any number of Eventf calls, each with
    its worker goroutine, any number of Shutdown calls, each with its waiter goroutine, and one
    Start, interleaved at every lock, WaitGroup and channel operation. */
module EventRecorder {
  import opened Common

  /** Where an Eventf call, then its worker, stands. */
  datatype EventPc =
    | Entering                   // before mu.Lock
    | Checking                   // holds mu, about to read stopped
    | Refusing                   // holds mu, read stopped == true
    | Passed                     // holds mu, read stopped == false, about to wg.Add(1)
    | Counted                    // holds mu, after wg.Add(1)
    | Launching                  // mu released, before the go statement
    | Running                    // worker started, recorder not looked at yet
    | Looked(handing: bool)      // read the recorder: about to call it, or to drop the event because it is nil
    | Recorded(handed: bool)     // after the call, or past it
    | Finished(handed: bool)     // after wg.Done
    | Refused

  /** Where a Shutdown call stands. */
  datatype StopPc =
    | Arriving | Locked | Marked | Unlocked
    | Waiting(woken: bool)       // in the select; woken: its waiter returned from wg.Wait and closed done
    | Leaving(flushed: bool)     // took the done branch or the timeout branch
    | Closed(flushed: bool)      // after broadcaster.Shutdown, if there is a broadcaster

  datatype StartPc = NotStarted | HasBroadcaster | HasRecorder | Started

  datatype Owner = Nobody | ByEvent(e: nat) | ByStop(k: nat)

  /** What has happened, oldest first. */
  datatype Happening =
    | RecorderSet | StopSet | Accepted(e: nat) | Handed(e: nat) | Dropped(e: nat) | Done(e: nat)
    | BroadcasterDown(k: nat, flushed: bool)

  datatype State = State(
    mu: Owner, stopped: bool, wg: int, start: StartPc,
    events: map<nat, EventPc>, stops: map<nat, StopPc>, log: seq<Happening>)

  const INITIAL := State(Nobody, false, 0, NotStarted, map[], map[], [])

  datatype EventStep = Acquire | Check | Add | Release | Spawn | Look | Record | Finish
  datatype StopStep = Lock | Mark | Unlock | SpawnWaiter | Wake | TakeDone | TakeTimeout | CloseBroadcaster

  /** One atomic operation of one goroutine. */
  datatype Step =
    | StartStep
    | Call(e: nat)
    | ByCall(e: nat, event: EventStep)
    | Shutdown(k: nat)
    | ByShutdown(k: nat, stop: StopStep)

  predicate RecorderNonNil(s: State) { s.start == HasRecorder || s.start == Started }

  /** What an operation of a call does: where the call stands then, who holds the mutex, how the
      WaitGroup counter or the stop flag changes, and what has happened. */
  datatype EventEffect = EventEffect(pc: EventPc, mu: Owner, delta: int, says: seq<Happening>)
  datatype StopEffect = StopEffect(pc: StopPc, mu: Owner, stopped: bool, says: seq<Happening>)

  /** Eventf (Acquire to Spawn) and its worker (Look to Finish). None: the operation cannot run now. */
  function EventTable(s: State, e: nat, pc: EventPc, step: EventStep): Option<EventEffect> {
    match (pc, step)
    case (Entering, Acquire) => if s.mu == Nobody then Some(EventEffect(Checking, ByEvent(e), 0, [])) else None
    case (Checking, Check) => Some(EventEffect(if s.stopped then Refusing else Passed, s.mu, 0, []))
    case (Refusing, Release) => Some(EventEffect(Refused, Nobody, 0, []))
    case (Passed, Add) => Some(EventEffect(Counted, s.mu, 1, [Accepted(e)]))
    case (Counted, Release) => Some(EventEffect(Launching, Nobody, 0, []))
    case (Launching, Spawn) => Some(EventEffect(Running, s.mu, 0, []))
    case (Running, Look) =>
      if RecorderNonNil(s) then Some(EventEffect(Looked(true), s.mu, 0, []))
      else Some(EventEffect(Looked(false), s.mu, 0, [Dropped(e)]))
    case (Looked(handing), Record) => Some(EventEffect(Recorded(handing), s.mu, 0, if handing then [Handed(e)] else []))
    case (Recorded(handed), Finish) => Some(EventEffect(Finished(handed), s.mu, -1, [Done(e)]))
    case _ => None
  }

  /** Shutdown and, for Wake, its waiter. */
  function StopTable(s: State, k: nat, pc: StopPc, step: StopStep): Option<StopEffect> {
    match (pc, step)
    case (Arriving, Lock) => if s.mu == Nobody then Some(StopEffect(Locked, ByStop(k), s.stopped, [])) else None
    case (Locked, Mark) => Some(StopEffect(Marked, s.mu, true, [StopSet]))
    case (Marked, Unlock) => Some(StopEffect(Unlocked, Nobody, s.stopped, []))
    case (Unlocked, SpawnWaiter) => Some(StopEffect(Waiting(false), s.mu, s.stopped, []))
    case (Waiting(false), Wake) => if s.wg == 0 then Some(StopEffect(Waiting(true), s.mu, s.stopped, [])) else None
    case (Waiting(true), TakeDone) => Some(StopEffect(Leaving(true), s.mu, s.stopped, []))
    case (Waiting(_), TakeTimeout) => Some(StopEffect(Leaving(false), s.mu, s.stopped, []))
    case (Leaving(flushed), CloseBroadcaster) =>
      var says := if s.start == NotStarted then [] else [BroadcasterDown(k, flushed)];
      Some(StopEffect(Closed(flushed), s.mu, s.stopped, says))
    case _ => None
  }

  function ApplyEvent(s: State, e: nat, f: EventEffect): State {
    s.(events := s.events[e := f.pc], mu := f.mu, wg := s.wg + f.delta, log := s.log + f.says)
  }

  function ApplyStop(s: State, k: nat, f: StopEffect): State {
    s.(stops := s.stops[k := f.pc], mu := f.mu, stopped := f.stopped, log := s.log + f.says)
  }

  function Do(s: State, step: Step): Option<State> {
    match step
    // Start's three assignments, none of them under the mutex.
    case StartStep =>
      (match s.start
       case NotStarted => Some(s.(start := HasBroadcaster))
       case HasBroadcaster => Some(s.(start := HasRecorder, log := s.log + [RecorderSet]))
       case HasRecorder => Some(s.(start := Started))
       case Started => None)
    case Call(e) => if e in s.events then None else Some(s.(events := s.events[e := Entering]))
    case ByCall(e, event) =>
      if e !in s.events then None
      else
        var f := EventTable(s, e, s.events[e], event);
        if f.None? then None else Some(ApplyEvent(s, e, f.value))
    case Shutdown(k) => if k in s.stops then None else Some(s.(stops := s.stops[k := Arriving]))
    case ByShutdown(k, stop) =>
      if k !in s.stops then None
      else
        var f := StopTable(s, k, s.stops[k], stop);
        if f.None? then None else Some(ApplyStop(s, k, f.value))
  }

  ghost predicate Run(steps: seq<Step>, states: seq<State>) {
    && |states| == |steps| + 1
    && forall i :: 0 <= i < |steps| ==> Do(states[i], steps[i]) == Some(states[i + 1])
  }

  ghost predicate Reachable(s: State) {
    exists steps: seq<Step>, states: seq<State> :: Run(steps, states) && states[0] == INITIAL && states[|steps|] == s
  }

  // ----- The invariant -----

  predicate InFlightPc(pc: EventPc) { pc.Counted? || pc.Launching? || pc.Running? || pc.Looked? || pc.Recorded? }
  predicate HoldsLock(pc: EventPc) { pc.Checking? || pc.Refusing? || pc.Passed? || pc.Counted? }

  function InFlight(s: State): set<nat> { set e | e in s.events && InFlightPc(s.events[e]) }

  /** The mutex is held by exactly the call that stands inside its critical section. */
  ghost predicate LockInv(s: State) {
    && (forall e <- s.events :: HoldsLock(s.events[e]) <==> s.mu == ByEvent(e))
    && (forall k <- s.stops :: s.stops[k].Locked? || s.stops[k].Marked? <==> s.mu == ByStop(k))
    && (s.mu.ByEvent? ==> s.mu.e in s.events)
    && (s.mu.ByStop? ==> s.mu.k in s.stops)
  }

  predicate AfterMark(pc: StopPc) { !pc.Arriving? && !pc.Locked? }
  predicate SawZero(pc: StopPc) { pc == Waiting(true) || pc == Leaving(true) || pc == Closed(true) }

  /** The counter counts, nobody may add once stopped, and whoever saw zero still would. */
  ghost predicate CountInv(s: State) {
    && s.wg == |InFlight(s)|
    && (forall e <- s.events :: s.events[e].Passed? ==> !s.stopped)
    && (forall k <- s.stops :: AfterMark(s.stops[k]) ==> s.stopped)
    && (forall k <- s.stops :: SawZero(s.stops[k]) ==> InFlight(s) == {})
  }

  function One(b: bool): nat { if b then 1 else 0 }

  /** Where a call stands; one that was never made stands where all begin. */
  function PcOf(s: State, e: nat): EventPc { if e in s.events then s.events[e] else Entering }

  predicate WasAccepted(pc: EventPc) { InFlightPc(pc) || pc.Finished? }
  predicate WasHanded(pc: EventPc) { (pc.Recorded? || pc.Finished?) && pc.handed }
  predicate WasDropped(pc: EventPc) { pc == Looked(false) || ((pc.Recorded? || pc.Finished?) && !pc.handed) }

  /** The history agrees with where each call stands: everything happens at most once. */
  ghost predicate HistoryInv(s: State) {
    && (forall e: nat :: multiset(s.log)[Accepted(e)] == One(WasAccepted(PcOf(s, e))))
    && (forall e: nat :: multiset(s.log)[Handed(e)] == One(WasHanded(PcOf(s, e))))
    && (forall e: nat :: multiset(s.log)[Dropped(e)] == One(WasDropped(PcOf(s, e))))
    && (forall e: nat :: multiset(s.log)[Done(e)] == One(PcOf(s, e).Finished?))
    && (RecorderSet in s.log <==> RecorderNonNil(s))
    && (StopSet in s.log <==> s.stopped)
    && (forall k: nat :: BroadcasterDown(k, true) in s.log ==> k in s.stops && s.stops[k] == Closed(true))
  }

  predicate OfEvent(h: Happening) { h.Accepted? || h.Handed? || h.Dropped? || h.Done? }

  /** What may follow what. */
  ghost predicate OrderInv(log: seq<Happening>) {
    forall i, j | 0 <= i < j < |log| ::
      && (log[i] == StopSet ==> !log[j].Accepted?)
      && (log[i].BroadcasterDown? && log[i].flushed ==> !OfEvent(log[j]))
      && (log[i] == RecorderSet ==> !log[j].Dropped?)
      && (OfEvent(log[i]) && OfEvent(log[j]) && (log[j].Accepted? || log[i].Done?) ==> log[i].e != log[j].e)
  }

  /** Nobody is refused before a stop, and nobody calls a nil recorder. */
  ghost predicate DecidedInv(s: State) {
    && (forall e <- s.events :: s.events[e].Refusing? || s.events[e].Refused? ==> s.stopped)
    && (forall e <- s.events :: s.events[e] == Looked(true) || WasHanded(s.events[e]) ==> RecorderNonNil(s))
    && HandedLater(s.log)
  }

  /** No event was handed before the recorder was set. */
  ghost predicate HandedLater(log: seq<Happening>) {
    forall i, j | 0 <= i < j < |log| :: log[j] == RecorderSet ==> !log[i].Handed?
  }

  ghost predicate Inv(s: State) {
    LockInv(s) && CountInv(s) && HistoryInv(s) && OrderInv(s.log) && DecidedInv(s)
  }

  lemma InitialInv()
    ensures Inv(INITIAL)
  {
  }

  // ----- Every step keeps it -----

  /** What the table says about one operation of an event. */
  lemma EventRow(s: State, e: nat, step: EventStep, f: EventEffect)
    requires LockInv(s) && e in s.events && EventTable(s, e, s.events[e], step) == Some(f)
    ensures HoldsLock(f.pc) <==> f.mu == ByEvent(e)
    ensures f.mu == s.mu || (s.mu == Nobody && f.mu == ByEvent(e)) || (s.mu == ByEvent(e) && f.mu == Nobody)
    ensures f.delta == One(InFlightPc(f.pc)) - One(InFlightPc(s.events[e]))
    ensures f.pc.Passed? ==> !s.stopped
  {
  }

  lemma StopRow(s: State, k: nat, step: StopStep, f: StopEffect)
    requires LockInv(s) && k in s.stops && StopTable(s, k, s.stops[k], step) == Some(f)
    ensures f.pc.Locked? || f.pc.Marked? <==> f.mu == ByStop(k)
    ensures f.mu == s.mu || (s.mu == Nobody && f.mu == ByStop(k)) || (s.mu == ByStop(k) && f.mu == Nobody)
    ensures AfterMark(f.pc) ==> AfterMark(s.stops[k]) || f.stopped
    ensures SawZero(f.pc) ==> SawZero(s.stops[k]) || s.wg == 0
    ensures f.stopped == s.stopped || (f.stopped && s.mu == ByStop(k))
  {
  }

  lemma LockStep(s: State, step: Step, s': State)
    requires LockInv(s) && Do(s, step) == Some(s')
    ensures LockInv(s')
  {
    hide EventTable, StopTable;
    if step.ByCall? {
      EventRow(s, step.e, step.event, EventTable(s, step.e, s.events[step.e], step.event).value);
    } else if step.ByShutdown? {
      StopRow(s, step.k, step.stop, StopTable(s, step.k, s.stops[step.k], step.stop).value);
    }
  }

  /** How one operation moves the in-flight set. */
  lemma InFlightStep(s: State, e: nat, f: EventEffect)
    requires e in s.events && f.delta == One(InFlightPc(f.pc)) - One(InFlightPc(s.events[e]))
    ensures |InFlight(ApplyEvent(s, e, f))| == |InFlight(s)| + f.delta
    ensures InFlight(ApplyEvent(s, e, f)) <= InFlight(s) + {e}
    ensures InFlight(s) == {} && f.delta == 0 ==> InFlight(ApplyEvent(s, e, f)) == {}
  {
    var s' := ApplyEvent(s, e, f);
    if InFlightPc(f.pc) {
      assert InFlight(s') == InFlight(s) + {e};
    } else {
      assert InFlight(s') == InFlight(s) - {e};
    }
  }

  lemma CountAfterEvent(s: State, e: nat, step: EventStep, f: EventEffect)
    requires LockInv(s) && CountInv(s) && e in s.events && EventTable(s, e, s.events[e], step) == Some(f)
    ensures CountInv(ApplyEvent(s, e, f))
  {
    EventRow(s, e, step, f);
    PassedIfCounted(s, e, step, f);
    hide *;
    InFlightStep(s, e, f);
    CountHolds(s, e, f);
  }

  lemma PassedIfCounted(s: State, e: nat, step: EventStep, f: EventEffect)
    requires CountInv(s) && e in s.events && EventTable(s, e, s.events[e], step) == Some(f)
    ensures -1 <= f.delta <= 1 && (f.delta == 1 ==> !s.stopped)
    ensures f.delta == -1 ==> InFlightPc(s.events[e])
  {
    EventSays(s, e, step, f);
    EventDelta(s, e, step, f);
    hide EventTable;
  }

  lemma EventDelta(s: State, e: nat, step: EventStep, f: EventEffect)
    requires e in s.events && EventTable(s, e, s.events[e], step) == Some(f)
    ensures -1 <= f.delta <= 1 && (f.delta == -1 ==> InFlightPc(s.events[e]))
  {
  }

  lemma CountHolds(s: State, e: nat, f: EventEffect)
    requires CountInv(s) && e in s.events && f.delta <= 1
    requires (f.delta == 1 ==> !s.stopped) && (f.pc.Passed? ==> !s.stopped)
    requires |InFlight(ApplyEvent(s, e, f))| == |InFlight(s)| + f.delta
    ensures CountInv(ApplyEvent(s, e, f))
  {
    hide InFlight;
    var s' := ApplyEvent(s, e, f);
    assert forall x | x in s'.events && x != e :: s'.events[x] == s.events[x];
    assert s.stopped ==> |InFlight(s')| <= |InFlight(s)|;
    assert InFlight(s) == {} && s.stopped ==> |InFlight(s')| == 0;
  }

  lemma CountAfterStop(s: State, k: nat, step: StopStep, f: StopEffect)
    requires LockInv(s) && CountInv(s) && k in s.stops && StopTable(s, k, s.stops[k], step) == Some(f)
    ensures CountInv(ApplyStop(s, k, f))
  {
    StopRow(s, k, step, f);
    assert f.stopped != s.stopped ==> s.mu == ByStop(k);
    assert forall e <- s.events :: s.events[e].Passed? ==> s.mu == ByEvent(e);
    hide StopTable, LockInv, InFlightPc, HoldsLock;
    assert InFlight(ApplyStop(s, k, f)) == InFlight(s);
  }

  lemma CountStep(s: State, step: Step, s': State)
    requires LockInv(s) && CountInv(s) && Do(s, step) == Some(s')
    ensures CountInv(s')
  {
    if step.ByCall? {
      hide EventTable, StopTable, CountInv, LockInv;
      CountAfterEvent(s, step.e, step.event, EventTable(s, step.e, s.events[step.e], step.event).value);
    } else if step.ByShutdown? {
      hide EventTable, StopTable, CountInv, LockInv;
      CountAfterStop(s, step.k, step.stop, StopTable(s, step.k, s.stops[step.k], step.stop).value);
    } else {
      hide EventTable, StopTable, LockInv;
      assert InFlight(s') == InFlight(s);
    }
  }

  /** What an operation of an event adds to the history. */
  lemma EventSays(s: State, e: nat, step: EventStep, f: EventEffect)
    requires e in s.events && EventTable(s, e, s.events[e], step) == Some(f)
    ensures |f.says| <= 1
    ensures forall h <- f.says :: OfEvent(h) && h.e == e
    ensures One(WasAccepted(f.pc)) == One(WasAccepted(s.events[e])) + multiset(f.says)[Accepted(e)]
    ensures One(WasHanded(f.pc)) == One(WasHanded(s.events[e])) + multiset(f.says)[Handed(e)]
    ensures One(WasDropped(f.pc)) == One(WasDropped(s.events[e])) + multiset(f.says)[Dropped(e)]
    ensures One(f.pc.Finished?) == One(s.events[e].Finished?) + multiset(f.says)[Done(e)]
    ensures Accepted(e) in f.says ==> s.events[e].Passed?
    ensures f.says != [] && Accepted(e) !in f.says ==> InFlightPc(s.events[e])
    ensures Dropped(e) in f.says ==> !RecorderNonNil(s)
    ensures f.delta == 1 ==> s.events[e].Passed?
  {
    EventMoves(s, e, step, f);
    hide *;
    EventSaysWhen(s, e, step, f);
    SaidOnce(f.says, Accepted(e), WasAccepted(s.events[e]), WasAccepted(f.pc));
    SaidOnce(f.says, Handed(e), WasHanded(s.events[e]), WasHanded(f.pc));
    SaidOnce(f.says, Dropped(e), WasDropped(s.events[e]), WasDropped(f.pc));
    SaidOnce(f.says, Done(e), s.events[e].Finished?, f.pc.Finished?);
  }

  lemma SaidOnce(says: seq<Happening>, h: Happening, was: bool, isNow: bool)
    requires |says| <= 1 && (isNow <==> was || says == [h]) && !(was && says == [h])
    ensures One(isNow) == One(was) + multiset(says)[h]
  {
    if says != [] { assert says == [says[0]] && multiset(says) == multiset{says[0]}; }
  }

  /** An operation says a thing of an event just when it brings the call to where that thing was said. */
  lemma EventMoves(s: State, e: nat, step: EventStep, f: EventEffect)
    requires e in s.events && EventTable(s, e, s.events[e], step) == Some(f)
    ensures f.says == [Accepted(e)] <==> WasAccepted(f.pc) && !WasAccepted(s.events[e])
    ensures f.says == [Handed(e)] <==> WasHanded(f.pc) && !WasHanded(s.events[e])
    ensures f.says == [Dropped(e)] <==> WasDropped(f.pc) && !WasDropped(s.events[e])
    ensures f.says == [Done(e)] <==> f.pc.Finished? && !s.events[e].Finished?
    ensures WasAccepted(s.events[e]) ==> WasAccepted(f.pc)
    ensures WasHanded(s.events[e]) ==> WasHanded(f.pc)
    ensures WasDropped(s.events[e]) ==> WasDropped(f.pc)
    ensures !s.events[e].Finished?
  {
    assert [Accepted(e)][0] == Accepted(e) && [Handed(e)][0] == Handed(e) && [Dropped(e)][0] == Dropped(e);
  }

  lemma EventSaysWhen(s: State, e: nat, step: EventStep, f: EventEffect)
    requires e in s.events && EventTable(s, e, s.events[e], step) == Some(f)
    ensures |f.says| <= 1
    ensures forall h <- f.says :: OfEvent(h) && h.e == e
    ensures Accepted(e) in f.says ==> s.events[e].Passed?
    ensures f.says != [] && Accepted(e) !in f.says ==> InFlightPc(s.events[e])
    ensures Dropped(e) in f.says ==> !RecorderNonNil(s)
    ensures f.delta == 1 ==> s.events[e].Passed?
  {
  }

  lemma StopSays(s: State, k: nat, step: StopStep, f: StopEffect)
    requires k in s.stops && StopTable(s, k, s.stops[k], step) == Some(f)
    ensures f.says == [] || f.says == [StopSet] || f.says == [BroadcasterDown(k, true)]
              || f.says == [BroadcasterDown(k, false)]
    ensures StopSet in f.says ==> f.stopped
    ensures StopSet !in f.says ==> f.stopped == s.stopped
    ensures BroadcasterDown(k, true) in f.says ==> f.pc == Closed(true) && s.stops[k] == Leaving(true)
    ensures s.stops[k] != Closed(true)
  {
  }

  lemma HistoryAfterEvent(s: State, e: nat, step: EventStep, f: EventEffect)
    requires HistoryInv(s) && e in s.events && EventTable(s, e, s.events[e], step) == Some(f)
    ensures HistoryInv(ApplyEvent(s, e, f))
  {
    hide EventTable;
    var s' := ApplyEvent(s, e, f);
    EventSays(s, e, step, f);
    assert multiset(s'.log) == multiset(s.log) + multiset(f.says);
    hide WasAccepted, WasHanded, WasDropped, RecorderNonNil, One;
    forall e': nat
      ensures multiset(s'.log)[Accepted(e')] == One(WasAccepted(PcOf(s', e')))
      ensures multiset(s'.log)[Handed(e')] == One(WasHanded(PcOf(s', e')))
      ensures multiset(s'.log)[Dropped(e')] == One(WasDropped(PcOf(s', e')))
      ensures multiset(s'.log)[Done(e')] == One(PcOf(s', e').Finished?)
    {
      assert multiset(s.log)[Accepted(e')] == One(WasAccepted(PcOf(s, e')));
      assert multiset(s.log)[Handed(e')] == One(WasHanded(PcOf(s, e')));
      assert multiset(s.log)[Dropped(e')] == One(WasDropped(PcOf(s, e')));
      assert multiset(s.log)[Done(e')] == One(PcOf(s, e').Finished?);
      if e' != e {
        assert PcOf(s', e') == PcOf(s, e');
        assert Accepted(e') !in f.says && Handed(e') !in f.says && Dropped(e') !in f.says && Done(e') !in f.says;
      }
    }
  }

  /** The parts of HistoryInv about events, which only events' operations change. */
  lemma HistoryOfEventsStays(s: State, s': State, says: seq<Happening>)
    requires HistoryInv(s) && s'.log == s.log + says && forall h <- says :: !OfEvent(h)
    requires forall e: nat :: PcOf(s', e) == PcOf(s, e)
    requires RecorderSet in s'.log <==> RecorderNonNil(s')
    requires StopSet in s'.log <==> s'.stopped
    requires forall k: nat :: BroadcasterDown(k, true) in s'.log ==> k in s'.stops && s'.stops[k] == Closed(true)
    ensures HistoryInv(s')
  {
    hide WasAccepted, WasHanded, WasDropped, RecorderNonNil, One, PcOf;
    assert multiset(s'.log) == multiset(s.log) + multiset(says);
    forall e: nat
      ensures multiset(s'.log)[Accepted(e)] == One(WasAccepted(PcOf(s', e)))
      ensures multiset(s'.log)[Handed(e)] == One(WasHanded(PcOf(s', e)))
      ensures multiset(s'.log)[Dropped(e)] == One(WasDropped(PcOf(s', e)))
      ensures multiset(s'.log)[Done(e)] == One(PcOf(s', e).Finished?)
    {
      assert Accepted(e) !in says && Handed(e) !in says && Dropped(e) !in says && Done(e) !in says;
    }
  }

  lemma HistoryFlags(s: State)
    requires HistoryInv(s)
    ensures RecorderSet in s.log <==> RecorderNonNil(s)
    ensures StopSet in s.log <==> s.stopped
    ensures forall k: nat :: BroadcasterDown(k, true) in s.log ==> k in s.stops && s.stops[k] == Closed(true)
  {
  }

  lemma HistoryAfterStop(s: State, k: nat, step: StopStep, f: StopEffect)
    requires HistoryInv(s) && k in s.stops && StopTable(s, k, s.stops[k], step) == Some(f)
    ensures HistoryInv(ApplyStop(s, k, f))
  {
    StopSays(s, k, step, f);
    HistoryFlags(s);
    hide StopTable, HistoryInv;
    HistoryOfEventsStays(s, ApplyStop(s, k, f), f.says);
  }

  lemma HistoryStep(s: State, step: Step, s': State)
    requires HistoryInv(s) && Do(s, step) == Some(s')
    ensures HistoryInv(s')
  {
    hide EventTable, StopTable, HistoryInv;
    HistoryFlags(s);
    match step
    case ByCall(e, event) =>
      hide PcOf;
      HistoryAfterEvent(s, e, event, EventTable(s, e, s.events[e], event).value);
    case ByShutdown(k, stop) =>
      hide PcOf;
      HistoryAfterStop(s, k, stop, StopTable(s, k, s.stops[k], stop).value);
    case StartStep =>
      HistoryOfEventsStays(s, s', if s.start == HasBroadcaster then [RecorderSet] else []);
    case Call(_) =>
      HistoryOfEventsStays(s, s', []);
    case Shutdown(_) =>
      HistoryOfEventsStays(s, s', []);
  }

  /** Where a call stands tells what the history holds about it. */
  lemma SaidSoFar(s: State, e: nat)
    requires HistoryInv(s)
    ensures Accepted(e) in s.log <==> WasAccepted(PcOf(s, e))
    ensures Handed(e) in s.log <==> WasHanded(PcOf(s, e))
    ensures Dropped(e) in s.log <==> WasDropped(PcOf(s, e))
    ensures Done(e) in s.log <==> PcOf(s, e).Finished?
  {
    assert multiset(s.log)[Accepted(e)] == One(WasAccepted(PcOf(s, e)));
    assert multiset(s.log)[Handed(e)] == One(WasHanded(PcOf(s, e)));
    assert multiset(s.log)[Dropped(e)] == One(WasDropped(PcOf(s, e)));
    assert multiset(s.log)[Done(e)] == One(PcOf(s, e).Finished?);
  }

  lemma OrderAfterEvent(s: State, e: nat, step: EventStep, f: EventEffect)
    requires Inv(s) && e in s.events && EventTable(s, e, s.events[e], step) == Some(f)
    ensures OrderInv(s.log + f.says)
  {
    EventSays(s, e, step, f);
    assert InFlightPc(s.events[e]) ==> e in InFlight(s);
    SaidSoFar(s, e);
    hide EventTable;
  }

  lemma OrderAfterStop(s: State, k: nat, step: StopStep, f: StopEffect)
    requires OrderInv(s.log) && k in s.stops && StopTable(s, k, s.stops[k], step) == Some(f)
    ensures OrderInv(s.log + f.says)
  {
    StopSays(s, k, step, f);
    hide StopTable;
  }

  lemma OrderStep(s: State, step: Step, s': State)
    requires Inv(s) && Do(s, step) == Some(s')
    ensures OrderInv(s'.log)
  {
    Parts(s);
    hide EventTable, StopTable, Inv;
    if step.ByCall? {
      hide OrderInv;
      OrderAfterEvent(s, step.e, step.event, EventTable(s, step.e, s.events[step.e], step.event).value);
    } else if step.ByShutdown? {
      hide OrderInv;
      OrderAfterStop(s, step.k, step.stop, StopTable(s, step.k, s.stops[step.k], step.stop).value);
    }
  }

  lemma DecidedRow(s: State, e: nat, step: EventStep, f: EventEffect)
    requires DecidedInv(s) && e in s.events && EventTable(s, e, s.events[e], step) == Some(f)
    ensures f.pc.Refusing? || f.pc.Refused? ==> s.stopped
    ensures f.pc == Looked(true) || WasHanded(f.pc) ==> RecorderNonNil(s)
  {
  }

  lemma HandedLaterMore(log: seq<Happening>, says: seq<Happening>)
    requires HandedLater(log) && |says| <= 1
    requires RecorderSet in says ==> forall h <- log :: !h.Handed?
    ensures HandedLater(log + says)
  {
  }

  lemma NothingHandedYet(s: State)
    requires HistoryInv(s) && DecidedInv(s) && !RecorderNonNil(s)
    ensures forall h <- s.log :: !h.Handed?
  {
    forall e: nat ensures Handed(e) !in s.log {
      SaidSoFar(s, e);
      hide HistoryInv;
    }
  }

  lemma DecidedStep(s: State, step: Step, s': State)
    requires HistoryInv(s) && DecidedInv(s) && Do(s, step) == Some(s')
    ensures DecidedInv(s')
  {
    hide EventTable, StopTable, HandedLater, HistoryInv;
    if step.ByCall? {
      var f := EventTable(s, step.e, s.events[step.e], step.event).value;
      DecidedRow(s, step.e, step.event, f);
      EventSays(s, step.e, step.event, f);
      HandedLaterMore(s.log, f.says);
    } else if step.ByShutdown? {
      var f := StopTable(s, step.k, s.stops[step.k], step.stop).value;
      StopSays(s, step.k, step.stop, f);
      if s.stopped { StopKeepsStopped(s, step.k, step.stop, f); }
      HandedLaterMore(s.log, f.says);
    } else if step.StartStep? && s.start == HasBroadcaster {
      NothingHandedYet(s);
      HandedLaterMore(s.log, [RecorderSet]);
    }
  }

  lemma InvStep(s: State, step: Step, s': State)
    requires Inv(s) && Do(s, step) == Some(s')
    ensures Inv(s')
  {
    hide LockInv, CountInv, HistoryInv, OrderInv, DecidedInv, Do;
    DecidedStep(s, step, s');
    LockStep(s, step, s');
    CountStep(s, step, s');
    HistoryStep(s, step, s');
    OrderStep(s, step, s');
  }

  // ----- Every reachable state -----

  lemma {:induction false} RunKeepsInv(steps: seq<Step>, states: seq<State>, n: nat)
    requires Run(steps, states) && Inv(states[0]) && n <= |steps|
    ensures Inv(states[n])
  {
    hide Inv, Do;
    if n > 0 {
      RunKeepsInv(steps, states, n - 1);
      assert Do(states[n - 1], steps[n - 1]) == Some(states[n]);
      InvStep(states[n - 1], steps[n - 1], states[n]);
    }
  }

  lemma ReachableInv(s: State)
    requires Reachable(s)
    ensures Inv(s)
  {
    var steps: seq<Step>, states: seq<State> :| Run(steps, states) && states[0] == INITIAL && states[|steps|] == s;
    InitialInv();
    RunKeepsInv(steps, states, |steps|);
  }

  lemma CountInPrefix(log: seq<Happening>, i: nat, h: Happening)
    requires i <= |log| && forall j | i <= j < |log| :: log[j] != h
    ensures multiset(log[..i])[h] == multiset(log)[h]
  {
    assert log == log[..i] + log[i..];
    assert h !in multiset(log[i..]);
  }

  /** The done branch: before the broadcaster went down, every event ever accepted was accepted,
      dealt with once and finished; and it was handed over, not dropped, if the recorder had been
      set before it was accepted. */
  lemma FlushedShutdownLosesNothing(s: State, i: nat, k: nat, e: nat)
    requires Reachable(s) && i < |s.log| && s.log[i] == BroadcasterDown(k, true)
    requires Accepted(e) in s.log
    ensures multiset(s.log[..i])[Accepted(e)] == 1
    ensures multiset(s.log[..i])[Done(e)] == 1
    ensures multiset(s.log[..i])[Handed(e)] + multiset(s.log[..i])[Dropped(e)] == 1
    ensures multiset(s.log[..i])[Handed(e)] == multiset(s.log)[Handed(e)]
    ensures forall p | 0 <= p < |s.log| && s.log[p] == Accepted(e) && RecorderSet in s.log[..p] ::
              multiset(s.log[..i])[Handed(e)] == 1
  {
    ReachableInv(s);
    SaidSoFar(s, e);
    assert BroadcasterDown(k, true) in s.log;
    assert SawZero(s.stops[k]) && InFlight(s) == {};
    assert e !in InFlight(s) && PcOf(s, e).Finished?;
    forall h | OfEvent(h) ensures multiset(s.log[..i])[h] == multiset(s.log)[h] {
      CountInPrefix(s.log, i, h);
    }
    forall p | 0 <= p < |s.log| && s.log[p] == Accepted(e) && RecorderSet in s.log[..p]
      ensures multiset(s.log)[Dropped(e)] == 0
    {
      NotDroppedAfterStart(s, e, p);
    }
  }

  /** No worker drops an event that was accepted after the recorder had been set. */
  lemma NotDroppedAfterStart(s: State, e: nat, p: nat)
    requires Reachable(s) && p < |s.log| && s.log[p] == Accepted(e) && RecorderSet in s.log[..p]
    ensures Dropped(e) !in s.log
  {
    ReachableInv(s);
    var r :| 0 <= r < p && s.log[..p][r] == RecorderSet;
    forall d | 0 <= d < |s.log| ensures s.log[d] != Dropped(e) {
      assert s.log[r] == RecorderSet;
      assert r < d ==> !s.log[d].Dropped?;
      assert d < p ==> !(OfEvent(s.log[d]) && s.log[d].e == e);
    }
  }

  // ----- What decides -----

  /** No call is refused unless a stop came first. */
  lemma RefusedMeansStopped(s: State, e: nat)
    requires Reachable(s) && e in s.events && (s.events[e].Refusing? || s.events[e].Refused?)
    ensures StopSet in s.log
  {
    ReachableInv(s);
  }

  /** A call that reads the flag goes on to be accepted exactly when no stop came before, whatever else
      is in flight. */
  lemma FlagDecides(s: State, e: nat)
    requires Reachable(s) && e in s.events && s.events[e].Checking?
    ensures Do(s, ByCall(e, Check)).Some?
    ensures PcOf(Do(s, ByCall(e, Check)).value, e) == if StopSet in s.log then Refusing else Passed
  {
    ReachableInv(s);
    HistoryFlags(s);
  }

  /** Having passed, it is accepted with its next operation, which nothing can block. */
  lemma PassedIsAccepted(s: State, e: nat)
    requires e in s.events && s.events[e].Passed?
    ensures Do(s, ByCall(e, Add)).Some?
    ensures Do(s, ByCall(e, Add)).value.wg == s.wg + 1
    ensures Do(s, ByCall(e, Add)).value.log == s.log + [Accepted(e)]
  {
  }

  /** What others do in between does not matter: once passed a call is never refused. */
  lemma {:induction false} NeverRefusedAfterPassing(steps: seq<Step>, states: seq<State>, n: nat, e: nat)
    requires Run(steps, states) && n <= |steps|
    requires e in states[0].events && (states[0].events[e].Passed? || WasAccepted(states[0].events[e]))
    ensures e in states[n].events && (states[n].events[e].Passed? || WasAccepted(states[n].events[e]))
  {
    if n > 0 {
      NeverRefusedAfterPassing(steps, states, n - 1, e);
      assert Do(states[n - 1], steps[n - 1]) == Some(states[n]);
      PassedStays(states[n - 1], steps[n - 1], states[n], e);
    }
  }

  lemma PassedStays(s: State, step: Step, s': State, e: nat)
    requires Do(s, step) == Some(s') && e in s.events && (s.events[e].Passed? || WasAccepted(s.events[e]))
    ensures e in s'.events && (s'.events[e].Passed? || WasAccepted(s'.events[e]))
  {
    hide StopTable;
  }

  /** A worker finds the recorder exactly when it has been set, and drops the event otherwise. */
  lemma RecorderDecides(s: State, e: nat)
    requires Reachable(s) && e in s.events && s.events[e].Running?
    ensures Do(s, ByCall(e, Look)).Some?
    ensures PcOf(Do(s, ByCall(e, Look)).value, e) == Looked(RecorderSet in s.log)
    ensures Dropped(e) in Do(s, ByCall(e, Look)).value.log <==> RecorderSet !in s.log
  {
    ReachableInv(s);
    HistoryFlags(s);
    SaidSoFar(s, e);
  }

  /** Every event handed over was handed to a recorder that had been set by then. */
  lemma HandedMeansRecorderSet(s: State, e: nat, j: nat)
    requires Reachable(s) && j < |s.log| && s.log[j] == Handed(e)
    ensures RecorderSet in s.log[..j]
  {
    ReachableInv(s);
    Parts(s);
    SaidSoFar(s, e);
    assert Handed(e) in s.log && WasHanded(PcOf(s, e)) && RecorderSet in s.log;
    hide HistoryInv, CountInv, LockInv, OrderInv, Inv, Reachable;
    var i :| 0 <= i < |s.log| && s.log[i] == RecorderSet;
    assert i < j;
    assert s.log[..j][i] == RecorderSet;
  }

  /** Where a call can go next: only the mutex can make one wait. */
  lemma CallsAreNotHeldUp(s: State, e: nat)
    requires e in s.events
    ensures match s.events[e]
            case Entering => Do(s, ByCall(e, Acquire)).Some? <==> s.mu == Nobody
            case Checking => Do(s, ByCall(e, Check)).Some?
            case Refusing => Do(s, ByCall(e, Release)).Some?
            case Passed => Do(s, ByCall(e, Add)).Some?
            case Counted => Do(s, ByCall(e, Release)).Some?
            case Launching => Do(s, ByCall(e, Spawn)).Some?
            case Running => Do(s, ByCall(e, Look)).Some?
            case Looked(_) => Do(s, ByCall(e, Record)).Some?
            case Recorded(_) => Do(s, ByCall(e, Finish)).Some?
            case _ => forall event :: Do(s, ByCall(e, event)).None?
  {
  }

  /** A shutdown waits for the mutex, and then for the events or the timeout: its waiter can return
      exactly when every accepted event has finished, and the timeout can always strike. */
  lemma ShutdownsAreNotHeldUp(s: State, k: nat)
    requires Reachable(s) && k in s.stops
    ensures match s.stops[k]
            case Arriving => Do(s, ByShutdown(k, Lock)).Some? <==> s.mu == Nobody
            case Locked => Do(s, ByShutdown(k, Mark)).Some?
            case Marked => Do(s, ByShutdown(k, Unlock)).Some?
            case Unlocked => Do(s, ByShutdown(k, SpawnWaiter)).Some?
            case Waiting(false) =>
              && (Do(s, ByShutdown(k, Wake)).Some? <==> AcceptedSet(s) == FinishedSet(s))
              && Do(s, ByShutdown(k, TakeDone)).None? && Do(s, ByShutdown(k, TakeTimeout)).Some?
            case Waiting(true) =>
              Do(s, ByShutdown(k, TakeDone)).Some? && Do(s, ByShutdown(k, TakeTimeout)).Some?
            case Leaving(_) => Do(s, ByShutdown(k, CloseBroadcaster)).Some?
            case Closed(_) => forall stop :: Do(s, ByShutdown(k, stop)).None?
  {
    CounterBalances(s);
    if s.wg == 0 { SubsetOfSameSize(FinishedSet(s), AcceptedSet(s)); }
    hide AcceptedSet, FinishedSet, Reachable;
  }

  /** The branch a shutdown takes is the one it remembers, and then it closes the broadcaster, if Start
      has made one. */
  lemma BranchIsRemembered(s: State, k: nat)
    requires k in s.stops
    ensures Do(s, ByShutdown(k, TakeDone)).Some? ==>
              Do(s, ByShutdown(k, TakeDone)).value.stops[k] == Leaving(true)
    ensures Do(s, ByShutdown(k, TakeTimeout)).Some? ==>
              Do(s, ByShutdown(k, TakeTimeout)).value.stops[k] == Leaving(false)
    ensures s.stops[k].Leaving? ==>
              Do(s, ByShutdown(k, CloseBroadcaster)).Some?
              && Do(s, ByShutdown(k, CloseBroadcaster)).value.stops[k] == Closed(s.stops[k].flushed)
              && Do(s, ByShutdown(k, CloseBroadcaster)).value.log
                 == if s.start == NotStarted then s.log else s.log + [BroadcasterDown(k, s.stops[k].flushed)]
  {
  }

  lemma {:induction false} SubsetOfSameSize(a: set<nat>, b: set<nat>)
    requires a <= b && |a| == |b|
    ensures a == b
  {
    assert b == a + (b - a);
  }

  /** Whoever holds the mutex can go on to release it. */
  lemma HolderCanGoOn(s: State)
    requires Reachable(s) && s.mu != Nobody
    ensures (exists e, event :: s.mu == ByEvent(e) && Do(s, ByCall(e, event)).Some?)
         || (exists k, stop :: s.mu == ByStop(k) && Do(s, ByShutdown(k, stop)).Some?)
  {
    ReachableInv(s);
    Parts(s);
    hide Do, CountInv, HistoryInv, OrderInv, DecidedInv, Inv, Reachable;
    if s.mu.ByEvent? {
      var e := s.mu.e;
      CallsAreNotHeldUp(s, e);
      assert HoldsLock(s.events[e]);
    } else {
      var k := s.mu.k;
      ShutdownsAreNotHeldUp(s, k);
    }
  }

  // ----- Books and progress -----

  function AcceptedSet(s: State): set<nat> { set h | h in s.log && h.Accepted? :: h.e }
  function FinishedSet(s: State): set<nat> { set h | h in s.log && h.Done? :: h.e }

  /** On every branch, at every moment: the counter is what was accepted minus what finished, and
      the rest is in flight. */
  lemma CounterBalances(s: State)
    requires Reachable(s)
    ensures FinishedSet(s) <= AcceptedSet(s)
    ensures InFlight(s) == AcceptedSet(s) - FinishedSet(s)
    ensures s.wg == |AcceptedSet(s)| - |FinishedSet(s)|
  {
    ReachableInv(s);
    assert s.wg == |InFlight(s)|;
    hide *;
    forall e: nat
      ensures e in AcceptedSet(s) <==> WasAccepted(PcOf(s, e))
      ensures e in FinishedSet(s) <==> PcOf(s, e).Finished?
    {
      assert HistoryInv(s) by { Parts(s); }
      SaidSoFar(s, e);
      InSetsIffSaid(s, e);
    }
    Partition(s);
  }

  lemma Parts(s: State)
    requires Inv(s)
    ensures LockInv(s) && CountInv(s) && HistoryInv(s) && OrderInv(s.log) && DecidedInv(s)
  {
  }

  lemma Partition(s: State)
    requires forall e: nat :: e in AcceptedSet(s) <==> WasAccepted(PcOf(s, e))
    requires forall e: nat :: e in FinishedSet(s) <==> PcOf(s, e).Finished?
    ensures FinishedSet(s) <= AcceptedSet(s) && InFlight(s) == AcceptedSet(s) - FinishedSet(s)
    ensures |InFlight(s)| == |AcceptedSet(s)| - |FinishedSet(s)|
  {
    hide AcceptedSet, FinishedSet;
    assert AcceptedSet(s) == InFlight(s) + FinishedSet(s) && InFlight(s) !! FinishedSet(s);
  }

  lemma InSetsIffSaid(s: State, e: nat)
    ensures e in AcceptedSet(s) <==> Accepted(e) in s.log
    ensures e in FinishedSet(s) <==> Done(e) in s.log
  {
    if Accepted(e) in s.log { assert Accepted(e).e == e; }
    if Done(e) in s.log { assert Done(e).e == e; }
  }

  predicate WorkStep(s: State, step: Step) {
    step.ByCall? && step.e in InFlight(s)
  }

  /** How many operations an accepted call still has before it: unlock, go, look, record, Done. */
  function Rank(pc: EventPc): nat {
    match pc
    case Counted => 5
    case Launching => 4
    case Running => 3
    case Looked(_) => 2
    case Recorded(_) => 1
    case _ => 0
  }

  function AtLeast(s: State, n: nat): set<nat> { set e | e in s.events && Rank(s.events[e]) >= n }

  /** The operations all accepted calls together still have before them. */
  function Remaining(s: State): nat {
    |AtLeast(s, 1)| + |AtLeast(s, 2)| + |AtLeast(s, 3)| + |AtLeast(s, 4)| + |AtLeast(s, 5)|
  }

  lemma AtLeastStep(s: State, e: nat, f: EventEffect, n: nat)
    requires e in s.events && n > 0
    ensures |AtLeast(ApplyEvent(s, e, f), n)| == |AtLeast(s, n)| + One(Rank(f.pc) >= n) - One(Rank(s.events[e]) >= n)
  {
    var after := AtLeast(ApplyEvent(s, e, f), n);
    if Rank(f.pc) >= n {
      assert after == AtLeast(s, n) + {e};
    } else {
      assert after == AtLeast(s, n) - {e};
    }
  }

  lemma RankStep(s: State, e: nat, step: EventStep, f: EventEffect)
    requires CountInv(s) && s.stopped && e in s.events && EventTable(s, e, s.events[e], step) == Some(f)
    ensures Rank(f.pc) == Rank(s.events[e]) - One(InFlightPc(s.events[e]))
    ensures f.delta <= 0 && forall x: nat :: Accepted(x) !in f.says
  {
  }

  lemma FreezeByEvent(s: State, e: nat, step: EventStep, f: EventEffect)
    requires CountInv(s) && s.stopped && e in s.events && EventTable(s, e, s.events[e], step) == Some(f)
    ensures ApplyEvent(s, e, f).wg <= s.wg && AcceptedSet(ApplyEvent(s, e, f)) == AcceptedSet(s)
    ensures Remaining(ApplyEvent(s, e, f)) == Remaining(s) - One(e in InFlight(s))
  {
    RankStep(s, e, step, f);
    AtLeastStep(s, e, f, 1);
    AtLeastStep(s, e, f, 2);
    AtLeastStep(s, e, f, 3);
    AtLeastStep(s, e, f, 4);
    AtLeastStep(s, e, f, 5);
    RankBounds(s.events[e]);
    hide EventTable, Rank, CountInv, AtLeast;
  }

  lemma SameRemaining(s: State, s': State)
    requires forall n: nat | n > 0 :: AtLeast(s', n) == AtLeast(s, n)
    ensures Remaining(s') == Remaining(s)
  {
    hide AtLeast;
  }

  lemma FreezeByStop(s: State, k: nat, step: StopStep, f: StopEffect)
    requires s.stopped && k in s.stops && StopTable(s, k, s.stops[k], step) == Some(f)
    ensures f.stopped && AcceptedSet(ApplyStop(s, k, f)) == AcceptedSet(s)
    ensures Remaining(ApplyStop(s, k, f)) == Remaining(s)
  {
    StopSays(s, k, step, f);
    StopKeepsStopped(s, k, step, f);
    hide StopTable, Remaining;
    SameRemaining(s, ApplyStop(s, k, f));
  }

  /** Once stopped is set, no step adds to the WaitGroup or to the accepted events, and every step
      of an accepted call brings the end of the wait one operation closer. */
  lemma StoppedFreezesAccepted(s: State, step: Step, s': State)
    requires Inv(s) && s.stopped && Do(s, step) == Some(s')
    ensures s'.stopped && s'.wg <= s.wg
    ensures AcceptedSet(s') == AcceptedSet(s)
    ensures Remaining(s') == Remaining(s) - One(WorkStep(s, step))
  {
    Parts(s);
    hide EventTable, StopTable, Rank, Inv, LockInv, CountInv, HistoryInv, OrderInv, Remaining, InFlight;
    match step
    case ByCall(e, event) =>
      hide AcceptedSet, AtLeast;
      FreezeByEvent(s, e, event, EventTable(s, e, s.events[e], event).value);
    case ByShutdown(k, stop) =>
      hide AcceptedSet, AtLeast;
      FreezeByStop(s, k, stop, StopTable(s, k, s.stops[k], stop).value);
    case Call(e) =>
      RankBounds(Entering);
      SameRemaining(s, s');
    case _ =>
      SameRemaining(s, s');
  }

  lemma RankBounds(pc: EventPc)
    ensures Rank(pc) <= 5 && (Rank(pc) > 0 <==> InFlightPc(pc)) && Rank(Entering) == 0
  {
  }

  lemma StopKeepsStopped(s: State, k: nat, step: StopStep, f: StopEffect)
    requires s.stopped && k in s.stops && StopTable(s, k, s.stops[k], step) == Some(f)
    ensures f.stopped
  {
  }

  /** The next operation of an accepted call is never blocked. */
  function NextOperation(pc: EventPc): EventStep {
    match pc
    case Counted => Release
    case Launching => Spawn
    case Running => Look
    case Looked(_) => Record
    case _ => Finish
  }

  lemma WorkIsNeverBlocked(s: State, e: nat)
    requires e in InFlight(s)
    ensures Do(s, ByCall(e, NextOperation(s.events[e]))).Some?
  {
  }

  lemma NothingRemainsIffZero(s: State)
    requires CountInv(s)
    ensures Remaining(s) == 0 <==> s.wg == 0
    ensures Remaining(s) > 0 ==> exists e :: e in InFlight(s)
  {
    assert AtLeast(s, 1) == InFlight(s);
    if InFlight(s) == {} {
      assert AtLeast(s, 2) == {} && AtLeast(s, 3) == {} && AtLeast(s, 4) == {} && AtLeast(s, 5) == {};
    } else {
      var e :| e in InFlight(s);
    }
  }

  function WorkDone(steps: seq<Step>, states: seq<State>, n: nat): nat
    requires |states| == |steps| + 1 && n <= |steps|
  {
    if n == 0 then 0 else WorkDone(steps, states, n - 1) + One(WorkStep(states[n - 1], steps[n - 1]))
  }

  /** In every run from a stopped state the accepted events stay what they were, and the operations
      done by accepted calls plus those remaining are constant, so there is a bound on them. */
  lemma {:induction false} StoppedRunsWindDown(steps: seq<Step>, states: seq<State>, n: nat)
    requires Run(steps, states) && Inv(states[0]) && states[0].stopped && n <= |steps|
    ensures states[n].stopped && AcceptedSet(states[n]) == AcceptedSet(states[0])
    ensures Remaining(states[n]) + WorkDone(steps, states, n) == Remaining(states[0])
  {
    hide Inv, Do, AcceptedSet, Remaining, WorkStep;
    if n > 0 {
      StoppedRunsWindDown(steps, states, n - 1);
      RunKeepsInv(steps, states, n - 1);
      assert Do(states[n - 1], steps[n - 1]) == Some(states[n]);
      StoppedFreezesAccepted(states[n - 1], steps[n - 1], states[n]);
    }
  }

  lemma StepThenRun(s: State, step: Step, steps: seq<Step>, states: seq<State>)
    requires Run(steps, states) && Do(s, step) == Some(states[0])
    ensures Run([step] + steps, [s] + states)
  {
    hide Do;
    forall i | 0 <= i < |steps| + 1 ensures Do(([s] + states)[i], ([step] + steps)[i]) == Some(([s] + states)[i + 1]) {
      if i > 0 { assert Do(states[i - 1], steps[i - 1]) == Some(states[i]); }
    }
  }

  lemma NextWork(s: State) returns (step: Step, s': State)
    requires Inv(s) && s.stopped && Remaining(s) > 0
    ensures Do(s, step) == Some(s') && Inv(s') && s'.stopped && Remaining(s') == Remaining(s) - 1
  {
    NothingRemainsIffZero(s);
    hide Inv, CountInv, Remaining;
    var e :| e in InFlight(s);
    step := ByCall(e, NextOperation(s.events[e]));
    WorkIsNeverBlocked(s, e);
    s' := Do(s, step).value;
    hide Do, NextOperation, InFlight;
    InvStep(s, step, s');
    StoppedFreezesAccepted(s, step, s');
  }

  /** Every waiter can return. */
  ghost predicate WaitersCanWake(s: State) {
    s.wg == 0 && forall k <- s.stops | s.stops[k] == Waiting(false) :: Do(s, ByShutdown(k, Wake)).Some?
  }

  lemma NothingToWaitFor(s: State)
    requires Inv(s) && Remaining(s) == 0
    ensures WaitersCanWake(s)
  {
    NothingRemainsIffZero(s);
    hide Inv, CountInv, Remaining, EventTable;
  }

  lemma NoSteps(s: State)
    ensures Run([], [s])
  {
  }

  /** From every stopped state, letting the accepted calls run (in any order: each is always
      enabled) brings the counter to zero, where every waiter can return. */
  lemma {:induction false} WaitCanAlwaysEnd(s: State) returns (steps: seq<Step>, states: seq<State>)
    requires Inv(s) && s.stopped
    ensures Run(steps, states) && states[0] == s && |steps| == Remaining(s)
    ensures WaitersCanWake(states[|steps|])
    decreases Remaining(s)
  {
    hide Do, Inv, Remaining, WaitersCanWake;
    if Remaining(s) == 0 {
      NothingToWaitFor(s);
      NoSteps(s);
      steps, states := [], [s];
    } else {
      var step, s' := NextWork(s);
      var rest, after := WaitCanAlwaysEnd(s');
      StepThenRun(s, step, rest, after);
      steps, states := [step] + rest, [s] + after;
      assert states[|steps|] == after[|rest|];
    }
  }

  // ----- What the timeout branch gives up -----

  /** The worker has not looked at the recorder yet, or has found it and not called it yet. */
  predicate PendingPc(pc: EventPc) { pc.Counted? || pc.Launching? || pc.Running? || pc == Looked(true) }

  /** Accepted calls that can still hand their event over. */
  function Pending(s: State): set<nat> { set e | e in s.events && PendingPc(s.events[e]) }

  /** In some continuation an event is handed to the recorder. */
  ghost predicate HandsLater(s: State) {
    exists steps: seq<Step>, states: seq<State>, e: nat ::
      Run(steps, states) && states[0] == s && Handed(e) in states[|steps|].log && Handed(e) !in s.log
  }

  function StartsLeft(s: State): nat {
    match s.start
    case NotStarted => 2
    case HasBroadcaster => 1
    case _ => 0
  }

  /** One operation nearer to the recorder: Start's while the recorder is nil, else the call's. */
  lemma PendingStep(s: State, e: nat) returns (step: Step, s': State)
    requires e in Pending(s)
    ensures Do(s, step) == Some(s')
    ensures Handed(e) in s'.log
              || (e in Pending(s') && StartsLeft(s') + Rank(s'.events[e]) < StartsLeft(s) + Rank(s.events[e]))
  {
    var found := s.events[e].Looked? || RecorderNonNil(s);
    step := if found then ByCall(e, NextOperation(s.events[e])) else StartStep;
    s' := Do(s, step).value;
    if s.events[e].Looked? {
      assert s'.log == s.log + [Handed(e)];
    }
  }

  lemma {:induction false} PendingIsHanded(s: State, e: nat) returns (steps: seq<Step>, states: seq<State>)
    requires e in Pending(s)
    ensures Run(steps, states) && states[0] == s && Handed(e) in states[|steps|].log
    decreases StartsLeft(s) + Rank(s.events[e])
  {
    var step, s' := PendingStep(s, e);
    hide Do, Pending, StartsLeft, Rank;
    var rest, after := [], [s'];
    if Handed(e) !in s'.log {
      rest, after := PendingIsHanded(s', e);
    }
    StepThenRun(s, step, rest, after);
    steps, states := [step] + rest, [s] + after;
    assert states[|steps|] == after[|rest|];
  }

  /** Once stopped with nothing pending, no step hands anything over or makes anything pending. */
  lemma NothingPendingStep(s: State, step: Step, s': State)
    requires CountInv(s) && s.stopped && Pending(s) == {} && Do(s, step) == Some(s')
    ensures s'.stopped && Pending(s') == {}
    ensures forall e: nat :: Handed(e) in s'.log ==> Handed(e) in s.log
  {
    if step.ByCall? {
      var f := EventTable(s, step.e, s.events[step.e], step.event).value;
      assert step.e !in Pending(s);
      assert !PendingPc(f.pc);
      assert forall e: nat :: Handed(e) !in f.says;
      assert forall e | e in s'.events && e != step.e :: s'.events[e] == s.events[e];
    } else if step.ByShutdown? {
      hide StopTable;
      var f := StopTable(s, step.k, s.stops[step.k], step.stop).value;
      StopSays(s, step.k, step.stop, f);
      StopKeepsStopped(s, step.k, step.stop, f);
      assert Pending(s') == Pending(s);
    } else if step.Call? {
      assert forall e | e in s'.events && e != step.e :: s'.events[e] == s.events[e];
    } else {
      assert Pending(s') == Pending(s);
    }
  }

  lemma {:induction false} NothingPendingRun(steps: seq<Step>, states: seq<State>, n: nat)
    requires Run(steps, states) && Inv(states[0]) && states[0].stopped && Pending(states[0]) == {} && n <= |steps|
    ensures states[n].stopped && Pending(states[n]) == {}
    ensures forall e: nat :: Handed(e) in states[n].log ==> Handed(e) in states[0].log
  {
    if n > 0 {
      NothingPendingRun(steps, states, n - 1);
      RunKeepsInv(steps, states, n - 1);
      Parts(states[n - 1]);
      hide Inv, Do, Pending, CountInv;
      assert Do(states[n - 1], steps[n - 1]) == Some(states[n]);
      NothingPendingStep(states[n - 1], steps[n - 1], states[n]);
    }
  }

  /** Exactly when, after a stop, an event can still be handed to the recorder. */
  lemma HandsLaterIff(s: State)
    requires Reachable(s) && s.stopped
    ensures HandsLater(s) <==> Pending(s) != {}
  {
    ReachableInv(s);
    hide Inv, Do, Reachable, Pending;
    if Pending(s) != {} {
      var e :| e in Pending(s);
      PendingWasNotHanded(s, e);
      var steps, states := PendingIsHanded(s, e);
      assert HandsLater(s);
    }
    if HandsLater(s) {
      var steps: seq<Step>, states: seq<State>, e: nat :|
        Run(steps, states) && states[0] == s && Handed(e) in states[|steps|].log && Handed(e) !in s.log;
      if Pending(s) == {} { NothingPendingRun(steps, states, |steps|); }
    }
  }

  lemma PendingWasNotHanded(s: State, e: nat)
    requires Inv(s) && e in Pending(s)
    ensures Handed(e) !in s.log && e in InFlight(s)
  {
    Parts(s);
    SaidSoFar(s, e);
  }

  /** So right after a broadcaster went down, what can still reach its recorder are the events that were
      pending by then: none on the done branch, any such on the timeout branch. */
  lemma ClosingLosesIff(s: State, k: nat, s': State)
    requires Reachable(s) && k in s.stops && s.stops[k].Leaving? && s.start != NotStarted
    requires Do(s, ByShutdown(k, CloseBroadcaster)) == Some(s')
    ensures s'.log == s.log + [BroadcasterDown(k, s.stops[k].flushed)]
    ensures HandsLater(s') <==> Pending(s) != {}
    ensures s.stops[k].flushed ==> Pending(s) == {}
  {
    ReachableInv(s);
    Parts(s);
    var after := Advance(s, ByShutdown(k, CloseBroadcaster));
    hide Reachable, HistoryInv, OrderInv, LockInv;
    assert s'.stopped && Pending(s') == Pending(s);
    HandsLaterIff(s');
    assert s.stops[k].flushed ==> SawZero(s.stops[k]);
    assert Pending(s) <= InFlight(s);
  }

  lemma InitialReachable()
    ensures Reachable(INITIAL)
  {
    var none: seq<Step>, one := [], [INITIAL];
    assert Run(none, one) && one[0] == INITIAL && one[|none|] == INITIAL;
  }

  lemma Advance(s: State, step: Step) returns (s': State)
    requires Reachable(s) && Do(s, step).Some?
    ensures s' == Do(s, step).value && Reachable(s')
  {
    hide Do;
    s' := Do(s, step).value;
    var steps: seq<Step>, states: seq<State> :| Run(steps, states) && states[0] == INITIAL && states[|steps|] == s;
    var steps', states' := steps + [step], states + [s'];
    forall i | 0 <= i < |steps'| ensures Do(states'[i], steps'[i]) == Some(states'[i + 1]) {
      if i < |steps| { assert Do(states[i], steps[i]) == Some(states[i + 1]); }
    }
    assert Run(steps', states') && states'[0] == INITIAL && states'[|steps'|] == s';
  }

  lemma AcceptOne() returns (s: State)
    ensures Reachable(s)
    ensures s == State(Nobody, false, 1, HasRecorder, map[0 := Running], map[], [RecorderSet, Accepted(0)])
  {
    hide Reachable;
    InitialReachable();
    s := Advance(INITIAL, StartStep);
    s := Advance(s, StartStep);
    s := Advance(s, Call(0));
    s := Advance(s, ByCall(0, Acquire));
    s := Advance(s, ByCall(0, Check));
    s := Advance(s, ByCall(0, Add));
    s := Advance(s, ByCall(0, Release));
    s := Advance(s, ByCall(0, Spawn));
  }

  lemma StopAndWait() returns (s: State)
    ensures Reachable(s)
    ensures s == State(Nobody, true, 1, HasRecorder, map[0 := Looked(true)], map[0 := Waiting(false)],
              [RecorderSet, Accepted(0), StopSet])
  {
    hide Reachable;
    s := AcceptOne();
    s := Advance(s, ByCall(0, Look));
    s := Advance(s, Shutdown(0));
    s := Advance(s, ByShutdown(0, Lock));
    s := Advance(s, ByShutdown(0, Mark));
    s := Advance(s, ByShutdown(0, Unlock));
    s := Advance(s, ByShutdown(0, SpawnWaiter));
  }

  lemma ShutDownByTimeout() returns (s: State)
    ensures Reachable(s)
    ensures s == State(Nobody, true, 1, HasRecorder, map[0 := Looked(true)], map[0 := Closed(false)],
                       [RecorderSet, Accepted(0), StopSet, BroadcasterDown(0, false)])
  {
    hide Reachable;
    s := StopAndWait();
    s := Advance(s, ByShutdown(0, TakeTimeout));
    s := Advance(s, ByShutdown(0, CloseBroadcaster));
  }

  /** After a timeout a worker that has found the recorder can call it although its broadcaster was shut
      down in between; after a flush none can, by OrderInv. */
  lemma TimeoutCanCloseUnderAWorker()
    ensures exists s: State, i: nat, j: nat ::
              Reachable(s) && i < j < |s.log| && s.log[i] == BroadcasterDown(0, false) && s.log[j] == Handed(0)
  {
    hide Reachable;
    var s := ShutDownByTimeout();
    s := Advance(s, ByCall(0, Record));
    assert s.log[3] == BroadcasterDown(0, false) && s.log[4] == Handed(0);
  }
}
