/**
 Concurrent ring operations. Published states live in an append-only `heap` and a pointer is an
 index into it: each publication allocates a fresh state, so a pointer never comes back. Any
 number of operation instances interleave; a step that is not enabled changes nothing.
 */
module KeyRingThreads {
  import opened KeyRing

  datatype Phase =
    | Invoked                              // about to load
    | Loaded(ptr: nat)                     // holds a snapshot, about to compare-and-swap
    | Returned(answer: Answer, at: nat)    // took effect as entry `at` of the log

  /**
   `loggedBefore` and `winsBefore` are the log length and the number of published states when the
   operation was invoked; `failures` counts its failed compare-and-swaps.
   */
  datatype Call = Call(op: Op, phase: Phase, loggedBefore: nat, winsBefore: nat, failures: nat)

  datatype Entry = Entry(id: nat, op: Op, answer: Answer)

  /** `log` lists the operations in the order in which they took effect. */
  datatype State = State(heap: seq<RingState>, calls: map<nat, Call>, log: seq<Entry>)

  datatype Step = Invoke(id: nat, op: Op) | Load(id: nat) | Cas(id: nat)

  predicate WellFormed(s: State) { s.heap != [] }

  function Initial(ring: RingState): State { State([ring], map[], []) }

  /** The state the atomic pointer refers to: the newest publication. */
  function Current(s: State): RingState
    requires WellFormed(s)
  {
    s.heap[|s.heap| - 1]
  }

  function TakeEffect(s: State, id: nat, answer: Answer): State
    requires id in s.calls
  {
    s.(calls := s.calls[id := s.calls[id].(phase := Returned(answer, |s.log|))],
       log := s.log + [Entry(id, s.calls[id].op, answer)])
  }

  predicate Enabled(s: State, st: Step) {
    match st
    case Invoke(id, _) => id !in s.calls
    case Load(id) => id in s.calls && s.calls[id].phase.Invoked?
    case Cas(id) => id in s.calls && s.calls[id].phase.Loaded?
  }

  function Next(s: State, st: Step): State
    requires WellFormed(s)
  {
    if !Enabled(s, st) then s
    else match st
      case Invoke(id, op) =>
        s.(calls := s.calls[id := Call(op, Invoked, |s.log|, |s.heap|, 0)])
      case Load(id) =>
        var op := s.calls[id].op;
        if op.Snapshot? then TakeEffect(s, id, Saw(Current(s)))
        else if !Acceptable(op) || !Publishes(Current(s), op) then TakeEffect(s, id, Rejected)
        else s.(calls := s.calls[id := s.calls[id].(phase := Loaded(|s.heap| - 1))])
      case Cas(id) =>
        var c := s.calls[id];
        if c.phase.ptr == |s.heap| - 1 then
          TakeEffect(s, id, Done).(heap := s.heap + [Modified(s.heap[c.phase.ptr], c.op)])
        else
          s.(calls := s.calls[id := c.(phase := Invoked, failures := c.failures + 1)])
  }

  function Exec(s: State, steps: seq<Step>): (s': State)
    requires WellFormed(s)
    ensures WellFormed(s')
    decreases |steps|
  {
    if steps == [] then s else Exec(Next(s, steps[0]), steps[1..])
  }

  /** The logged operations performed one at a time, from `ring`. */
  function Replay(ring: RingState, log: seq<Entry>): RingState {
    if log == [] then ring
    else Outcome(Replay(ring, log[..|log| - 1]), log[|log| - 1].op).0
  }

  /** Each logged answer is the one the sequential operation gives at that point. */
  ghost predicate Sequential(ring: RingState, log: seq<Entry>) {
    forall i :: 0 <= i < |log| ==> log[i].answer == Outcome(Replay(ring, log[..i]), log[i].op).1
  }

  function Wins(log: seq<Entry>): nat {
    if log == [] then 0 else Wins(log[..|log| - 1]) + (if log[|log| - 1].answer.Done? then 1 else 0)
  }

  // ------------------------------------------------------------------
  // Invariant
  // ------------------------------------------------------------------

  ghost predicate CallOk(heap: seq<RingState>, log: seq<Entry>, id: nat, c: Call) {
    && c.loggedBefore <= |log| && c.winsBefore <= |heap|
    && match c.phase
       case Invoked => c.failures <= |heap| - c.winsBefore
       case Loaded(ptr) =>
         && ptr < |heap| && Acceptable(c.op) && Publishes(heap[ptr], c.op) && !c.op.Snapshot?
         && c.failures <= ptr + 1 - c.winsBefore
       case Returned(answer, at) =>
         && c.loggedBefore <= at < |log| && log[at] == Entry(id, c.op, answer)
         && c.failures + (if answer.Done? then 1 else 0) <= |heap| - c.winsBefore
  }

  ghost predicate CallsOk(heap: seq<RingState>, log: seq<Entry>, calls: map<nat, Call>) {
    && (forall id :: id in calls ==> CallOk(heap, log, id, calls[id]))
    && (forall i :: 0 <= i < |log| ==>
          log[i].id in calls && calls[log[i].id].phase == Returned(log[i].answer, i))
  }

  ghost predicate LogOk(ring: RingState, heap: seq<RingState>, log: seq<Entry>) {
    && heap != []
    && Replay(ring, log) == heap[|heap| - 1]
    && Sequential(ring, log)
    && (forall i :: 0 <= i < |heap| ==> ValidRing(heap[i]))
    && Wins(log) == |heap| - 1
  }

  ghost predicate Inv(ring: RingState, s: State) {
    LogOk(ring, s.heap, s.log) && CallsOk(s.heap, s.log, s.calls)
  }

  lemma ReplayAppend(ring: RingState, log: seq<Entry>, e: Entry)
    ensures Replay(ring, log + [e]) == Outcome(Replay(ring, log), e.op).0
    ensures Wins(log + [e]) == Wins(log) + (if e.answer.Done? then 1 else 0)
    ensures Sequential(ring, log) && e.answer == Outcome(Replay(ring, log), e.op).1 ==> Sequential(ring, log + [e])
  {
    assert (log + [e])[..|log|] == log;
    forall i | 0 <= i < |log| ensures (log + [e])[..i] == log[..i] { }
  }

  /** A call that moves without taking effect. */
  lemma MoveKeepsCalls(heap: seq<RingState>, log: seq<Entry>, calls: map<nat, Call>, id: nat, c: Call)
    requires CallsOk(heap, log, calls) && CallOk(heap, log, id, c) && !c.phase.Returned?
    requires id in calls ==> !calls[id].phase.Returned?
    ensures CallsOk(heap, log, calls[id := c])
  {
  }

  /** A call that takes effect, publishing `more` (at most one new state). */
  lemma EffectKeepsCalls(heap: seq<RingState>, more: seq<RingState>, log: seq<Entry>, calls: map<nat, Call>, id: nat,
                         answer: Answer)
    requires CallsOk(heap, log, calls) && id in calls && !calls[id].phase.Returned?
    requires answer.Done? ==> |more| == 1
    ensures CallsOk(heap + more, log + [Entry(id, calls[id].op, answer)],
                    calls[id := calls[id].(phase := Returned(answer, |log|))])
  {
  }

  lemma LoadKeepsInv(ring: RingState, s: State, id: nat)
    requires Inv(ring, s) && Enabled(s, Load(id))
    ensures Inv(ring, Next(s, Load(id)))
  {
    var c := s.calls[id];
    if c.op.Snapshot? || !Acceptable(c.op) || !Publishes(Current(s), c.op) {
      var answer := if c.op.Snapshot? then Saw(Current(s)) else Rejected;
      ReplayAppend(ring, s.log, Entry(id, c.op, answer));
      EffectKeepsCalls(s.heap, [], s.log, s.calls, id, answer);
      assert s.heap + [] == s.heap;
    } else {
      MoveKeepsCalls(s.heap, s.log, s.calls, id, c.(phase := Loaded(|s.heap| - 1)));
    }
  }

  lemma PublishKeepsLog(ring: RingState, heap: seq<RingState>, log: seq<Entry>, e: Entry)
    requires LogOk(ring, heap, log)
    requires e.answer.Done? && Acceptable(e.op) && Publishes(heap[|heap| - 1], e.op) && !e.op.Snapshot?
    ensures LogOk(ring, heap + [Modified(heap[|heap| - 1], e.op)], log + [e])
  {
    ReplayAppend(ring, log, e);
    OutcomeKeepsRingValid(heap[|heap| - 1], e.op);
  }

  lemma CasKeepsInv(ring: RingState, s: State, id: nat)
    requires Inv(ring, s) && Enabled(s, Cas(id))
    ensures Inv(ring, Next(s, Cas(id)))
  {
    var c := s.calls[id];
    assert CallOk(s.heap, s.log, id, c);
    if c.phase.ptr == |s.heap| - 1 {
      PublishKeepsLog(ring, s.heap, s.log, Entry(id, c.op, Done));
      EffectKeepsCalls(s.heap, [Modified(s.heap[c.phase.ptr], c.op)], s.log, s.calls, id, Done);
    } else {
      MoveKeepsCalls(s.heap, s.log, s.calls, id, c.(phase := Invoked, failures := c.failures + 1));
    }
  }

  lemma StepKeepsInv(ring: RingState, s: State, st: Step)
    requires Inv(ring, s)
    ensures Inv(ring, Next(s, st))
  {
    if Enabled(s, st) {
      match st
      case Invoke(id, op) =>
        MoveKeepsCalls(s.heap, s.log, s.calls, id, Call(op, Invoked, |s.log|, |s.heap|, 0));
      case Load(id) => LoadKeepsInv(ring, s, id);
      case Cas(id) => CasKeepsInv(ring, s, id);
    }
  }

  lemma {:induction false} InvHolds(ring: RingState, s: State, steps: seq<Step>)
    requires Inv(ring, s)
    ensures Inv(ring, Exec(s, steps))
    decreases |steps|
  {
    if steps != [] {
      StepKeepsInv(ring, s, steps[0]);
      InvHolds(ring, Next(s, steps[0]), steps[1..]);
    }
  }

  // ------------------------------------------------------------------
  // Results over every run
  // ------------------------------------------------------------------

  /**
   Linearizability: the answers of a run are those of performing its operations one at a time in
   log order, the ring holds the result, and every operation that returned is logged exactly once
   (an operation appears in the log only if it returned).
   */
  lemma RunsAreLinearizable(ring: RingState, steps: seq<Step>)
    requires ValidRing(ring)
    ensures var s := Exec(Initial(ring), steps);
            && Sequential(ring, s.log)
            && Current(s) == Replay(ring, s.log)
            && (forall id :: id in s.calls && s.calls[id].phase.Returned? ==>
                  var at := s.calls[id].phase.at;
                  && at < |s.log| && s.log[at] == Entry(id, s.calls[id].op, s.calls[id].phase.answer)
                  && forall i :: 0 <= i < |s.log| && s.log[i].id == id ==> i == at)
            && (forall i :: 0 <= i < |s.log| ==> s.log[i].id in s.calls && s.calls[s.log[i].id].phase.Returned?)
  {
    InvHolds(ring, Initial(ring), steps);
    var s := Exec(Initial(ring), steps);
    forall id | id in s.calls && s.calls[id].phase.Returned?
      ensures s.calls[id].phase.at < |s.log|
      ensures s.log[s.calls[id].phase.at] == Entry(id, s.calls[id].op, s.calls[id].phase.answer)
    {
      assert CallOk(s.heap, s.log, id, s.calls[id]);
    }
  }

  /** Log order respects real time: an operation that returned before another was invoked comes first. */
  lemma RealTimeOrderKept(ring: RingState, before: seq<Step>, a: nat, b: nat, op: Op, after: seq<Step>)
    requires ValidRing(ring)
    requires var s := Exec(Initial(ring), before); a in s.calls && s.calls[a].phase.Returned? && b !in s.calls
    requires var t := Exec(Next(Exec(Initial(ring), before), Invoke(b, op)), after);
             b in t.calls && t.calls[b].phase.Returned?
    ensures var t := Exec(Next(Exec(Initial(ring), before), Invoke(b, op)), after);
            a in t.calls && t.calls[a].phase.Returned? && t.calls[a].phase.at < t.calls[b].phase.at
  {
    var s := Exec(Initial(ring), before);
    var s1 := Next(s, Invoke(b, op));
    InvHolds(ring, Initial(ring), before);
    StepKeepsInv(ring, s, Invoke(b, op));
    InvHolds(ring, s1, after);
    assert CallOk(s.heap, s.log, a, s.calls[a]);
    CallsPersist(s1, after, a);
    CallsPersist(s1, after, b);
    var t := Exec(s1, after);
    assert CallOk(t.heap, t.log, b, t.calls[b]);
  }

  lemma {:induction false} CallsPersist(s: State, steps: seq<Step>, id: nat)
    requires WellFormed(s) && id in s.calls
    ensures var t := Exec(s, steps);
            && id in t.calls && t.calls[id].loggedBefore == s.calls[id].loggedBefore
            && t.calls[id].winsBefore == s.calls[id].winsBefore
            && (s.calls[id].phase.Returned? ==> t.calls[id] == s.calls[id])
    decreases |steps|
  {
    if steps != [] {
      CallsPersist(Next(s, steps[0]), steps[1..], id);
    }
  }

  /**
   Lock-freedom, by accounting: an operation's failed compare-and-swaps never outnumber the states
   other operations published since it was invoked.
   */
  lemma FailuresAreCharged(ring: RingState, steps: seq<Step>, id: nat)
    requires ValidRing(ring) && id in Exec(Initial(ring), steps).calls
    ensures var s := Exec(Initial(ring), steps);
            var c := s.calls[id];
            var own := if c.phase.Returned? && c.phase.answer.Done? then 1 else 0;
            c.failures + own <= Wins(s.log) + 1 - c.winsBefore
  {
    InvHolds(ring, Initial(ring), steps);
    var s := Exec(Initial(ring), steps);
    assert CallOk(s.heap, s.log, id, s.calls[id]);
  }

  /** Every state ever published is a well-formed ring. */
  lemma PublishedRingsAreValid(ring: RingState, steps: seq<Step>)
    requires ValidRing(ring)
    ensures forall i :: 0 <= i < |Exec(Initial(ring), steps).heap| ==> ValidRing(Exec(Initial(ring), steps).heap[i])
  {
    InvHolds(ring, Initial(ring), steps);
  }
}
