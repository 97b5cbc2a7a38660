/**
 The background sampler's life: StartLagSampler under a mutex, Close behind a once, and the sampler
 goroutine, interleaved in any way. A captured sampler is cancelled and joined before Close returns.
 */
module SamplerLifecycle {
  import opened Common

  /** How far the one body of Close has got; `Entered` has not yet read the sampler fields. */
  datatype Once =
    | Fresh
    | Entered
    | Captured(sampler: Option<nat>)
    | Cancelled(sampler: Option<nat>)
    | Finished(sampler: Option<nat>)

  /**
   `samplerDone` is the sampler the router's fields name; `started` counts the goroutines ever
   started and `exited` lists the ended ones; `work` logs each access a goroutine makes to the router or the replica.
   */
  datatype State = State(
    samplerDone: Option<nat>,
    started: nat,
    exited: set<nat>,
    cancelled: set<nat>,
    outerDone: bool,
    once: Once,
    returned: set<nat>,
    work: seq<nat>)

  datatype Step =
    | Start(hasReplica: bool, interval: int)
    | OuterCancel
    | CloseEnter
    | CloseCapture
    | CloseCancel
    | CloseJoin
    | CloseReturn(caller: nat)
    | Work(sampler: nat)
    | Exit(sampler: nat)

  const INITIAL := State(None, 0, {}, {}, false, Fresh, {}, [])

  predicate Running(s: State, i: nat) { i < s.started && i !in s.exited }

  /** One step; a step that is not enabled changes nothing. */
  function Next(s: State, step: Step): State {
    match step
    case Start(hasReplica, interval) =>
      if !hasReplica || interval <= 0 || s.samplerDone.Some? then s
      else s.(samplerDone := Some(s.started), started := s.started + 1)
    case OuterCancel => s.(outerDone := true)
    case CloseEnter => if s.once.Fresh? then s.(once := Entered) else s
    case CloseCapture => if s.once.Entered? then s.(once := Captured(s.samplerDone)) else s
    case CloseCancel =>
      if !s.once.Captured? then s
      else s.(once := Cancelled(s.once.sampler),
              cancelled := s.cancelled + if s.once.sampler.Some? then {s.once.sampler.value} else {})
    case CloseJoin =>
      if s.once.Cancelled? && (s.once.sampler.Some? ==> s.once.sampler.value in s.exited)
      then s.(once := Finished(s.once.sampler))
      else s
    case CloseReturn(c) => if s.once.Finished? then s.(returned := s.returned + {c}) else s
    case Work(i) => if Running(s, i) then s.(work := s.work + [i]) else s
    case Exit(i) => if Running(s, i) && (i in s.cancelled || s.outerDone) then s.(exited := s.exited + {i}) else s
  }

  function Exec(s: State, steps: seq<Step>): State {
    if steps == [] then s else Next(Exec(s, steps[..|steps| - 1]), steps[|steps| - 1])
  }

  ghost predicate Inv(s: State) {
    && s.started <= 1
    && (s.started == 0 <==> s.samplerDone.None?) && (s.samplerDone.Some? ==> s.samplerDone.value == 0)
    && (forall i :: i in s.exited ==> i < s.started)
    && ((s.once.Captured? || s.once.Cancelled? || s.once.Finished?) && s.once.sampler.Some? ==>
        s.once.sampler == s.samplerDone)
    && (s.once.Finished? && s.once.sampler.Some? ==> s.once.sampler.value in s.exited)
    && (s.returned != {} ==> s.once.Finished?)
    && (forall i :: i in s.cancelled ==> (s.once.Cancelled? || s.once.Finished?) && s.once.sampler == Some(i))
  }

  lemma NextKeeps(s: State, step: Step)
    requires Inv(s)
    ensures Inv(Next(s, step))
  {
  }

  lemma {:induction false} InvHolds(steps: seq<Step>)
    ensures Inv(Exec(INITIAL, steps))
  {
    if steps != [] {
      InvHolds(steps[..|steps| - 1]);
      NextKeeps(Exec(INITIAL, steps[..|steps| - 1]), steps[|steps| - 1]);
    }
  }

  lemma {:induction false} ExecConcat(s: State, a: seq<Step>, b: seq<Step>)
    ensures Exec(s, a + b) == Exec(Exec(s, a), b)
  {
    if b == [] {
      assert a + b == a;
    } else {
      var front, last := b[..|b| - 1], b[|b| - 1];
      ExecConcat(s, a, front);
      assert (a + b)[..|a + b| - 1] == a + front;
    }
  }

  /** A start takes effect exactly with a replica, a positive interval and no sampler started before. */
  lemma StartsIff(s: State, hasReplica: bool, interval: int)
    requires Inv(s)
    ensures var s' := Next(s, Start(hasReplica, interval));
            if hasReplica && interval > 0 && s.started == 0
            then s' == s.(samplerDone := Some(0), started := 1) && (s.exited == {} ==> Running(s', 0))
            else s' == s
  {
  }

  lemma ThreeSteps(s: State, a: Step, b: Step, c: Step)
    ensures Exec(s, [a, b, c]) == Next(Next(Next(s, a), b), c)
  {
    var run := [a, b, c];
    assert run[..2] == [a, b] && [a, b][..1] == [a] && [a][..0] == [];
    assert Exec(s, [a]) == Next(s, a);
  }

  lemma CloseCancels(s: State)
    requires Inv(s) && s.once.Fresh?
    ensures var s' := Exec(s, [CloseEnter, CloseCapture, CloseCancel]);
            && s' == s.(once := Cancelled(s.samplerDone),
                        cancelled := s.cancelled + if s.samplerDone.Some? then {s.samplerDone.value} else {})
  {
    ThreeSteps(s, CloseEnter, CloseCapture, CloseCancel);
  }

  lemma CloseJoins(s: State, c: nat)
    requires Inv(s) && s.once == Cancelled(s.samplerDone)
    requires s.samplerDone.Some? ==> s.samplerDone.value in s.cancelled
    ensures var s' := Exec(s, [Exit(0), CloseJoin, CloseReturn(c)]);
            c in s'.returned && s'.work == s.work && forall i :: !Running(s', i)
  {
    ThreeSteps(s, Exit(0), CloseJoin, CloseReturn(c));
  }

  /** A first Close cancels the sampler it finds; once that has left, the call returns and none runs. */
  lemma LoneCloseReturns(s: State, c: nat)
    requires Inv(s) && s.once.Fresh?
    ensures var s' := Exec(s, [CloseEnter, CloseCapture, CloseCancel] + [Exit(0), CloseJoin, CloseReturn(c)]);
            c in s'.returned && s'.work == s.work && forall i :: !Running(s', i)
  {
    ExecConcat(s, [CloseEnter, CloseCapture, CloseCancel], [Exit(0), CloseJoin, CloseReturn(c)]);
    CloseCancels(s);
    CloseJoins(Exec(s, [CloseEnter, CloseCapture, CloseCancel]), c);
  }

  /** However Start and Close calls interleave, no second sampler is ever started. */
  lemma AtMostOneSampler(steps: seq<Step>, i: nat, j: nat)
    requires Running(Exec(INITIAL, steps), i) && Running(Exec(INITIAL, steps), j)
    ensures i == j && Exec(INITIAL, steps).started <= 1
  {
    InvHolds(steps);
  }

  /** A joined sampler stays dead, makes no further access, and no other one is started. */
  lemma {:induction false} JoinedStaysDead(s: State, more: seq<Step>)
    requires Inv(s) && s.once.Finished? && s.once.sampler.Some?
    ensures var s' := Exec(s, more);
            && s'.work == s.work && s'.started == s.started && Inv(s') && s'.once == s.once
            && forall i :: !Running(s', i)
  {
    if more != [] {
      JoinedStaysDead(s, more[..|more| - 1]);
      NextKeeps(Exec(s, more[..|more| - 1]), more[|more| - 1]);
    }
  }

  /** Close read the sampler fields when they were still empty. */
  predicate MissedStart(s: State) { s.once.Finished? && s.once.sampler.None? }

  /** Nothing but the outer context stops a sampler that Close missed; later Close calls do not. */
  lemma {:induction false} MissedRunsOn(s: State, more: seq<Step>)
    requires Inv(s) && MissedStart(s) && !s.outerDone && s.exited == {}
    requires forall k :: 0 <= k < |more| ==> !more[k].OuterCancel?
    ensures var s' := Exec(s, more);
            Inv(s') && MissedStart(s') && !s'.outerDone && s'.exited == {} && s'.started >= s.started
  {
    if more != [] {
      MissedRunsOn(s, more[..|more| - 1]);
      NextKeeps(Exec(s, more[..|more| - 1]), more[|more| - 1]);
    }
  }

  /**
   After a Close call has returned, some continuation makes a sampler access exactly when Close found no
   sampler to join and the outer context has not already ended the one started since.
   */
  lemma QuietAfterCloseIff(steps: seq<Step>, c: nat)
    requires c in Exec(INITIAL, steps).returned
    ensures var s := Exec(INITIAL, steps);
            && s.once.Finished?
            && ((forall more :: Exec(s, more).work == s.work) <==> s.once.sampler.Some? || s.exited != {})
  {
    InvHolds(steps);
    var s := Exec(INITIAL, steps);
    if s.once.sampler.Some? {
      forall more ensures Exec(s, more).work == s.work {
        JoinedStaysDead(s, more);
      }
    } else if s.exited != {} {
      forall more ensures Exec(s, more).work == s.work {
        ExitedStaysDead(s, more);
      }
    } else {
      MissedCanWork(s);
    }
  }

  lemma {:induction false} ExitedStaysDead(s: State, more: seq<Step>)
    requires Inv(s) && s.exited != {}
    ensures Inv(Exec(s, more)) && Exec(s, more).exited == s.exited && Exec(s, more).work == s.work
            && Exec(s, more).started == s.started
  {
    if more != [] {
      ExitedStaysDead(s, more[..|more| - 1]);
      NextKeeps(Exec(s, more[..|more| - 1]), more[|more| - 1]);
    }
  }

  lemma MissedCanWork(s: State)
    requires Inv(s) && s.exited == {}
    ensures Exec(s, [Start(true, 1), Work(0)]).work == s.work + [0]
  {
    var run := [Start(true, 1), Work(0)];
    assert run[..1] == [Start(true, 1)] && run[..1][..0] == [];
    assert Exec(s, run[..1]) == Next(s, Start(true, 1));
  }

  lemma {:induction false} CaptureStays(s: State, more: seq<Step>)
    requires Inv(s) && s.started > 0 && (s.once.Fresh? || s.once.Entered? || s.once.sampler.Some?)
    ensures var s' := Exec(s, more);
            Inv(s') && s'.started > 0 && (s'.once.Fresh? || s'.once.Entered? || s'.once.sampler.Some?)
  {
    if more != [] {
      CaptureStays(s, more[..|more| - 1]);
      NextKeeps(Exec(s, more[..|more| - 1]), more[|more| - 1]);
    }
  }

  /** A sampler started before Close reads the fields makes no access after any Close call returns. */
  lemma StartedBeforeCloseIsJoined(before: seq<Step>, during: seq<Step>, after: seq<Step>, c: nat)
    requires Exec(INITIAL, before).started > 0
             && (Exec(INITIAL, before).once.Fresh? || Exec(INITIAL, before).once.Entered?)
    requires c in Exec(INITIAL, before + during).returned
    ensures var s := Exec(INITIAL, before + during);
            && Exec(INITIAL, before + during + after).work == s.work
            && forall i :: !Running(Exec(INITIAL, before + during + after), i)
  {
    var s := Exec(INITIAL, before + during);
    InvHolds(before);
    InvHolds(before + during);
    ExecConcat(INITIAL, before, during);
    CaptureStays(Exec(INITIAL, before), during);
    ExecConcat(INITIAL, before + during, after);
    JoinedStaysDead(s, after);
  }
}
