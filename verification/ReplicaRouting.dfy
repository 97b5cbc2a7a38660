/**
 Replica routing: samplers store a lag and then a timestamp, readers load the timestamp and then the lag,
 each as a separate atomic access, interleaved in any way by any number of samplers and readers.
 */
module ReplicaRouting {
  import opened Common

  /** Tolerance and staleness bound in nanoseconds. */
  datatype Config = Config(hasReplica: bool, tolerance: int, staleness: int)

  /** The row the lag probe returns; `seconds` is null when nothing was ever replayed. */
  datatype Probe = Probe(inRecovery: bool, replayed: bool, seconds: Option<real>)

  function ObservedLag(p: Probe): int {
    if p.inRecovery && !p.replayed then -1
    else if p.seconds.None? then 0
    else if p.seconds.value < 0.0 then 0
    else (p.seconds.value * 1000000000.0).Floor
  }

  /**
   The sentinel means exactly a standby that has replayed nothing; any other lag is the clock difference,
   never negative.
   */
  lemma LagMeaning(p: Probe)
    ensures ObservedLag(p) < 0 <==> p.inRecovery && !p.replayed
    ensures ObservedLag(p) >= 0 && p.seconds.Some? && p.seconds.value >= 0.0 ==>
              ObservedLag(p) as real <= p.seconds.value * 1000000000.0 < (ObservedLag(p) + 1) as real
    ensures ObservedLag(p) > 0 ==> p.seconds.Some? && p.seconds.value > 0.0
  {
  }

  /** A completed lag store: what was probed, and when the lag was stored. */
  datatype Sample = Sample(probe: Probe, storedAt: int)

  /** The timestamp cell: zero before the first sample. `sample` names the sample whose caller wrote it. */
  datatype Stamp = Stamp(at: int, sample: int)

  datatype Reader =
    | Loaded(stamp: Stamp)
    | Passed(stamp: Stamp, checkedAt: int)

  datatype Decision =
    | Primary
    | Replica(stamp: Stamp, checkedAt: int, lagOf: int, lag: int)

  /** `samples` lists the lag stores in order, so its last entry is what the lag cell holds. */
  datatype State = State(
    clock: int,
    samples: seq<Sample>,
    stamp: Stamp,
    samplers: map<nat, nat>,
    readers: map<nat, Reader>,
    decisions: seq<Decision>)

  datatype Step =
    | Tick(elapsed: nat)
    | StoreLag(sampler: nat, probe: Probe)
    | StoreStamp(sampler: nat)
    | LoadStamp(reader: nat)
    | CheckAge(reader: nat)
    | LoadLag(reader: nat)

  function LagCell(s: State): int {
    if s.samples == [] then 0 else ObservedLag(s.samples[|s.samples| - 1].probe)
  }

  function Init(clock: int): State {
    State(clock, [], Stamp(0, -1), map[], map[], [])
  }

  function Decide(s: State, reader: nat, d: Decision): State {
    s.(readers := s.readers - {reader}, decisions := s.decisions + [d])
  }

  /** One atomic access. A step that is not enabled changes nothing. */
  function Next(c: Config, s: State, step: Step): State {
    match step
    case Tick(n) => s.(clock := s.clock + n)
    case StoreLag(p, probe) =>
      if p in s.samplers || !c.hasReplica then s
      else s.(samples := s.samples + [Sample(probe, s.clock)], samplers := s.samplers[p := |s.samples|])
    case StoreStamp(p) =>
      if p !in s.samplers then s
      else s.(stamp := Stamp(s.clock, s.samplers[p]), samplers := s.samplers - {p})
    case LoadStamp(r) =>
      if r in s.readers then s
      else if !c.hasReplica || c.tolerance <= 0 then Decide(s, r, Primary)
      else s.(readers := s.readers[r := Loaded(s.stamp)])
    case CheckAge(r) =>
      if r !in s.readers || !s.readers[r].Loaded? then s
      else
        var stamp := s.readers[r].stamp;
        if stamp.at == 0 || s.clock - stamp.at > c.staleness then Decide(s, r, Primary)
        else s.(readers := s.readers[r := Passed(stamp, s.clock)])
    case LoadLag(r) =>
      if r !in s.readers || !s.readers[r].Passed? then s
      else
        var lag := LagCell(s);
        if lag < 0 || lag > c.tolerance then Decide(s, r, Primary)
        else Decide(s, r, Replica(s.readers[r].stamp, s.readers[r].checkedAt, |s.samples| - 1, lag))
  }

  function Exec(c: Config, s: State, steps: seq<Step>): State {
    if steps == [] then s else Next(c, Exec(c, s, steps[..|steps| - 1]), steps[|steps| - 1])
  }

  // ------------------------------------------------------------------
  // The invariant
  // ------------------------------------------------------------------

  /** A stamp was written by the caller of an existing sample, not before that sample's lag was stored. */
  ghost predicate GoodStamp(samples: seq<Sample>, clock: int, stamp: Stamp) {
    stamp.at != 0 ==> 0 <= stamp.sample < |samples| && samples[stamp.sample].storedAt <= stamp.at <= clock
  }

  ghost predicate InOrder(samples: seq<Sample>, clock: int) {
    && (forall i :: 0 <= i < |samples| ==> samples[i].storedAt <= clock)
    && (forall i, j :: 0 <= i <= j < |samples| ==> samples[i].storedAt <= samples[j].storedAt)
  }

  ghost predicate GoodReader(c: Config, samples: seq<Sample>, clock: int, r: Reader) {
    && c.tolerance > 0 && GoodStamp(samples, clock, r.stamp)
    && (r.Passed? ==> r.stamp.at != 0 && r.stamp.at <= r.checkedAt <= clock && r.checkedAt - r.stamp.at <= c.staleness)
  }

  /**
   A read sent to the replica: the timestamp it checked was fresh and belongs to a sample; the lag it
   compared is that sample's or a later one's, within tolerance, and of a standby that has replayed.
   */
  ghost predicate GoodDecision(c: Config, samples: seq<Sample>, d: Decision) {
    d.Replica? ==>
      && c.hasReplica && 0 <= d.lag <= c.tolerance
      && 0 <= d.stamp.sample <= d.lagOf < |samples|
      && d.lag == ObservedLag(samples[d.lagOf].probe)
      && !(samples[d.lagOf].probe.inRecovery && !samples[d.lagOf].probe.replayed)
      && (samples[d.lagOf].probe.seconds.Some? ==>
          samples[d.lagOf].probe.seconds.value * 1000000000.0 < (c.tolerance + 1) as real)
      && d.checkedAt - d.stamp.at <= c.staleness
      && samples[d.stamp.sample].storedAt <= samples[d.lagOf].storedAt
      && d.checkedAt - samples[d.lagOf].storedAt <= c.staleness + (d.stamp.at - samples[d.stamp.sample].storedAt)
  }

  ghost predicate Inv(c: Config, s: State) {
    && InOrder(s.samples, s.clock)
    && (c.hasReplica || s.samples == [])
    && (forall p :: p in s.samplers ==> s.samplers[p] < |s.samples|)
    && GoodStamp(s.samples, s.clock, s.stamp)
    && (forall r :: r in s.readers ==> GoodReader(c, s.samples, s.clock, s.readers[r]))
    && (forall i :: 0 <= i < |s.decisions| ==> GoodDecision(c, s.samples, s.decisions[i]))
  }

  lemma StoreLagKeeps(c: Config, s: State, p: nat, probe: Probe)
    requires Inv(c, s)
    ensures Inv(c, Next(c, s, StoreLag(p, probe)))
  {
    var s' := Next(c, s, StoreLag(p, probe));
    forall i | 0 <= i < |s'.decisions| ensures GoodDecision(c, s'.samples, s'.decisions[i]) {
      assert GoodDecision(c, s.samples, s.decisions[i]);
    }
  }

  lemma LoadLagKeeps(c: Config, s: State, r: nat)
    requires Inv(c, s)
    ensures Inv(c, Next(c, s, LoadLag(r)))
  {
  }

  lemma NextKeeps(c: Config, s: State, step: Step)
    requires Inv(c, s)
    ensures Inv(c, Next(c, s, step))
  {
    match step
    case Tick(_) =>
    case StoreLag(p, probe) => StoreLagKeeps(c, s, p, probe);
    case StoreStamp(_) =>
    case LoadStamp(_) =>
    case CheckAge(r) =>
      if r in s.readers {
        assert GoodReader(c, s.samples, s.clock, s.readers[r]);
      }
    case LoadLag(r) => LoadLagKeeps(c, s, r);
  }

  lemma {:induction false} InvHolds(c: Config, clock: int, steps: seq<Step>)
    ensures Inv(c, Exec(c, Init(clock), steps))
  {
    if steps != [] {
      InvHolds(c, clock, steps[..|steps| - 1]);
      NextKeeps(c, Exec(c, Init(clock), steps[..|steps| - 1]), steps[|steps| - 1]);
    }
  }

  /** In every interleaving, every read sent to the replica rests on a sound observation. */
  lemma ReplicaReadsAreJustified(c: Config, clock: int, steps: seq<Step>, i: nat)
    requires i < |Exec(c, Init(clock), steps).decisions|
    ensures var s := Exec(c, Init(clock), steps);
            GoodDecision(c, s.samples, s.decisions[i])
  {
    InvHolds(c, clock, steps);
  }

  /** The last probe came from a node that has replayed, and reported less than the tolerance allows. */
  ghost predicate LastWithin(c: Config, s: State) {
    s.samples == [] ||
    var p := s.samples[|s.samples| - 1].probe;
    !(p.inRecovery && !p.replayed) && (p.seconds.Some? ==> p.seconds.value * 1000000000.0 < (c.tolerance + 1) as real)
  }

  lemma LagCellMeaning(c: Config, s: State)
    requires c.tolerance > 0
    ensures 0 <= LagCell(s) <= c.tolerance <==> LastWithin(c, s)
  {
    if s.samples != [] {
      LagMeaning(s.samples[|s.samples| - 1].probe);
    }
  }

  /**
   A read that nothing interrupts goes to the replica exactly when the last observation is fresh and within
   tolerance.
   */
  lemma UndisturbedRead(c: Config, s: State, r: nat)
    requires r !in s.readers
    ensures var s' := Exec(c, s, [LoadStamp(r), CheckAge(r), LoadLag(r)]);
            && |s'.decisions| == |s.decisions| + 1
            && (s'.decisions[|s.decisions|].Replica? <==>
                  && c.hasReplica && c.tolerance > 0
                  && s.stamp.at != 0 && s.clock - s.stamp.at <= c.staleness
                  && LastWithin(c, s))
            && s' == s.(decisions := s'.decisions)
  {
    if c.tolerance > 0 {
      LagCellMeaning(c, s);
    }
    var run := [LoadStamp(r), CheckAge(r), LoadLag(r)];
    var s1 := Next(c, s, LoadStamp(r));
    var s2 := Next(c, s1, CheckAge(r));
    assert run[..2] == [LoadStamp(r), CheckAge(r)] && run[..2][..1] == [LoadStamp(r)] && run[..2][..1][..0] == [];
    assert Exec(c, s, run[..2][..1]) == s1;
    assert Exec(c, s, run[..2]) == s2;
    var s3 := Next(c, s2, LoadLag(r));
    assert Exec(c, s, run) == s3;
    assert s3.readers == s.readers;
  }

  /** A sample that nothing interrupts: its lag is the last, stamped with the time it was taken. */
  lemma UndisturbedSample(c: Config, s: State, p: nat, probe: Probe)
    requires c.hasReplica && p !in s.samplers
    ensures Exec(c, s, [StoreLag(p, probe), StoreStamp(p)])
         == s.(samples := s.samples + [Sample(probe, s.clock)], stamp := Stamp(s.clock, |s.samples|))
  {
    var run := [StoreLag(p, probe), StoreStamp(p)];
    var s1 := Next(c, s, StoreLag(p, probe));
    assert run[..1] == [StoreLag(p, probe)] && run[..1][..0] == [];
    assert Exec(c, s, run[..1]) == s1;
    assert s1.samplers - {p} == s.samplers;
  }

  /**
   From the probe to the decision: a read made `age` after a sample goes to the replica exactly when the sample
   is not too old, the node has replayed, and the lag it reported is within the tolerance.
   */
  lemma ReadAfterSample(c: Config, s: State, p: nat, probe: Probe, age: nat, r: nat)
    requires c.hasReplica && c.tolerance > 0 && p !in s.samplers && r !in s.readers && s.clock != 0
    ensures var s1 := Exec(c, s, [StoreLag(p, probe), StoreStamp(p)]);
            var s2 := Next(c, s1, Tick(age));
            var s3 := Exec(c, s2, [LoadStamp(r), CheckAge(r), LoadLag(r)]);
            && |s3.decisions| == |s.decisions| + 1
            && (s3.decisions[|s.decisions|].Replica? <==>
                  && age <= c.staleness && (probe.inRecovery ==> probe.replayed)
                  && (probe.seconds.Some? ==> probe.seconds.value * 1000000000.0 < (c.tolerance + 1) as real))
  {
    UndisturbedSample(c, s, p, probe);
    var s1 := Exec(c, s, [StoreLag(p, probe), StoreStamp(p)]);
    UndisturbedRead(c, Next(c, s1, Tick(age)), r);
  }
}
