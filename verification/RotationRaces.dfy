/**
 The rotation sweep while services keep writing: a page is read without row locks, its rows are updated one
 by one inside the page's transaction, and other writers commit in between. A row's content is identified by
 the write it comes from, which rewriting does not change.
 */
module RotationRaces {
  import opened Common

  /** The page's transaction: what it read of each row, how many writes there were, and what it has updated. */
  datatype Page = Page(read: map<nat, nat>, since: nat, updated: set<nat>)

  /** `log` names the record of every write, in order; `rows` the write each record's content comes from. */
  datatype State = State(log: seq<nat>, rows: map<nat, nat>, page: Option<Page>)

  datatype Step =
    | Write(id: nat)              // a service writes a record and commits
    | Select(ids: set<nat>)       // the sweep reads a page
    | Update(id: nat)             // and updates one of its rows, which stays locked
    | Commit
    | Rollback

  const INITIAL := State([], map[], None)

  /** One step; a step that is not enabled, such as a write to a locked row, changes nothing. */
  function Next(s: State, step: Step): State {
    match step
    case Write(id) =>
      if s.page.Some? && id in s.page.value.updated then s
      else s.(log := s.log + [id], rows := s.rows[id := |s.log|])
    case Select(ids) =>
      if s.page.Some? || !(ids <= s.rows.Keys) then s
      else s.(page := Some(Page(map id | id in ids :: s.rows[id], |s.log|, {})))
    case Update(id) =>
      if s.page.None? || id !in s.page.value.read then s
      else s.(page := Some(s.page.value.(updated := s.page.value.updated + {id})))
    case Commit => if s.page.None? then s else s.(rows := Committed(s.rows, s.page.value), page := None)
    case Rollback => s.(page := None)
  }

  /** The rows once the page's updates take effect: each goes back to what the page read. */
  function Committed(rows: map<nat, nat>, p: Page): map<nat, nat> {
    map id | id in rows :: if id in p.updated && id in p.read then p.read[id] else rows[id]
  }

  function Exec(s: State, steps: seq<Step>): State {
    if steps == [] then s else Next(Exec(s, steps[..|steps| - 1]), steps[|steps| - 1])
  }

  // ------------------------------------------------------------------
  // The invariant
  // ------------------------------------------------------------------

  ghost predicate RowsOk(log: seq<nat>, rows: map<nat, nat>) {
    && (forall id :: id in rows ==> rows[id] < |log| && log[rows[id]] == id)
    && (forall k :: 0 <= k < |log| ==> log[k] in rows)
  }

  /** `k` is the last write to its record among the first `n`. */
  ghost predicate LastAmong(log: seq<nat>, n: nat, id: nat, k: nat) {
    k < n <= |log| && log[k] == id && forall j :: k < j < n ==> log[j] != id
  }

  /** A page row that nobody wrote since the page was read still holds what the page read. */
  ghost predicate PageOk(log: seq<nat>, rows: map<nat, nat>, p: Page) {
    && p.since <= |log| && p.updated <= p.read.Keys <= rows.Keys
    && (forall id :: id in p.read ==> p.read[id] < p.since && log[p.read[id]] == id)
    && (forall id :: id in p.read ==> (rows[id] != p.read[id] <==> WrittenSince(log, p.since, id)))
  }

  ghost predicate WrittenSince(log: seq<nat>, since: nat, id: nat) {
    exists k :: since <= k < |log| && log[k] == id
  }

  ghost predicate Inv(s: State) {
    RowsOk(s.log, s.rows) && (s.page.Some? ==> PageOk(s.log, s.rows, s.page.value))
  }

  lemma WriteKeeps(s: State, id: nat)
    requires Inv(s)
    ensures Inv(Next(s, Write(id)))
  {
    var s' := Next(s, Write(id));
    if s' != s && s.page.Some? {
      var p := s.page.value;
      forall x | x in p.read ensures s'.rows[x] != p.read[x] <==> WrittenSince(s'.log, p.since, x) {
        if x == id {
          assert s'.log[|s.log|] == id;
        } else if WrittenSince(s.log, p.since, x) {
          var k :| p.since <= k < |s.log| && s.log[k] == x;
          assert s'.log[k] == x;
        }
      }
    }
  }

  lemma NextKeeps(s: State, step: Step)
    requires Inv(s)
    ensures Inv(Next(s, step))
  {
    if step.Write? {
      WriteKeeps(s, step.id);
    }
  }

  lemma {:induction false} InvHolds(steps: seq<Step>)
    ensures Inv(Exec(INITIAL, steps))
    decreases |steps|
  {
    if steps != [] {
      InvHolds(steps[..|steps| - 1]);
      NextKeeps(Exec(INITIAL, steps[..|steps| - 1]), steps[|steps| - 1]);
    }
  }

  // ------------------------------------------------------------------
  // When a write is lost
  // ------------------------------------------------------------------

  /** The record holds what was last written to it. */
  ghost predicate UpToDate(s: State, id: nat) {
    id in s.rows && LastAmong(s.log, |s.log|, id, s.rows[id])
  }

  /** Step `n` commits a page that updated the record although it was written since the page was read. */
  ghost predicate Overwrites(steps: seq<Step>, n: nat, id: nat)
    requires n < |steps|
  {
    var s := Exec(INITIAL, steps[..n]);
    && steps[n].Commit? && s.page.Some? && id in s.page.value.updated
    && WrittenSince(s.log, s.page.value.since, id)
  }

  /** Step `n` writes the record. */
  ghost predicate Writes(steps: seq<Step>, n: nat, id: nat)
    requires n < |steps|
  {
    steps[n] == Write(id) && Next(Exec(INITIAL, steps[..n]), steps[n]) != Exec(INITIAL, steps[..n])
  }

  /** Some page overwrote the record and nobody wrote it afterwards. */
  ghost predicate LostAtEnd(steps: seq<Step>, id: nat) {
    exists n :: && 0 <= n < |steps| && Overwrites(steps, n, id)
                && forall m :: n < m < |steps| ==> !Writes(steps, m, id)
  }

  lemma SameBefore(front: seq<Step>, last: Step, n: nat, id: nat)
    requires n < |front|
    ensures Overwrites(front + [last], n, id) <==> Overwrites(front, n, id)
    ensures Writes(front + [last], n, id) <==> Writes(front, n, id)
  {
    assert (front + [last])[..n] == front[..n];
  }

  lemma LostStep(front: seq<Step>, last: Step, id: nat)
    ensures var s := Exec(INITIAL, front);
            var overwrites := && last.Commit? && s.page.Some? && id in s.page.value.updated
                              && WrittenSince(s.log, s.page.value.since, id);
            var writes := last == Write(id) && Next(s, last) != s;
            LostAtEnd(front + [last], id) <==> overwrites || (LostAtEnd(front, id) && !writes)
  {
    var steps, m := front + [last], |front|;
    assert steps[..m] == front;
    forall n | 0 <= n < m
      ensures Overwrites(steps, n, id) <==> Overwrites(front, n, id)
      ensures Writes(steps, n, id) <==> Writes(front, n, id)
    {
      SameBefore(front, last, n, id);
    }
    if LostAtEnd(front, id) {
      var n :| 0 <= n < m && Overwrites(front, n, id) && forall k :: n < k < m ==> !Writes(front, k, id);
      assert Overwrites(steps, n, id);
      assert Writes(steps, m, id) || LostAtEnd(steps, id);
    }
    if LostAtEnd(steps, id) {
      var n :| 0 <= n < |steps| && Overwrites(steps, n, id) && forall k :: n < k < |steps| ==> !Writes(steps, k, id);
      if n < m {
        assert Overwrites(front, n, id) && !Writes(steps, m, id);
      }
    }
    if Overwrites(steps, m, id) {
      assert LostAtEnd(steps, id);
    }
  }

  /** What one step does to a record being up to date. */
  lemma UpToDateStep(s: State, step: Step, id: nat)
    requires Inv(s) && id in s.rows
    ensures var s' := Next(s, step);
            var overwrites := && step.Commit? && s.page.Some? && id in s.page.value.updated
                              && WrittenSince(s.log, s.page.value.since, id);
            UpToDate(s', id) <==> (step == Write(id) && s' != s) || (UpToDate(s, id) && !overwrites)
  {
    var s' := Next(s, step);
    if step.Write? && s' != s {
      assert s'.log == s.log + [step.id];
      if UpToDate(s, id) && step.id != id {
        assert LastAmong(s'.log, |s'.log|, id, s.rows[id]);
      }
      if UpToDate(s', id) && step.id != id {
        assert forall j :: s.rows[id] < j < |s.log| ==> s.log[j] == s'.log[j];
      }
    } else if step.Commit? && s.page.Some? && id in s.page.value.updated {
      var p := s.page.value;
      if WrittenSince(s.log, p.since, id) {
        var k :| p.since <= k < |s.log| && s.log[k] == id;
        assert s'.rows[id] == p.read[id] < k;
      }
    }
  }

  /**
   In every interleaving of services and the sweep, a record holds what was last written to it if and only
   if no committed page, among those after which nobody wrote the record again, updated it although it was
   written between the page's read and its update.
   */
  lemma {:induction false} WriteSurvivesIff(steps: seq<Step>, id: nat)
    requires id in Exec(INITIAL, steps).rows
    ensures UpToDate(Exec(INITIAL, steps), id) <==> !LostAtEnd(steps, id)
    decreases |steps|
  {
    if steps != [] {
      var front, last := steps[..|steps| - 1], steps[|steps| - 1];
      assert steps == front + [last];
      var s := Exec(INITIAL, front);
      InvHolds(front);
      LostStep(front, last, id);
      if id in s.rows {
        WriteSurvivesIff(front, id);
        UpToDateStep(s, last, id);
      } else {
        NeverLostBefore(front, id);
        assert last == Write(id) && Next(s, last).rows[id] == |s.log|;
      }
    }
  }

  /** A record that does not exist yet has lost nothing. */
  lemma NeverLostBefore(steps: seq<Step>, id: nat)
    requires id !in Exec(INITIAL, steps).rows
    ensures UpToDate(Next(Exec(INITIAL, steps), Write(id)), id)
    ensures Next(Exec(INITIAL, steps), Write(id)) != Exec(INITIAL, steps)
  {
    InvHolds(steps);
    var s := Exec(INITIAL, steps);
    assert s.page.Some? ==> s.page.value.updated <= s.rows.Keys;
    assert Next(s, Write(id)).log == s.log + [id];
  }
}
