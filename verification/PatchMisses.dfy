/**
 Exactly when a validated text loses an anchor: for ops that keep the markers whole and insert no anchors,
 but whose anchors may overlap one another.
 */
module PatchMisses {
  import opened Common
  import opened TextPatch
  import opened PatchLayout

  /** The op marks itself and its anchor does not overlap itself. */
  predicate TidyOp(op: PatchOp) { MarksItself(op) && NeverInside(op.anchor, op.anchor) }

  /** `op` cannot split the marker of `other`, and its insertion neither holds nor completes the other's anchor. */
  predicate TidyPair(op: PatchOp, other: PatchOp) {
    NeverInside(op.anchor, other.skipIfPresent) && KeepsClear(op, other.anchor)
  }

  predicate Tidy(ops: seq<PatchOp>) {
    && (forall i {:trigger TidyOp(ops[i])} :: 0 <= i < |ops| ==> TidyOp(ops[i]))
    && (forall i, j {:trigger TidyPair(ops[i], ops[j])} ::
          0 <= i < |ops| && 0 <= j < |ops| ==> TidyPair(ops[i], ops[j]))
  }

  predicate Within(x: Placement, q: nat, n: nat) { q < x.pos < q + n }

  /** Something was placed strictly inside the `n` original characters from `q` on. */
  predicate Split(placed: seq<Placement>, q: nat, n: nat) {
    exists i :: 0 <= i < |placed| && Within(placed[i], q, n)
  }

  lemma SplitAppend(placed: seq<Placement>, x: Placement, q: nat, n: nat)
    ensures Split(placed + [x], q, n) <==> Split(placed, q, n) || Within(x, q, n)
  {
    if Split(placed, q, n) {
      var i :| 0 <= i < |placed| && Within(placed[i], q, n);
      assert (placed + [x])[i] == placed[i];
    }
    assert (placed + [x])[|placed|] == x;
  }

  // ------------------------------------------------------------------
  // Offsets inside an unsplit stretch
  // ------------------------------------------------------------------

  lemma {:induction false} NothingAt(placed: seq<Placement>, q: nat)
    requires forall i :: 0 <= i < |placed| ==> placed[i].pos != q
    ensures At(placed, q) == ""
  {
    if placed != [] {
      NothingAt(placed[..|placed| - 1], q);
    }
  }

  /** Original characters keep at least their distance. */
  lemma {:induction false} OffsetSpan(start: string, placed: seq<Placement>, q: nat, p: nat)
    requires q <= p <= |start|
    ensures Offset(start, placed, p) >= Offset(start, placed, q) + (p - q)
  {
    if q < p {
      OffsetSpan(start, placed, q, p - 1);
    }
  }

  /** Inside an unsplit stretch they keep exactly their distance. */
  lemma {:induction false} OffsetGap(start: string, placed: seq<Placement>, q: nat, n: nat, p: nat)
    requires q <= p < q + n && p <= |start| && !Split(placed, q, n)
    ensures Offset(start, placed, p) == Offset(start, placed, q) + (p - q)
  {
    if q < p {
      OffsetGap(start, placed, q, n, p - 1);
      forall i | 0 <= i < |placed| ensures placed[i].pos != p {
        assert !Within(placed[i], q, n);
      }
      NothingAt(placed, p);
    }
  }

  // ------------------------------------------------------------------
  // What becomes of an anchor
  // ------------------------------------------------------------------

  ghost predicate Gone(body: string, a: string) {
    forall r :: !OccursAt(body, a, r)
  }

  /** The anchor at original position `q` stands alone where the placements put it, or was split and is gone. */
  ghost predicate Fate(start: string, g: Stage, a: string, q: nat) {
    && q + |a| <= |start|
    && if Split(g.placed, q, |a|) then Gone(g.body, a) else Stands(start, g, a, q)
  }

  /** The stage after `op` was placed before its anchor, which stood at original position `p`. */
  ghost predicate Applies(start: string, op: PatchOp, g: Stage, g': Stage, p: nat) {
    && p <= |start| && Stands(start, g, op.anchor, p)
    && g' == Stage(Insert(g.body, Offset(start, g.placed, p), op.insertion), g.placed + [Placement(p, op.insertion)])
  }

  lemma GoneStaysGone(body: string, at: nat, op: PatchOp, a: string)
    requires OccursAt(body, op.anchor, at) && KeepsClear(op, a) && a != "" && Gone(body, a)
    ensures Gone(Insert(body, at, op.insertion), a)
  {
    forall r | OccursAt(Insert(body, at, op.insertion), a, r) ensures false {
      OccurrenceIsOld(body, at, op, a, r);
    }
  }

  /** An insertion strictly inside the only occurrence removes it. */
  lemma SplitIsGone(body: string, at: nat, op: PatchOp, a: string, off: nat)
    requires OccursAt(body, op.anchor, at) && KeepsClear(op, a) && UniqueAt(body, a, off) && off < at < off + |a|
    ensures Gone(Insert(body, at, op.insertion), a)
  {
    forall r | OccursAt(Insert(body, at, op.insertion), a, r) ensures false {
      ClearOfInsertion(body, at, op, a, r);
      OccurrenceIsOld(body, at, op, a, r);
    }
  }

  /** An insertion outside the only occurrence moves it or leaves it. */
  lemma SparedStands(body: string, at: nat, op: PatchOp, a: string, off: nat)
    requires OccursAt(body, op.anchor, at) && KeepsClear(op, a) && a != "" && UniqueAt(body, a, off)
    requires at <= off || off + |a| <= at
    ensures UniqueAt(Insert(body, at, op.insertion), a, if off < at then off else off + |op.insertion|)
  {
    var text, body' := op.insertion, Insert(body, at, op.insertion);
    if at <= off {
      assert body'[off + |text|..off + |text| + |a|] == body[off..off + |a|];
    } else {
      assert body'[off..off + |a|] == body[off..off + |a|];
    }
    forall r | OccursAt(body', a, r) ensures r == if off < at then off else off + |text| {
      OccurrenceIsOld(body, at, op, a, r);
    }
  }

  lemma FateMoves(start: string, op: PatchOp, g: Stage, g': Stage, p: nat, a: string, q: nat)
    requires Applies(start, op, g, g', p) && KeepsClear(op, a) && a != "" && Fate(start, g, a, q)
    ensures Fate(start, g', a, q)
  {
    var x := Placement(p, op.insertion);
    var at := Offset(start, g.placed, p);
    SplitAppend(g.placed, x, q, |a|);
    if Split(g.placed, q, |a|) {
      GoneStaysGone(g.body, at, op, a);
    } else {
      var off := Offset(start, g.placed, q);
      if Within(x, q, |a|) {
        OffsetGap(start, g.placed, q, |a|, p);
        SplitIsGone(g.body, at, op, a, off);
      } else {
        OffsetOrder(start, g.placed, p, q);
        if p >= q + |a| {
          OffsetSpan(start, g.placed, q, p);
        }
        SparedStands(g.body, at, op, a, off);
        OffsetMoves(start, g.placed, p, q, op.insertion);
      }
    }
  }

  // ------------------------------------------------------------------
  // The patch loop
  // ------------------------------------------------------------------

  lemma TidyIsWhole(ops: seq<PatchOp>, j: nat)
    requires Tidy(ops) && j < |ops|
    ensures Whole(ops, ops[j].skipIfPresent)
  {
    forall i | 0 <= i < |ops| ensures TidyPair(ops[i], ops[j]) {
    }
  }

  /** The anchor of an op whose marker is absent at its turn was unique in the original text. */
  lemma UnmarkedWasUnique(start: string, ops: seq<PatchOp>, k: nat) returns (q: nat)
    requires Tidy(ops) && ValidText(start, ops) && k < |ops|
    requires PatchFirst(start, ops, k).Patched? && !Marked(PatchFirst(start, ops, k).body, ops[k])
    ensures UniqueAt(start, ops[k].anchor, q) && IndexFrom(start, ops[k].anchor, 0) == Some(q)
  {
    TidyIsWhole(ops, k);
    PresentStays(start, ops, 0, k, ops[k].skipIfPresent);
    assert ValidOp(start, ops[k]) && TidyOp(ops[k]);
    q := ValidatedIsUnique(start, ops[k].anchor);
  }

  lemma FateAtStart(start: string, a: string, q: nat)
    requires UniqueAt(start, a, q)
    ensures Fate(start, Stage(start, []), a, q)
  {
    NothingPlaced(start, q);
  }

  /** Until a miss, every anchor that was unique stands or was split. */
  lemma {:induction false} FateHolds(start: string, ops: seq<PatchOp>, k: nat, i: nat, q: nat)
    requires Tidy(ops) && ValidText(start, ops) && k <= |ops| && i < |ops| && UniqueAt(start, ops[i].anchor, q)
    requires PatchFirst(start, ops, k).Patched?
    ensures Fate(start, StageAt(start, ops, k), ops[i].anchor, q)
  {
    if k == 0 {
      FateAtStart(start, ops[i].anchor, q);
    } else {
      assert PatchFirst(start, ops, k - 1).Patched?;
      FateHolds(start, ops, k - 1, i, q);
      if Marked(PatchFirst(start, ops, k - 1).body, ops[k - 1]) {
        assert StageAt(start, ops, k) == StageAt(start, ops, k - 1);
      } else {
        var p := UnmarkedWasUnique(start, ops, k - 1);
        FateHolds(start, ops, k - 1, k - 1, p);
        OpApplies(start, ops, k - 1, p);
        assert TidyPair(ops[k - 1], ops[i]) && TidyOp(ops[i]);
        FateMoves(start, ops[k - 1], StageAt(start, ops, k - 1), StageAt(start, ops, k), p, ops[i].anchor, q);
      }
    }
  }

  lemma OpApplies(start: string, ops: seq<PatchOp>, k: nat, p: nat)
    requires k < |ops| && PatchFirst(start, ops, k).Patched? && PatchFirst(start, ops, k + 1).Patched?
    requires !Marked(PatchFirst(start, ops, k).body, ops[k]) && IndexFrom(start, ops[k].anchor, 0) == Some(p)
    requires Fate(start, StageAt(start, ops, k), ops[k].anchor, p)
    ensures Applies(start, ops[k], StageAt(start, ops, k), StageAt(start, ops, k + 1), p)
  {
    var at := Applied(PatchFirst(start, ops, k), ops[k]);
  }

  /**
   Op `k` comes to its turn with its marker absent, and an op applied before it has its original position
   strictly inside the original occurrence of its anchor.
   */
  predicate FindsItSplit(start: string, ops: seq<PatchOp>, k: nat) {
    && k < |ops| && PatchFirst(start, ops, k).Patched? && !Marked(PatchFirst(start, ops, k).body, ops[k])
    && IndexFrom(start, ops[k].anchor, 0).Some?
    && Split(Placed(start, ops, k), IndexFrom(start, ops[k].anchor, 0).value, |ops[k].anchor|)
  }

  lemma TurnMissesIff(start: string, ops: seq<PatchOp>, k: nat)
    requires Tidy(ops) && ValidText(start, ops) && k < |ops| && PatchFirst(start, ops, k).Patched?
    ensures PatchFirst(start, ops, k + 1).AnchorMissing? <==> FindsItSplit(start, ops, k)
  {
    var body := PatchFirst(start, ops, k).body;
    if !Marked(body, ops[k]) {
      var q := UnmarkedWasUnique(start, ops, k);
      FateHolds(start, ops, k, k, q);
      IndexIsFirst(body, ops[k].anchor, 0);
    }
  }

  /**
   A validated text loses an anchor if and only if some op, unmarked at its turn, finds that an op applied
   before it was placed strictly inside its anchor.
   */
  lemma {:induction false} MissesIff(start: string, ops: seq<PatchOp>, n: nat)
    requires Tidy(ops) && ValidText(start, ops) && n <= |ops|
    ensures PatchFirst(start, ops, n).AnchorMissing? <==> exists k: nat :: k < n && FindsItSplit(start, ops, k)
  {
    if n > 0 {
      MissesIff(start, ops, n - 1);
      if PatchFirst(start, ops, n - 1).AnchorMissing? {
        MissingStays(start, ops, n - 1, n);
        var k: nat :| k < n - 1 && FindsItSplit(start, ops, k);
        assert k < n;
      } else {
        TurnMissesIff(start, ops, n - 1);
      }
    }
  }
}
