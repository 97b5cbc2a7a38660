/**
 Where the insertions end up: the patched text is the original text with every applied op's insertion
 standing at the original position of that op's anchor, in op order.
 */
module PatchLayout {
  import opened Common
  import opened TextPatch

  /** An insertion and the original position it stands before. */
  datatype Placement = Placement(pos: nat, text: string)

  /** Everything placed at one position, in order. */
  function At(placed: seq<Placement>, q: nat): string {
    if placed == [] then ""
    else
      var front, last := placed[..|placed| - 1], placed[|placed| - 1];
      At(front, q) + (if last.pos == q then last.text else "")
  }

  /** The original text before position `q` with all placements at positions up to and including `q`. */
  function Woven(start: string, placed: seq<Placement>, q: nat): string
    requires q <= |start|
  {
    (if q == 0 then "" else Woven(start, placed, q - 1) + [start[q - 1]]) + At(placed, q)
  }

  /** The applied ops, each with its anchor's position in the original text. */
  function Placed(start: string, ops: seq<PatchOp>, k: nat): seq<Placement>
    requires k <= |ops|
  {
    if k == 0 then []
    else
      var now, op, at := PatchFirst(start, ops, k - 1), ops[k - 1], IndexFrom(start, ops[k - 1].anchor, 0);
      Placed(start, ops, k - 1)
      + (if now.Patched? && !Marked(now.body, op) && at.Some? then [Placement(at.value, op.insertion)] else [])
  }

  lemma {:induction false} WovenPrefix(start: string, placed: seq<Placement>, p: nat, q: nat)
    requires p <= q <= |start|
    ensures Woven(start, placed, p) <= Woven(start, placed, q)
  {
    if p < q {
      WovenPrefix(start, placed, p, q - 1);
    }
  }

  lemma AtAppend(placed: seq<Placement>, x: Placement, q: nat)
    ensures At(placed + [x], q) == At(placed, q) + (if x.pos == q then x.text else "")
  {
    assert (placed + [x])[..|placed|] == placed;
  }

  lemma {:induction false} WovenBefore(start: string, placed: seq<Placement>, x: Placement, q: nat)
    requires q < x.pos && q <= |start|
    ensures Woven(start, placed + [x], q) == Woven(start, placed, q)
  {
    AtAppend(placed, x, q);
    if q > 0 {
      WovenBefore(start, placed, x, q - 1);
    }
  }

  lemma WovenHere(start: string, placed: seq<Placement>, x: Placement)
    requires x.pos <= |start|
    ensures Woven(start, placed + [x], x.pos) == Woven(start, placed, x.pos) + x.text
  {
    var q := x.pos;
    AtAppend(placed, x, q);
    if q > 0 {
      WovenBefore(start, placed, x, q - 1);
    }
    var front := if q == 0 then "" else Woven(start, placed, q - 1) + [start[q - 1]];
    assert Woven(start, placed + [x], q) == front + (At(placed, q) + x.text);
    Regroup(front, At(placed, q), x.text);
  }

  lemma Regroup(a: string, b: string, c: string)
    ensures a + (b + c) == a + b + c
  {
  }

  /** One more placement inserts its text right before the original character it names. */
  lemma {:induction false} WovenAppend(start: string, placed: seq<Placement>, x: Placement, q: nat)
    requires x.pos <= q <= |start|
    ensures Woven(start, placed, x.pos) <= Woven(start, placed, q)
    ensures Woven(start, placed + [x], q) == Insert(Woven(start, placed, q), |Woven(start, placed, x.pos)|, x.text)
  {
    WovenPrefix(start, placed, x.pos, q);
    if q == x.pos {
      WovenHere(start, placed, x);
      InsertAtEnd(Woven(start, placed, q), x.text);
    } else {
      WovenAppend(start, placed, x, q - 1);
      AtAppend(placed, x, q);
      WovenPrefix(start, placed, x.pos, q - 1);
      InsertThenAppend(Woven(start, placed, q - 1), |Woven(start, placed, x.pos)|, x.text, start[q - 1], At(placed, q));
    }
  }

  lemma InsertAtEnd(s: string, text: string)
    ensures Insert(s, |s|, text) == s + text
  {
  }

  lemma InsertThenAppend(s: string, p: nat, text: string, c: char, tail: string)
    requires p <= |s|
    ensures Insert(s, p, text) + [c] + tail == Insert(s + [c] + tail, p, text)
  {
  }

  // ------------------------------------------------------------------
  // Ops whose insertions neither hold nor complete an anchor
  // ------------------------------------------------------------------

  /** No occurrence of `a` can begin in the inserted part of a block, nor run from old text into it. */
  predicate KeepsClear(op: PatchOp, a: string) {
    var block := op.insertion + op.anchor;
    (forall d :: 0 <= d < |op.insertion| ==> !Clash(a, block, d)) && NeverInside(block, a)
  }

  predicate Settled(ops: seq<PatchOp>) {
    && WellBehaved(ops)
    && forall i, j {:trigger KeepsClear(ops[i], ops[j].anchor)} ::
         0 <= i < |ops| && 0 <= j < |ops| ==> KeepsClear(ops[i], ops[j].anchor)
  }

  ghost predicate UniqueAt(s: string, a: string, q: int) {
    OccursAt(s, a, q) && forall r :: OccursAt(s, a, r) ==> r == q
  }

  lemma ValidatedIsUnique(start: string, a: string) returns (q: nat)
    requires a != "" && NeverInside(a, a) && Count(start, a) == 1
    ensures UniqueAt(start, a, q) && IndexFrom(start, a, 0) == Some(q)
  {
    q := CountOne(start, a, 0);
    forall r | OccursAt(start, a, r) ensures r == q {
      if r != q {
        ClashInText(start, a, a, q, r - q);
      }
    }
    IndexIsFirst(start, a, 0);
  }

  lemma BlockStands(body: string, p: nat, op: PatchOp)
    requires OccursAt(body, op.anchor, p)
    ensures OccursAt(Insert(body, p, op.insertion), op.insertion + op.anchor, p)
  {
    var tail := body[p + |op.anchor|..];
    assert body[p..] == op.anchor + tail;
    assert Insert(body, p, op.insertion) == body[..p] + (op.insertion + op.anchor) + tail;
  }

  /** No occurrence of `a` touches the inserted text. */
  lemma ClearOfInsertion(body: string, p: nat, op: PatchOp, a: string, r: nat)
    requires OccursAt(body, op.anchor, p) && KeepsClear(op, a)
    requires OccursAt(Insert(body, p, op.insertion), a, r)
    ensures r + |a| <= p || r >= p + |op.insertion| || a == ""
  {
    if r + |a| > p && r < p + |op.insertion| && a != "" {
      BlockStands(body, p, op);
      if r >= p {
        ClashInText(Insert(body, p, op.insertion), a, op.insertion + op.anchor, p, r - p);
      } else {
        ClashInText(Insert(body, p, op.insertion), op.insertion + op.anchor, a, r, p - r);
      }
    }
  }

  lemma Untouched(body: string, p: nat, text: string, a: string, r: nat)
    requires p <= |body| && OccursAt(Insert(body, p, text), a, r) && (r + |a| <= p || r >= p + |text|)
    ensures OccursAt(body, a, if r + |a| <= p then r else r - |text|)
  {
    var body' := Insert(body, p, text);
    if r + |a| <= p {
      assert body[r..r + |a|] == body'[r..r + |a|];
    } else {
      assert body[r - |text|..r - |text| + |a|] == body'[r..r + |a|];
    }
  }

  /** An occurrence after the insertion was one before it, at the corresponding place. */
  lemma OccurrenceIsOld(body: string, p: nat, op: PatchOp, a: string, r: nat)
    requires OccursAt(body, op.anchor, p) && KeepsClear(op, a) && a != ""
    requires OccursAt(Insert(body, p, op.insertion), a, r)
    ensures if r < p then OccursAt(body, a, r) else r >= p + |op.insertion| && OccursAt(body, a, r - |op.insertion|)
  {
    ClearOfInsertion(body, p, op, a, r);
    Untouched(body, p, op.insertion, a, r);
  }

  lemma UniqueMoves(body: string, p: nat, op: PatchOp, a: string, q: nat)
    requires OccursAt(body, op.anchor, p) && UniqueAt(body, a, q)
    requires NeverInside(op.anchor, a) && KeepsClear(op, a) && a != ""
    ensures UniqueAt(Insert(body, p, op.insertion), a, if q < p then q else q + |op.insertion|)
  {
    var body' := Insert(body, p, op.insertion);
    OccurrenceSurvives(body, p, op.anchor, op.insertion, a, q);
    forall r | OccursAt(body', a, r) ensures r == if q < p then q else q + |op.insertion| {
      OccurrenceIsOld(body, p, op, a, r);
    }
  }

  /** Where the anchor of a not yet placed op stands after some placements. */
  function Offset(start: string, placed: seq<Placement>, q: nat): nat
    requires q <= |start|
  {
    |Woven(start, placed, q)|
  }

  lemma OffsetAppend(start: string, placed: seq<Placement>, x: Placement, q: nat)
    requires q <= |start|
    ensures Offset(start, placed + [x], q) == Offset(start, placed, q) + if x.pos <= q then |x.text| else 0
  {
    if x.pos <= q {
      WovenAppend(start, placed, x, q);
    } else {
      WovenBefore(start, placed, x, q);
    }
  }

  lemma OffsetOrder(start: string, placed: seq<Placement>, p: nat, q: nat)
    requires p <= |start| && q <= |start|
    ensures Offset(start, placed, q) < Offset(start, placed, p) ==> q < p
    ensures q < p ==> Offset(start, placed, q) < Offset(start, placed, p)
  {
    if p <= q {
      WovenPrefix(start, placed, p, q);
    } else {
      WovenPrefix(start, placed, q, p - 1);
    }
  }

  lemma OffsetMoves(start: string, placed: seq<Placement>, p: nat, q: nat, text: string)
    requires p <= |start| && q <= |start|
    ensures Offset(start, placed + [Placement(p, text)], q)
         == Offset(start, placed, q) + if Offset(start, placed, q) < Offset(start, placed, p) then 0 else |text|
  {
    OffsetAppend(start, placed, Placement(p, text), q);
    OffsetOrder(start, placed, p, q);
  }

  lemma {:induction false} NothingPlaced(start: string, q: nat)
    requires q <= |start|
    ensures Woven(start, [], q) == start[..q]
  {
    if q > 0 {
      NothingPlaced(start, q - 1);
    }
  }

  lemma UniqueMovesIn(ops: seq<PatchOp>, k: nat, i: nat, body: string, p: nat, q: nat)
    requires Settled(ops) && k < |ops| && i < |ops| && OccursAt(body, ops[k].anchor, p)
             && UniqueAt(body, ops[i].anchor, q)
    ensures UniqueAt(Insert(body, p, ops[k].insertion), ops[i].anchor, if q < p then q else q + |ops[k].insertion|)
  {
    assert KeepsClear(ops[k], ops[i].anchor) && Spares(ops[k], ops[i]) && MarksItself(ops[i]);
    UniqueMoves(body, p, ops[k], ops[i].anchor, q);
  }

  // ------------------------------------------------------------------
  // A run as a sequence of texts and placements
  // ------------------------------------------------------------------

  /** A text together with what has been placed to reach it. */
  datatype Stage = Stage(body: string, placed: seq<Placement>)

  /** The anchor `a` of original position `q` stands, alone, where the placements put it. */
  ghost predicate Stands(start: string, g: Stage, a: string, q: nat) {
    q <= |start| && UniqueAt(g.body, a, Offset(start, g.placed, q))
  }

  ghost predicate WovenFrom(start: string, g: Stage) {
    g.body == Woven(start, g.placed, |start|)
  }

  /** `op` was placed at the original position `p` of its anchor. */
  ghost predicate Places(start: string, op: PatchOp, g: Stage, g': Stage, p: nat) {
    && UniqueAt(start, op.anchor, p)
    && g'.placed == g.placed + [Placement(p, op.insertion)]
    && (Stands(start, g, op.anchor, p) ==> g'.body == Insert(g.body, Offset(start, g.placed, p), op.insertion))
  }

  ghost predicate Moves(start: string, op: PatchOp, g: Stage, g': Stage) {
    g' == g || exists p: nat :: Places(start, op, g, g', p)
  }

  lemma PlacesKeepsAnchor(start: string, ops: seq<PatchOp>, k: nat, i: nat, g: Stage, g': Stage, p: nat, q: nat)
    requires Settled(ops) && k < |ops| && i < |ops| && Places(start, ops[k], g, g', p)
    requires Stands(start, g, ops[k].anchor, p) && Stands(start, g, ops[i].anchor, q)
    ensures Stands(start, g', ops[i].anchor, q)
  {
    UniqueMovesIn(ops, k, i, g.body, Offset(start, g.placed, p), Offset(start, g.placed, q));
    OffsetMoves(start, g.placed, p, q, ops[k].insertion);
  }

  lemma PlacesKeepsWoven(start: string, op: PatchOp, g: Stage, g': Stage, p: nat)
    requires Places(start, op, g, g', p) && Stands(start, g, op.anchor, p) && WovenFrom(start, g)
    ensures WovenFrom(start, g')
  {
    WovenAppend(start, g.placed, Placement(p, op.insertion), |start|);
  }

  /** The stages of a run over `ops`. */
  ghost predicate IsRun(start: string, ops: seq<PatchOp>, run: seq<Stage>) {
    && |run| == |ops| + 1 && run[0] == Stage(start, [])
    && forall k :: 0 <= k < |ops| ==> Moves(start, ops[k], run[k], run[k + 1])
  }

  /** An anchor unique in the original stays unique, shifted by what was placed at or before it. */
  lemma {:induction false} AnchorsStand(start: string, ops: seq<PatchOp>, run: seq<Stage>, k: nat, i: nat, q: nat)
    requires Settled(ops) && IsRun(start, ops, run) && k <= |ops| && i < |ops| && UniqueAt(start, ops[i].anchor, q)
    ensures Stands(start, run[k], ops[i].anchor, q)
  {
    if k == 0 {
      NothingPlaced(start, q);
    } else {
      AnchorsStand(start, ops, run, k - 1, i, q);
      assert Moves(start, ops[k - 1], run[k - 1], run[k]);
      if run[k] != run[k - 1] {
        var p: nat :| Places(start, ops[k - 1], run[k - 1], run[k], p);
        AnchorsStand(start, ops, run, k - 1, k - 1, p);
        PlacesKeepsAnchor(start, ops, k - 1, i, run[k - 1], run[k], p, q);
      }
    }
  }

  lemma {:induction false} RunIsWoven(start: string, ops: seq<PatchOp>, run: seq<Stage>, k: nat)
    requires Settled(ops) && IsRun(start, ops, run) && k <= |ops|
    ensures WovenFrom(start, run[k])
  {
    if k == 0 {
      NothingPlaced(start, |start|);
      assert start[..|start|] == start;
    } else {
      RunIsWoven(start, ops, run, k - 1);
      assert Moves(start, ops[k - 1], run[k - 1], run[k]);
      if run[k] != run[k - 1] {
        var p: nat :| Places(start, ops[k - 1], run[k - 1], run[k], p);
        AnchorsStand(start, ops, run, k - 1, k - 1, p);
        PlacesKeepsWoven(start, ops[k - 1], run[k - 1], run[k], p);
      }
    }
  }

  // ------------------------------------------------------------------
  // The patch loop is such a run
  // ------------------------------------------------------------------

  function StageAt(start: string, ops: seq<PatchOp>, k: nat): Stage
    requires k <= |ops| && PatchFirst(start, ops, k).Patched?
  {
    Stage(PatchFirst(start, ops, k).body, Placed(start, ops, k))
  }

  /** An applied op's anchor was unique in the original text. */
  lemma AppliedWasUnique(start: string, ops: seq<PatchOp>, k: nat) returns (q: nat)
    requires Settled(ops) && ValidText(start, ops) && k < |ops|
    requires PatchFirst(start, ops, k).Patched? && !Marked(PatchFirst(start, ops, k).body, ops[k])
    ensures UniqueAt(start, ops[k].anchor, q) && IndexFrom(start, ops[k].anchor, 0) == Some(q)
  {
    WellBehavedIsWhole(ops, k);
    PresentStays(start, ops, 0, k, ops[k].skipIfPresent);
    assert ValidOp(start, ops[k]) && MarksItself(ops[k]) && Spares(ops[k], ops[k]);
    q := ValidatedIsUnique(start, ops[k].anchor);
  }

  lemma OpMoves(start: string, ops: seq<PatchOp>, k: nat)
    requires Settled(ops) && ValidText(start, ops) && k < |ops|
    requires PatchFirst(start, ops, k).Patched? && PatchFirst(start, ops, k + 1).Patched?
    ensures Moves(start, ops[k], StageAt(start, ops, k), StageAt(start, ops, k + 1))
  {
    if !Marked(PatchFirst(start, ops, k).body, ops[k]) {
      var q := AppliedWasUnique(start, ops, k);
      var p := Applied(PatchFirst(start, ops, k), ops[k]);
      assert Places(start, ops[k], StageAt(start, ops, k), StageAt(start, ops, k + 1), q);
    }
  }

  lemma PatchingIsRun(start: string, ops: seq<PatchOp>) returns (run: seq<Stage>)
    requires Settled(ops) && ValidText(start, ops)
    ensures PatchFirst(start, ops, |ops|).Patched?
    ensures IsRun(start, ops, run) && run[|ops|] == StageAt(start, ops, |ops|)
  {
    forall k | 0 <= k <= |ops| ensures PatchFirst(start, ops, k).Patched? {
      ValidatedNeverMisses(start, ops, k);
    }
    run := seq(|ops| + 1, k requires 0 <= k <= |ops| => StageAt(start, ops, k));
    forall k | 0 <= k < |ops| ensures Moves(start, ops[k], run[k], run[k + 1]) {
      OpMoves(start, ops, k);
    }
  }

  /**
   The patched text, exactly: the original woven with each applied op's insertion before its own anchor,
   in op order; and every anchor that was unique in the original still stands there, unsplit and alone.
   */
  lemma PatchedTextIsWoven(start: string, ops: seq<PatchOp>)
    requires Settled(ops) && ValidText(start, ops)
    ensures PatchFirst(start, ops, |ops|).Patched?
    ensures WovenFrom(start, StageAt(start, ops, |ops|))
    ensures forall i, q: nat :: 0 <= i < |ops| && UniqueAt(start, ops[i].anchor, q) ==>
              Stands(start, StageAt(start, ops, |ops|), ops[i].anchor, q)
  {
    var run := PatchingIsRun(start, ops);
    RunIsWoven(start, ops, run, |ops|);
    forall i, q: nat | 0 <= i < |ops| && UniqueAt(start, ops[i].anchor, q)
      ensures Stands(start, StageAt(start, ops, |ops|), ops[i].anchor, q)
    {
      AnchorsStand(start, ops, run, |ops|, i, q);
    }
  }
}
