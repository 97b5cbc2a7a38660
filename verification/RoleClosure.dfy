/**
 Role inheritance: the depth-bounded walk up the parent chain with one visited set shared by all
 held roles, and when the set it yields is the full ancestor closure.
 */
module RoleClosure {
  import opened Common

  const MAX_DEPTH := 5

  /** roles.name to roles.parent_role; None is SQL NULL. */
  type Roles = map<string, Option<string>>

  /** The parent the walk follows: none for an unknown role, a NULL or empty parent, or a self-parent. */
  function ParentOf(roles: Roles, r: string): Option<string> {
    if r !in roles || roles[r].None? || roles[r].value == "" || roles[r].value == r then None else roles[r]
  }

  /** The walk as a function: at most `depth` further parents, stopping at the first visited role. */
  function Walk(roles: Roles, cur: string, depth: nat, seen: set<string>): set<string>
    decreases depth
  {
    if cur in seen then seen
    else
      var seen' := seen + {cur};
      var parent := ParentOf(roles, cur);
      if parent.None? || depth == 0 then seen' else Walk(roles, parent.value, depth - 1, seen')
  }

  method WalkRoleChain(roles: Roles, role: string, depth: nat, seen: set<string>) returns (out: set<string>)
    ensures out == Walk(roles, role, depth, seen)
  {
    out := seen;
    var cur := role;
    var i := 0;
    while i <= depth
      invariant 0 <= i <= depth + 1
      invariant i <= depth ==> Walk(roles, role, depth, seen) == Walk(roles, cur, depth - i, out)
      invariant i == depth + 1 ==> out == Walk(roles, role, depth, seen)
    {
      if cur in out {
        return;
      }
      out := out + {cur};
      var parent := if cur in roles then roles[cur] else None;
      if parent.None? || parent.value == "" || parent.value == cur {
        return;
      }
      cur := parent.value;
      i := i + 1;
    }
  }

  /** All held roles, walked in order into one set. */
  function Expand(roles: Roles, held: seq<string>): set<string> {
    if held == [] then {}
    else Walk(roles, held[|held| - 1], MAX_DEPTH, Expand(roles, held[..|held| - 1]))
  }

  method ExpandRoles(roles: Roles, held: seq<string>) returns (expanded: set<string>)
    ensures expanded == Expand(roles, held)
  {
    expanded := {};
    var i := 0;
    while i < |held|
      invariant 0 <= i <= |held|
      invariant expanded == Expand(roles, held[..i])
    {
      assert held[..i + 1][..i] == held[..i];
      expanded := WalkRoleChain(roles, held[i], MAX_DEPTH, expanded);
      i := i + 1;
    }
    assert held[..i] == held;
  }

  // ------------------------------------------------------------------
  // Ancestors
  // ------------------------------------------------------------------

  /** The role `n` parent steps up, if the chain is that long. */
  function Up(roles: Roles, r: string, n: nat): Option<string> {
    if n == 0 then Some(r)
    else
      var below := Up(roles, r, n - 1);
      if below.None? then None else ParentOf(roles, below.value)
  }

  /** A parent step follows the stored parent unless it is NULL, empty, the role itself, or of an unknown role. */
  lemma UpFollowsParents(roles: Roles, r: string, n: nat, a: string)
    ensures Up(roles, r, 0) == Some(r)
    ensures Up(roles, r, n + 1) == Some(a) <==>
              exists b :: Up(roles, r, n) == Some(b) && b in roles && roles[b] == Some(a) && a != "" && a != b
  {
  }

  ghost predicate IsAncestor(roles: Roles, r: string, a: string) {
    exists n: nat :: Up(roles, r, n) == Some(a)
  }

  /** `a` is a held role or an ancestor of one. */
  ghost predicate Inherited(roles: Roles, held: seq<string>, a: string) {
    exists i :: 0 <= i < |held| && IsAncestor(roles, held[i], a)
  }

  /** The chain from `r` ends or turns back on itself within six distinct roles. */
  ghost predicate ShortChain(roles: Roles, r: string) {
    Up(roles, r, 6).None? || exists m: nat :: m <= 5 && Up(roles, r, m) == Up(roles, r, 6)
  }

  // ------------------------------------------------------------------
  // Soundness: never more than five steps up
  // ------------------------------------------------------------------

  lemma {:induction false} WalkAddsAncestors(roles: Roles, r: string, k: nat, depth: nat, seen: set<string>, a: string)
    requires Up(roles, r, k).Some? && a in Walk(roles, Up(roles, r, k).value, depth, seen) && a !in seen
    ensures exists n: nat :: n <= k + depth && Up(roles, r, n) == Some(a)
    decreases depth
  {
    var cur := Up(roles, r, k).value;
    var parent := ParentOf(roles, cur);
    if a == cur {
      assert Up(roles, r, k) == Some(a);
    } else {
      assert Up(roles, r, k + 1) == parent;
      WalkAddsAncestors(roles, r, k + 1, depth - 1, seen + {cur}, a);
    }
  }

  /** Every expanded role lies within five parent steps of a held role. */
  lemma {:induction false} ExpandIsSound(roles: Roles, held: seq<string>, a: string)
    requires a in Expand(roles, held)
    ensures exists i, n: nat :: 0 <= i < |held| && n <= 5 && Up(roles, held[i], n) == Some(a)
  {
    var last := |held| - 1;
    if a in Expand(roles, held[..last]) {
      ExpandIsSound(roles, held[..last], a);
      var i, n: nat :| 0 <= i < last && n <= 5 && Up(roles, held[..last][i], n) == Some(a);
      assert held[i] == held[..last][i];
    } else {
      assert Up(roles, held[last], 0) == Some(held[last]);
      WalkAddsAncestors(roles, held[last], 0, MAX_DEPTH, Expand(roles, held[..last]), a);
      var n: nat :| n <= 5 && Up(roles, held[last], n) == Some(a);
    }
  }

  // ------------------------------------------------------------------
  // Completeness: short chains close under parents
  // ------------------------------------------------------------------

  /** Every role in the set has its parent in the set, or that parent is `next`. */
  ghost predicate ClosedBut(roles: Roles, seen: set<string>, next: Option<string>) {
    forall x :: x in seen ==> ParentOf(roles, x).None? || ParentOf(roles, x).value in seen || ParentOf(roles, x) == next
  }

  ghost predicate Closed(roles: Roles, seen: set<string>) { ClosedBut(roles, seen, None) }

  /** The first `k` roles of the chain are in the set. */
  ghost predicate HasChainBelow(roles: Roles, r: string, k: nat, seen: set<string>) {
    forall m: nat :: m < k && Up(roles, r, m).Some? ==> Up(roles, r, m).value in seen
  }

  lemma {:induction false} WalkCloses(roles: Roles, r: string, k: nat, seen: set<string>)
    requires ShortChain(roles, r) && k <= 5 && Up(roles, r, k).Some?
    requires ClosedBut(roles, seen, Up(roles, r, k)) && HasChainBelow(roles, r, k, seen)
    ensures var out := Walk(roles, Up(roles, r, k).value, 5 - k, seen);
            Closed(roles, out) && seen <= out && Up(roles, r, k).value in out
    decreases 5 - k
  {
    var cur := Up(roles, r, k).value;
    if cur !in seen {
      var seen' := seen + {cur};
      var parent := Up(roles, r, k + 1);
      assert parent == ParentOf(roles, cur);
      assert HasChainBelow(roles, r, k + 1, seen');
      assert ClosedBut(roles, seen', parent);
      if parent.Some? {
        if k == 5 {
          var m: nat :| m <= 5 && Up(roles, r, m) == Up(roles, r, 6);
          assert parent.value in seen';
        } else {
          WalkCloses(roles, r, k + 1, seen');
        }
      }
    }
  }

  lemma {:induction false} ShortChainsClose(roles: Roles, held: seq<string>)
    requires forall i :: 0 <= i < |held| ==> ShortChain(roles, held[i])
    ensures Closed(roles, Expand(roles, held))
    ensures forall i :: 0 <= i < |held| ==> held[i] in Expand(roles, held)
  {
    if held != [] {
      var front := held[..|held| - 1];
      var r := held[|held| - 1];
      ShortChainsClose(roles, front);
      assert Up(roles, r, 0) == Some(r);
      WalkCloses(roles, r, 0, Expand(roles, front));
      forall i | 0 <= i < |held| ensures held[i] in Expand(roles, held) {
        if i < |front| {
          assert front[i] == held[i];
        }
      }
    }
  }

  lemma {:induction false} ClosedHasAncestors(roles: Roles, seen: set<string>, r: string, n: nat)
    requires Closed(roles, seen) && r in seen && Up(roles, r, n).Some?
    ensures Up(roles, r, n).value in seen
  {
    if n > 0 {
      ClosedHasAncestors(roles, seen, r, n - 1);
    }
  }

  /**
   When every held role's chain has at most six distinct roles, the expanded set is exactly the
   ancestor closure; the order of the held roles does not matter, shared visited set or not.
   */
  lemma ExpandIsClosure(roles: Roles, held: seq<string>, a: string)
    requires forall i :: 0 <= i < |held| ==> ShortChain(roles, held[i])
    ensures a in Expand(roles, held) <==> Inherited(roles, held, a)
  {
    ShortChainsClose(roles, held);
    if Inherited(roles, held, a) {
      var i :| 0 <= i < |held| && IsAncestor(roles, held[i], a);
      var n: nat :| Up(roles, held[i], n) == Some(a);
      ClosedHasAncestors(roles, Expand(roles, held), held[i], n);
    }
    if a in Expand(roles, held) {
      ExpandIsSound(roles, held, a);
      var i, n: nat :| 0 <= i < |held| && n <= 5 && Up(roles, held[i], n) == Some(a);
      assert IsAncestor(roles, held[i], a);
    }
  }

  /** For a single held role the bound is exact: the walk is complete if and only if the chain is short. */
  lemma SingleRoleCompleteIff(roles: Roles, r: string)
    ensures (forall a :: Inherited(roles, [r], a) ==> a in Expand(roles, [r])) <==> ShortChain(roles, r)
  {
    if ShortChain(roles, r) {
      forall a | Inherited(roles, [r], a) ensures a in Expand(roles, [r]) {
        ExpandIsClosure(roles, [r], a);
      }
    } else {
      var a := Up(roles, r, 6).value;
      assert IsAncestor(roles, r, a);
      assert Inherited(roles, [r], a) by {
        assert [r][0] == r;
      }
      if a in Expand(roles, [r]) {
        ExpandIsSound(roles, [r], a);
      }
    }
  }

  // ------------------------------------------------------------------
  // Several held roles: exactly what the shared visited set lets through
  // ------------------------------------------------------------------

  /**
   The walk from held role `j` gets to its `n`-th ancestor: within the bound, and no role below it on the
   chain was already visited by the walks of the held roles before `j`.
   */
  ghost predicate Gets(roles: Roles, held: seq<string>, j: nat, n: nat) {
    && j < |held| && n <= 5 && Up(roles, held[j], n).Some?
    && Unmet(roles, held[j], n, Expand(roles, held[..j]))
  }

  /** The `m`-th role of the chain, if there is one, is not in the set. */
  predicate Avoids(roles: Roles, r: string, m: nat, seen: set<string>) {
    Up(roles, r, m).Some? ==> Up(roles, r, m).value !in seen
  }

  /** None of the first `n` roles of the chain is in the set. */
  ghost predicate Unmet(roles: Roles, r: string, n: nat, seen: set<string>) {
    forall m: nat {:trigger Avoids(roles, r, m, seen)} :: m < n ==> Avoids(roles, r, m, seen)
  }

  /** Some held role's walk gets to `a`. */
  ghost predicate Reached(roles: Roles, held: seq<string>, a: string) {
    exists j: nat, n: nat :: Gets(roles, held, j, n) && Up(roles, held[j], n) == Some(a)
  }

  lemma {:induction false} UpContinues(roles: Roles, r: string, m: nat, n: nat)
    requires m <= n && Up(roles, r, n).Some?
    ensures Up(roles, r, m).Some?
  {
    if m < n {
      UpContinues(roles, r, m, n - 1);
    }
  }

  /** Once a chain repeats below step `k`, every later role is among the first `k`. */
  lemma {:induction false} CycleStays(roles: Roles, r: string, m: nat, k: nat, n: nat)
    requires m < k <= n && Up(roles, r, m) == Up(roles, r, k) && Up(roles, r, n).Some?
    ensures exists i: nat :: i < k && Up(roles, r, i) == Up(roles, r, n)
  {
    if n == k {
      assert Up(roles, r, m) == Up(roles, r, n);
    } else {
      UpContinues(roles, r, n - 1, n);
      CycleStays(roles, r, m, k, n - 1);
      var i: nat :| i < k && Up(roles, r, i) == Up(roles, r, n - 1);
      assert Up(roles, r, i + 1) == Up(roles, r, n);
      if i + 1 == k {
        assert Up(roles, r, m) == Up(roles, r, n);
      }
    }
  }

  /** `x` is among the first `k` roles of the chain. */
  ghost predicate Early(roles: Roles, r: string, k: nat, x: string) {
    exists m: nat :: m < k && Up(roles, r, m) == Some(x)
  }

  /** What the walk has visited after `k` steps: what it started with and the first `k` roles of its chain. */
  ghost predicate Visited(roles: Roles, r: string, k: nat, start: set<string>, seen: set<string>) {
    forall x {:trigger x in seen} {:trigger Early(roles, r, k, x)} :: x in seen <==> x in start || Early(roles, r, k, x)
  }

  lemma EarlyStep(roles: Roles, r: string, k: nat, x: string)
    ensures Early(roles, r, k + 1, x) <==> Early(roles, r, k, x) || Up(roles, r, k) == Some(x)
  {
    if Early(roles, r, k + 1, x) {
      var m: nat :| m < k + 1 && Up(roles, r, m) == Some(x);
      assert m < k ==> Early(roles, r, k, x);
    }
    if Early(roles, r, k, x) {
      var m: nat :| m < k && Up(roles, r, m) == Some(x);
      assert m < k + 1;
    }
  }

  /** The walk from step `k` on adds the ancestor `a` before meeting a role of `start`. */
  ghost predicate Adds(roles: Roles, r: string, k: nat, start: set<string>, a: string) {
    exists n: nat :: k <= n <= 5 && Up(roles, r, n) == Some(a) && Unmet(roles, r, n, start)
  }

  lemma {:induction false} WalkMemberIff(roles: Roles, r: string, k: nat, start: set<string>, seen: set<string>,
                                         a: string)
    requires k <= 5 && Up(roles, r, k).Some? && Visited(roles, r, k, start, seen) && Unmet(roles, r, k, start)
    ensures a in Walk(roles, Up(roles, r, k).value, 5 - k, seen) <==> a in seen || Adds(roles, r, k, start, a)
    decreases 5 - k
  {
    var cur := Up(roles, r, k).value;
    if cur in seen {
      if Adds(roles, r, k, start, a) {
        StoppedWalkHas(roles, r, k, start, seen, a);
      }
    } else {
      AddsStep(roles, r, k, start, a);
      if ParentOf(roles, cur).Some? && k < 5 {
        assert Up(roles, r, k + 1) == ParentOf(roles, cur);
        forall x ensures x in seen + {cur} <==> x in start || Early(roles, r, k + 1, x) {
          EarlyStep(roles, r, k, x);
        }
        assert Avoids(roles, r, k, start);
        WalkMemberIff(roles, r, k + 1, start, seen + {cur}, a);
      } else {
        NothingBeyond(roles, r, k, start, a);
      }
    }
  }

  lemma NothingBeyond(roles: Roles, r: string, k: nat, start: set<string>, a: string)
    requires k <= 5 && Up(roles, r, k).Some? && (k == 5 || ParentOf(roles, Up(roles, r, k).value).None?)
    ensures !Adds(roles, r, k + 1, start, a)
  {
    if Adds(roles, r, k + 1, start, a) {
      var n: nat :| k + 1 <= n <= 5 && Up(roles, r, n) == Some(a) && Unmet(roles, r, n, start);
      UpContinues(roles, r, k + 1, n);
    }
  }

  /** A walk that stops at a visited role misses nothing it was entitled to. */
  lemma StoppedWalkHas(roles: Roles, r: string, k: nat, start: set<string>, seen: set<string>, a: string)
    requires Up(roles, r, k).Some? && Visited(roles, r, k, start, seen) && Up(roles, r, k).value in seen
    requires Adds(roles, r, k, start, a)
    ensures a in seen
  {
    var n: nat :| k <= n <= 5 && Up(roles, r, n) == Some(a) && Unmet(roles, r, n, start);
    var cur := Up(roles, r, k).value;
    if n > k {
      assert Avoids(roles, r, k, start);
      assert Early(roles, r, k, cur);
      var m: nat :| m < k && Up(roles, r, m) == Some(cur);
      CycleStays(roles, r, m, k, n);
      assert Early(roles, r, k, a);
    }
  }

  lemma AddsStep(roles: Roles, r: string, k: nat, start: set<string>, a: string)
    requires k <= 5 && Up(roles, r, k).Some? && Unmet(roles, r, k, start)
    ensures Adds(roles, r, k, start, a) <==> Up(roles, r, k) == Some(a) || Adds(roles, r, k + 1, start, a)
  {
    if Adds(roles, r, k, start, a) && Up(roles, r, k) != Some(a) {
      var n: nat :| k <= n <= 5 && Up(roles, r, n) == Some(a) && Unmet(roles, r, n, start);
      assert k + 1 <= n;
    }
    if Adds(roles, r, k + 1, start, a) {
      var n: nat :| k + 1 <= n <= 5 && Up(roles, r, n) == Some(a) && Unmet(roles, r, n, start);
      assert k <= n;
    }
  }

  /** Exactly which roles the expansion holds: those some held role's walk gets to. */
  lemma {:induction false} MemberIff(roles: Roles, held: seq<string>, a: string)
    ensures a in Expand(roles, held) <==> Reached(roles, held, a)
  {
    if held != [] {
      var last := |held| - 1;
      var front, r := held[..last], held[last];
      MemberIff(roles, front, a);
      assert Up(roles, r, 0) == Some(r);
      WalkMemberIff(roles, r, 0, Expand(roles, front), Expand(roles, front), a);
      ReachedStep(roles, held, a);
    }
  }

  lemma GetsOfPrefix(roles: Roles, held: seq<string>, p: nat, j: nat, n: nat)
    requires j < p <= |held|
    ensures Gets(roles, held[..p], j, n) <==> Gets(roles, held, j, n)
  {
    assert held[..p][..j] == held[..j];
  }

  lemma ReachedStep(roles: Roles, held: seq<string>, a: string)
    requires held != []
    ensures var last := |held| - 1;
            Reached(roles, held, a) <==>
              Reached(roles, held[..last], a) || Adds(roles, held[last], 0, Expand(roles, held[..last]), a)
  {
    var last := |held| - 1;
    if Reached(roles, held, a) {
      var j: nat, n: nat :| Gets(roles, held, j, n) && Up(roles, held[j], n) == Some(a);
      if j < last {
        GetsOfPrefix(roles, held, last, j, n);
      }
    }
    if Reached(roles, held[..last], a) {
      var j: nat, n: nat :| Gets(roles, held[..last], j, n) && Up(roles, held[..last][j], n) == Some(a);
      GetsOfPrefix(roles, held, last, j, n);
    }
    if Adds(roles, held[last], 0, Expand(roles, held[..last]), a) {
      var n: nat :| n <= 5 && Up(roles, held[last], n) == Some(a)
          && Unmet(roles, held[last], n, Expand(roles, held[..last]));
      assert Gets(roles, held, last, n);
    }
  }

  /** `a` is within five parent steps of a held role. */
  ghost predicate WithinBound(roles: Roles, held: seq<string>, a: string) {
    exists i, n: nat :: 0 <= i < |held| && n <= 5 && Up(roles, held[i], n) == Some(a)
  }

  /** The `n`-th ancestor of held role `i`, if it is within the bound, is one some walk gets to. */
  ghost predicate BoundReached(roles: Roles, held: seq<string>, i: nat, n: nat) {
    i < |held| && n <= 5 && Up(roles, held[i], n).Some? ==> Reached(roles, held, Up(roles, held[i], n).value)
  }

  lemma BoundReachedIff(roles: Roles, held: seq<string>, i: nat, n: nat)
    ensures BoundReached(roles, held, i, n) <==>
            (i < |held| && n <= 5 && Up(roles, held[i], n).Some? ==> Up(roles, held[i], n).value in Expand(roles, held))
  {
    if i < |held| && Up(roles, held[i], n).Some? {
      MemberIff(roles, held, Up(roles, held[i], n).value);
    }
  }

  /**
   The documented result, the union over the held roles of all ancestors within the bound, is computed if and
   only if every such ancestor is one that some walk gets to before it meets an earlier walk.
   */
  lemma BoundedUnionIff(roles: Roles, held: seq<string>)
    ensures (forall a :: a in Expand(roles, held) <==> WithinBound(roles, held, a)) <==>
            (forall i: nat, n: nat :: BoundReached(roles, held, i, n))
  {
    if forall a :: a in Expand(roles, held) <==> WithinBound(roles, held, a) {
      forall i: nat, n: nat ensures BoundReached(roles, held, i, n) {
        BoundReachedIff(roles, held, i, n);
        if i < |held| && n <= 5 && Up(roles, held[i], n).Some? {
          assert WithinBound(roles, held, Up(roles, held[i], n).value);
        }
      }
    }
    if forall i: nat, n: nat :: BoundReached(roles, held, i, n) {
      forall a ensures a in Expand(roles, held) <==> WithinBound(roles, held, a) {
        if a in Expand(roles, held) {
          ExpandIsSound(roles, held, a);
        }
        if WithinBound(roles, held, a) {
          var i, n: nat :| 0 <= i < |held| && n <= 5 && Up(roles, held[i], n) == Some(a);
          BoundReachedIff(roles, held, i, n);
        }
      }
    }
  }

  /** Each held chain ends within six roles, or some walk gets to the role after them. */
  ghost predicate SixthCovered(roles: Roles, held: seq<string>) {
    forall i :: 0 <= i < |held| ==> SixthOf(roles, held, held[i])
  }

  ghost predicate SixthOf(roles: Roles, held: seq<string>, r: string) {
    Up(roles, r, 6).Some? ==> Reached(roles, held, Up(roles, r, 6).value)
  }

  /** The parent of an expanded role is expanded, if the role after the bound is covered where a walk ran to it. */
  lemma {:induction false} ParentExpanded(roles: Roles, held: seq<string>, p: nat, a: string)
    requires p <= |held| && SixthCovered(roles, held) && a in Expand(roles, held[..p])
    ensures ParentOf(roles, a).None? || Reached(roles, held, ParentOf(roles, a).value)
  {
    var front, r := held[..p - 1], held[p - 1];
    assert held[..p][..p - 1] == front;
    if a in Expand(roles, front) {
      ParentExpanded(roles, held, p - 1, a);
    } else {
      assert Up(roles, r, 0) == Some(r);
      WalkMemberIff(roles, r, 0, Expand(roles, front), Expand(roles, front), a);
      var n: nat :| n <= 5 && Up(roles, r, n) == Some(a) && Unmet(roles, r, n, Expand(roles, front));
      assert Up(roles, r, n + 1) == ParentOf(roles, a) && Avoids(roles, r, n, Expand(roles, front));
      if ParentOf(roles, a).Some? && n < 5 {
        assert Gets(roles, held, p - 1, n + 1);
      }
    }
  }

  /**
   The expansion is the whole ancestor closure if and only if every held chain ends within six roles or its
   seventh role is one that some walk gets to. Nothing is assumed about the roles or their order.
   */
  lemma CompleteIff(roles: Roles, held: seq<string>)
    ensures (forall a :: a in Expand(roles, held) <==> Inherited(roles, held, a)) <==> SixthCovered(roles, held)
  {
    if SixthCovered(roles, held) {
      CoveredIsComplete(roles, held);
    }
    if forall a :: a in Expand(roles, held) <==> Inherited(roles, held, a) {
      forall i | 0 <= i < |held| ensures SixthOf(roles, held, held[i]) {
        var sixth := Up(roles, held[i], 6);
        if sixth.Some? {
          assert IsAncestor(roles, held[i], sixth.value);
          assert Inherited(roles, held, sixth.value);
          MemberIff(roles, held, sixth.value);
        }
      }
    }
  }

  lemma CoveredIsComplete(roles: Roles, held: seq<string>)
    requires SixthCovered(roles, held)
    ensures forall a :: a in Expand(roles, held) <==> Inherited(roles, held, a)
  {
    var all := Expand(roles, held);
    assert held[..|held|] == held;
    forall x | x in all ensures ParentOf(roles, x).None? || ParentOf(roles, x).value in all {
      ParentExpanded(roles, held, |held|, x);
      if ParentOf(roles, x).Some? {
        MemberIff(roles, held, ParentOf(roles, x).value);
      }
    }
    assert Closed(roles, all);
    forall a ensures a in all <==> Inherited(roles, held, a) {
      if Inherited(roles, held, a) {
        var i :| 0 <= i < |held| && IsAncestor(roles, held[i], a);
        var n: nat :| Up(roles, held[i], n) == Some(a);
        HeldExpanded(roles, held, i);
        ClosedHasAncestors(roles, all, held[i], n);
      }
      if a in all {
        ExpandIsSound(roles, held, a);
        var i, n: nat :| 0 <= i < |held| && n <= 5 && Up(roles, held[i], n) == Some(a);
        assert IsAncestor(roles, held[i], a);
      }
    }
  }

  lemma HeldExpanded(roles: Roles, held: seq<string>, i: nat)
    requires i < |held|
    ensures held[i] in Expand(roles, held)
  {
    assert Up(roles, held[i], 0) == Some(held[i]);
    assert Gets(roles, held, i, 0);
    MemberIff(roles, held, held[i]);
  }

  /** A role added at the end takes none away. */
  lemma {:induction false} LaterRolesOnlyAdd(roles: Roles, held: seq<string>, p: nat)
    requires p <= |held|
    ensures Expand(roles, held[..p]) <= Expand(roles, held)
  {
    if p == |held| {
      assert held[..p] == held;
    } else {
      var front := held[..|held| - 1];
      LaterRolesOnlyAdd(roles, front, p);
      assert front[..p] == held[..p];
      WalkGrows(roles, held[|held| - 1], MAX_DEPTH, Expand(roles, front));
    }
  }

  /** A chain of seven roles: r0 up to r6. */
  function SevenRoles(): Roles {
    map["r0" := Some("r1"), "r1" := Some("r2"), "r2" := Some("r3"), "r3" := Some("r4"),
        "r4" := Some("r5"), "r5" := Some("r6"), "r6" := None]
  }

  /**
   On a chain of seven, holding r0 as well as r5 takes r6 away, and only in that order: the walk from r0
   stops short of r6 and the walk from r5 stops at once.
   */
  lemma ExtraRoleTakesAway()
    ensures "r6" in Expand(SevenRoles(), ["r5"])
    ensures "r6" !in Expand(SevenRoles(), ["r0", "r5"])
    ensures "r6" in Expand(SevenRoles(), ["r5", "r0"])
  {
    AloneReachesEnd();
    LaterRolesOnlyAdd(SevenRoles(), ["r5", "r0"], 1);
    assert ["r5", "r0"][..1] == ["r5"] && ["r0", "r5"][..1] == ["r0"];
  }

  lemma AloneReachesEnd()
    ensures "r6" in Expand(SevenRoles(), ["r5"])
  {
  }

  lemma {:induction false} WalkGrows(roles: Roles, cur: string, depth: nat, seen: set<string>)
    ensures seen <= Walk(roles, cur, depth, seen)
    decreases depth
  {
    var parent := ParentOf(roles, cur);
    if cur !in seen && parent.Some? && depth > 0 {
      WalkGrows(roles, parent.value, depth - 1, seen + {cur});
    }
  }
}
