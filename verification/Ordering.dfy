/** Go's string order, and sorted listings of a set of strings. */
module Ordering {

  /** Go's string comparison: lexicographic, a proper prefix first. */
  predicate Leq(a: string, b: string) {
    a == "" || (b != "" && (a[0] < b[0] || (a[0] == b[0] && Leq(a[1..], b[1..]))))
  }

  lemma {:induction false} LeqTotal(a: string, b: string)
    ensures Leq(a, b) || Leq(b, a)
  {
    if a != "" && b != "" && a[0] == b[0] {
      LeqTotal(a[1..], b[1..]);
    }
  }

  lemma {:induction false} LeqAntisymmetric(a: string, b: string)
    requires Leq(a, b) && Leq(b, a)
    ensures a == b
  {
    if a != "" && b != "" {
      LeqAntisymmetric(a[1..], b[1..]);
      assert a == [a[0]] + a[1..] && b == [b[0]] + b[1..];
    }
  }

  lemma {:induction false} LeqTransitive(a: string, b: string, c: string)
    requires Leq(a, b) && Leq(b, c)
    ensures Leq(a, c)
  {
    if a != "" && a[0] == b[0] == c[0] {
      LeqTransitive(a[1..], b[1..], c[1..]);
    }
  }

  predicate Less(a: string, b: string) { a != b && Leq(a, b) }

  lemma LessTransitive(a: string, b: string, c: string)
    requires Less(a, b) && Less(b, c)
    ensures Less(a, c)
  {
    LeqTransitive(a, b, c);
    if a == c {
      LeqAntisymmetric(a, b);
    }
  }

  ghost predicate Ascending(s: seq<string>) {
    forall i, j :: 0 <= i < j < |s| ==> Less(s[i], s[j])
  }

  lemma InsertAscending(s: seq<string>, k: nat, x: string)
    requires Ascending(s) && k <= |s| && x !in s
    requires forall i :: 0 <= i < k ==> Less(s[i], x)
    requires k == |s| || !Less(s[k], x)
    ensures Ascending(s[..k] + [x] + s[k..])
  {
    forall j | k <= j < |s| ensures Less(x, s[j]) {
      LeqTotal(s[k], x);
      if j > k {
        LessTransitive(x, s[k], s[j]);
      }
    }
  }

  /** A set has one ascending listing. */
  lemma {:induction false} AscendingUnique(s: seq<string>, t: seq<string>)
    requires Ascending(s) && Ascending(t) && forall x :: x in s <==> x in t
    ensures s == t
  {
    if |t| > 0 {
      assert t[0] in s;
    }
    if |s| > 0 {
      assert s[0] in t;
      LastIsGreatest(s, t);
      var m, n := |s| - 1, |t| - 1;
      forall x ensures x in s[..m] <==> x in t[..n] {
        assert x in s[..m] <==> x in s && x != s[m];
        assert x in t[..n] <==> x in t && x != t[n];
      }
      AscendingUnique(s[..m], t[..n]);
      assert s == s[..m] + [s[m]] && t == t[..n] + [t[n]];
    }
  }

  lemma LastIsGreatest(s: seq<string>, t: seq<string>)
    requires Ascending(s) && Ascending(t) && (forall x :: x in s <==> x in t) && s != [] && t != []
    ensures s[|s| - 1] == t[|t| - 1]
  {
    var a, b := s[|s| - 1], t[|t| - 1];
    assert a in t && b in s;
    if a != b {
      assert Less(a, b) && Less(b, a);
      LeqAntisymmetric(a, b);
    }
  }

  /** sort.Strings over the keys of a map: each once, in increasing order. */
  method SortedElements(ids: set<string>) returns (s: seq<string>)
    ensures Ascending(s)
    ensures forall x :: x in s <==> x in ids
  {
    s := [];
    var left := ids;
    while left != {}
      invariant left <= ids && Ascending(s)
      invariant forall x :: x in s <==> x in ids && x !in left
    {
      var x :| x in left;
      var k := 0;
      while k < |s| && Less(s[k], x)
        invariant 0 <= k <= |s|
        invariant forall i :: 0 <= i < k ==> Less(s[i], x)
      {
        k := k + 1;
      }
      InsertAscending(s, k, x);
      ghost var before := s;
      s := s[..k] + [x] + s[k..];
      left := left - {x};
      assert before == before[..k] + before[k..];
    }
  }
}
