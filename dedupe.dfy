/**
 * The collapse of consecutive duplicate edge ids at the end of match_edges:
 * std::unique over the vector followed by erase of the tail.
 */
module Dedupe {

  /** The sequence with every run of equal adjacent elements collapsed to one. */
  function Dedup<T(==)>(s: seq<T>): seq<T>
  {
    if |s| <= 1 then s
    else if s[|s| - 1] == s[|s| - 2] then Dedup(s[..|s| - 1])
    else Dedup(s[..|s| - 1]) + [s[|s| - 1]]
  }

  /** No two adjacent elements are equal. */
  predicate NoAdjacentDuplicates<T(==)>(s: seq<T>) {
    forall k :: 0 < k < |s| ==> s[k - 1] != s[k]
  }

  /** `count` copies of `x`. */
  function Repeat<T>(x: T, count: nat): (r: seq<T>)
    ensures |r| == count
    ensures forall k :: 0 <= k < count ==> r[k] == x
  {
    if count == 0 then [] else Repeat(x, count - 1) + [x]
  }

  /** Each element of `r` repeated as often as `counts` says, in order. */
  function Expand<T>(r: seq<T>, counts: seq<nat>): seq<T>
    requires |counts| == |r|
  {
    if r == [] then []
    else Expand(r[..|r| - 1], counts[..|r| - 1]) + Repeat(r[|r| - 1], counts[|r| - 1])
  }

  /** The lengths of the runs of equal adjacent elements of `s`. */
  function RunLengths<T(==)>(s: seq<T>): seq<nat>
  {
    if |s| == 0 then []
    else if |s| == 1 then [1]
    else
      var c := RunLengths(s[..|s| - 1]);
      if s[|s| - 1] == s[|s| - 2] && c != [] then c[..|c| - 1] + [c[|c| - 1] + 1]
      else c + [1]
  }

  /** A non-empty sequence is its prefix followed by its last element. */
  lemma SplitLast<T>(s: seq<T>)
    requires s != []
    ensures s == s[..|s| - 1] + [s[|s| - 1]]
  {
  }

  lemma {:induction false} DedupEnds<T>(s: seq<T>)
    requires s != []
    ensures Dedup(s) != []
    ensures Dedup(s)[0] == s[0]
    ensures Dedup(s)[|Dedup(s)| - 1] == s[|s| - 1]
  {
    if |s| > 1 {
      var p := s[..|s| - 1];
      DedupEnds(p);
    }
  }

  /** Dedup keeps the first and the last element and leaves no adjacent duplicates. */
  lemma {:induction false} DedupNoAdjacent<T>(s: seq<T>)
    ensures NoAdjacentDuplicates(Dedup(s))
    ensures |Dedup(s)| <= |s|
    ensures s != [] ==> Dedup(s) != [] && Dedup(s)[0] == s[0]
                        && Dedup(s)[|Dedup(s)| - 1] == s[|s| - 1]
  {
    if |s| > 1 {
      var p := s[..|s| - 1];
      DedupNoAdjacent(p);
      DedupEnds(s);
    }
  }

  lemma {:induction false} RepeatSucc<T>(x: T, n: nat)
    ensures Repeat(x, n + 1) == Repeat(x, n) + [x]
  {
  }

  /** Appending an element different from the last one keeps it. */
  lemma {:induction false} DedupSnocNew<T>(t: seq<T>, x: T)
    requires t != [] ==> t[|t| - 1] != x
    ensures Dedup(t + [x]) == Dedup(t) + [x]
  {
    var u := t + [x];
    assert u[..|u| - 1] == t;
    if t == [] {
      assert u == [x];
    } else {
      assert u[|u| - 2] == t[|t| - 1];
    }
  }

  /** Appending a copy of the last element changes nothing. */
  lemma {:induction false} DedupSnocSame<T>(t: seq<T>, x: T)
    requires t != [] && t[|t| - 1] == x
    ensures Dedup(t + [x]) == Dedup(t)
  {
    var u := t + [x];
    assert u[..|u| - 1] == t;
    assert u[|u| - 2] == t[|t| - 1];
  }

  lemma {:induction false} ExpandSnoc<T>(r: seq<T>, c: seq<nat>, x: T, n: nat)
    requires |c| == |r|
    ensures Expand(r + [x], c + [n]) == Expand(r, c) + Repeat(x, n)
  {
    var r' := r + [x];
    var c' := c + [n];
    assert r'[..|r|] == r && c'[..|r|] == c;
  }

  /** Lengthening the last run of an expansion by one appends its element. */
  lemma {:induction false} ExpandBumpLast<T>(r: seq<T>, c: seq<nat>)
    requires |c| == |r| && r != []
    ensures var m := |r| - 1;
      Expand(r, c[..m] + [c[m] + 1]) == Expand(r, c) + [r[m]]
  {
    var m := |r| - 1;
    assert r[..m] + [r[m]] == r;
    assert c[..m] + [c[m]] == c;
    ExpandSnoc(r[..m], c[..m], r[m], c[m]);
    ExpandSnoc(r[..m], c[..m], r[m], c[m] + 1);
    RepeatSucc(r[m], c[m]);
  }

  /** There is one positive run length per element of the deduplicated sequence. */
  lemma {:induction false} RunLengthsShape<T>(s: seq<T>)
    ensures |RunLengths(s)| == |Dedup(s)|
    ensures forall k :: 0 <= k < |RunLengths(s)| ==> RunLengths(s)[k] > 0
  {
    if |s| > 1 {
      var p := s[..|s| - 1];
      RunLengthsShape(p);
      DedupNoAdjacent(p);
    }
  }

  /**
   * Dedup collapses runs: the input is the deduplicated sequence with each
   * element repeated by its (positive) run length.
   */
  lemma {:induction false} DedupCollapsesRuns<T>(s: seq<T>)
    ensures |RunLengths(s)| == |Dedup(s)|
    ensures forall k :: 0 <= k < |RunLengths(s)| ==> RunLengths(s)[k] > 0
    ensures s == Expand(Dedup(s), RunLengths(s))
  {
    RunLengthsShape(s);
    if |s| == 1 {
      ExpandSnoc([], [], s[0], 1);
      assert [s[0]] == s;
    } else if |s| > 1 {
      var p := s[..|s| - 1];
      var x := s[|s| - 1];
      SplitLast(s);
      DedupCollapsesRuns(p);
      CollapseStep(p, x);
    }
  }

  /** The inductive step of DedupCollapsesRuns: extend by one element. */
  lemma {:induction false} CollapseStep<T>(p: seq<T>, x: T)
    requires p != []
    requires |RunLengths(p)| == |Dedup(p)|
    requires p == Expand(Dedup(p), RunLengths(p))
    ensures p + [x] == Expand(Dedup(p + [x]), RunLengths(p + [x]))
  {
    DedupNoAdjacent(p);
    if x == p[|p| - 1] {
      CollapseSame(p, x);
    } else {
      CollapseNew(p, x);
    }
  }

  /** The step when the new element continues the last run. */
  lemma {:induction false} CollapseSame<T>(p: seq<T>, x: T)
    requires p != [] && x == p[|p| - 1]
    requires |RunLengths(p)| == |Dedup(p)| && Dedup(p) != []
    requires Dedup(p)[|Dedup(p)| - 1] == p[|p| - 1]
    requires p == Expand(Dedup(p), RunLengths(p))
    ensures p + [x] == Expand(Dedup(p + [x]), RunLengths(p + [x]))
  {
    DedupSnocSame(p, x);
    RunLengthsSnocSame(p, x);
    ExpandBumpLast(Dedup(p), RunLengths(p));
  }

  /** The step when the new element starts a run of its own. */
  lemma {:induction false} CollapseNew<T>(p: seq<T>, x: T)
    requires p != [] && x != p[|p| - 1]
    requires |RunLengths(p)| == |Dedup(p)|
    requires p == Expand(Dedup(p), RunLengths(p))
    ensures p + [x] == Expand(Dedup(p + [x]), RunLengths(p + [x]))
  {
    DedupSnocNew(p, x);
    RunLengthsSnocNew(p, x);
    ExpandSnoc(Dedup(p), RunLengths(p), x, 1);
    assert Repeat(x, 1) == [x];
  }

  lemma RunLengthsSnocSame<T>(p: seq<T>, x: T)
    requires p != [] && x == p[|p| - 1]
    ensures var c := RunLengths(p);
      c != [] && RunLengths(p + [x]) == c[..|c| - 1] + [c[|c| - 1] + 1]
  {
    var s := p + [x];
    assert s[..|s| - 1] == p;
  }

  lemma RunLengthsSnocNew<T>(p: seq<T>, x: T)
    requires p != [] && x != p[|p| - 1]
    ensures RunLengths(p + [x]) == RunLengths(p) + [1]
  {
    var s := p + [x];
    assert s[..|s| - 1] == p;
  }

  /** Appending a run of `x` to a sequence that does not end in `x` adds one element. */
  lemma {:induction false} DedupAppendRun<T>(t: seq<T>, x: T, k: nat)
    requires k > 0
    requires t != [] ==> t[|t| - 1] != x
    ensures Dedup(t + Repeat(x, k)) == Dedup(t) + [x]
  {
    RepeatSucc(x, k - 1);
    if k == 1 {
      assert t + Repeat(x, 1) == t + [x];
      DedupSnocNew(t, x);
    } else {
      DedupAppendRun(t, x, k - 1);
      var v := t + Repeat(x, k - 1);
      assert t + Repeat(x, k) == v + [x];
      assert v[|v| - 1] == x;
      DedupSnocSame(v, x);
    }
  }

  lemma {:induction false} ExpandEnds<T>(r: seq<T>, counts: seq<nat>)
    requires |counts| == |r| && r != []
    requires forall k :: 0 <= k < |counts| ==> counts[k] > 0
    ensures Expand(r, counts) != []
    ensures Expand(r, counts)[|Expand(r, counts)| - 1] == r[|r| - 1]
  {
  }

  /**
   * The converse: expanding a sequence without adjacent duplicates by any
   * positive run lengths and deduplicating gives the sequence back. With
   * DedupCollapsesRuns this characterises Dedup completely.
   */
  lemma {:induction false} DedupOfExpand<T>(r: seq<T>, counts: seq<nat>)
    requires |counts| == |r|
    requires forall k :: 0 <= k < |counts| ==> counts[k] > 0
    requires NoAdjacentDuplicates(r)
    ensures Dedup(Expand(r, counts)) == r
  {
    if r != [] {
      var m := |r| - 1;
      var r' := r[..m];
      var c' := counts[..m];
      DedupOfExpand(r', c');
      var t := Expand(r', c');
      if r' != [] {
        ExpandEnds(r', c');
        assert r'[|r'| - 1] == r[m - 1];
      }
      DedupAppendRun(t, r[m], counts[m]);
      SplitLast(r);
    }
  }

  /** Deduplicating twice changes nothing more. */
  lemma {:induction false} DedupIdempotent<T>(s: seq<T>)
    ensures Dedup(Dedup(s)) == Dedup(s)
  {
    var r := Dedup(s);
    DedupNoAdjacent(s);
    var ones := Repeat(1, |r|);
    ExpandOnes(r);
    DedupOfExpand(r, ones);
  }

  lemma {:induction false} ExpandOnes<T>(r: seq<T>)
    ensures Expand(r, Repeat(1, |r|)) == r
  {
    if r != [] {
      var m := |r| - 1;
      ExpandOnes(r[..m]);
      assert Repeat(1, |r|)[..m] == Repeat(1, m);
      assert r[..m] + [r[m]] == r;
    }
  }

  /** How the deduplicated prefix grows by one element of s. */
  lemma DedupPrefixStep<T>(s: seq<T>, i: nat)
    requires 0 < i < |s|
    ensures Dedup(s[..i + 1]) ==
      if s[i] != s[i - 1] then Dedup(s[..i]) + [s[i]] else Dedup(s[..i])
  {
    assert s[..i + 1] == s[..i] + [s[i]];
    if s[i] != s[i - 1] {
      DedupSnocNew(s[..i], s[i]);
    } else {
      DedupSnocSame(s[..i], s[i]);
    }
  }

  /**
   * std::unique on a[0..n) followed by erase: returns the new end; the array
   * prefix a[..newEnd] is the deduplicated input.
   */
  method Unique<T(==)>(a: array<T>) returns (newEnd: nat)
    modifies a
    ensures newEnd <= a.Length
    ensures a[..newEnd] == Dedup(old(a[..]))
  {
    if a.Length == 0 {
      return 0;
    }
    ghost var s := a[..];
    ghost var d := Dedup(s[..1]);
    var result := 0;
    var first := 1;
    while first < a.Length
      invariant 1 <= first <= a.Length
      invariant result < first
      invariant d == Dedup(s[..first]) && |d| == result + 1
      invariant forall k :: 0 <= k <= result ==> a[k] == d[k]
      invariant a[result] == s[first - 1]
      invariant forall k :: first <= k < a.Length ==> a[k] == s[k]
    {
      DedupPrefixStep(s, first);
      if a[result] != a[first] {
        result := result + 1;
        a[result] := a[first];
        d := d + [s[first]];
      }
      first := first + 1;
    }
    assert s[..a.Length] == s;
    assert a[..result + 1] == d;
    newEnd := result + 1;
  }
}
