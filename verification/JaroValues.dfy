/** The similarity of pairs of strings whose value is well known. */
module JaroValues {
  import opened Prelude
  import opened Jaro
  import opened JaroSymmetry

  /** The scan in full: for each character of s the position of t it takes, or none. */
  ghost predicate Scan(s: string, t: string, w: nat, picks: seq<Option<int>>) {
    |picks| == |s| && forall i :: 0 <= i < |s| ==> Takes(s, t, w, i, picks)
  }

  ghost predicate Taken(picks: seq<Option<int>>, i: int, j: int)
    requires i <= |picks|
  {
    exists k :: 0 <= k < i && picks[k] == Some(j)
  }

  predicate Free(s: string, t: string, w: nat, i: int, j: int)
    requires 0 <= i < |s|
  {
    0 <= j < |t| && i - w <= j <= i + w && s[i] == t[j]
  }

  /** Character i takes the first near and equal character that no earlier one took. */
  ghost predicate Takes(s: string, t: string, w: nat, i: int, picks: seq<Option<int>>)
    requires 0 <= i < |s| == |picks|
  {
    && (picks[i].Some? ==> Free(s, t, w, i, picks[i].value) && !Taken(picks, i, picks[i].value))
    && forall j :: Free(s, t, w, i, j) && !Taken(picks, i, j) ==> picks[i].Some? && picks[i].value <= j
  }

  lemma {:induction false} ScanUsed(s: string, t: string, w: nat, picks: seq<Option<int>>, i: nat)
    requires Scan(s, t, w, picks) && i <= |s|
    ensures forall j :: j in Used(s, t, w, i) <==> Taken(picks, i, j)
    ensures forall k :: 0 <= k < i ==> Pick(s, t, w, k, Used(s, t, w, k)) == picks[k]
  {
    if i > 0 {
      ScanUsed(s, t, w, picks, i - 1);
      var used := Used(s, t, w, i - 1);
      FirstOk(s, t, i - 1, Low(w, i - 1), High(w, i - 1, |t|), used);
      assert Takes(s, t, w, i - 1, picks);
      var pick := Pick(s, t, w, i - 1, used);
      SamePick(s, t, w, i - 1, used, picks);
      forall j ensures j in Used(s, t, w, i) <==> Taken(picks, i, j) {
        if Taken(picks, i - 1, j) {
          var k :| 0 <= k < i - 1 && picks[k] == Some(j);
        }
      }
    }
  }

  lemma SamePick(s: string, t: string, w: nat, i: nat, used: set<int>, picks: seq<Option<int>>)
    requires i < |s| == |picks| && Takes(s, t, w, i, picks)
    requires forall j :: j in used <==> Taken(picks, i, j)
    ensures Pick(s, t, w, i, used) == picks[i]
  {
    hide Taken;
    FirstOk(s, t, i, Low(w, i), High(w, i, |t|), used);
    var pick := Pick(s, t, w, i, used);
    if pick.Some? { assert Free(s, t, w, i, pick.value); }
    if picks[i].Some? { assert Free(s, t, w, i, picks[i].value); }
  }

  /** Positions in order, exactly those marked. */
  ghost predicate Marked(marks: seq<bool>, at: seq<nat>) {
    && (forall k :: 0 <= k < |at| ==> at[k] < |marks| && marks[at[k]])
    && (forall j, k :: 0 <= j < k < |at| ==> at[j] < at[k])
    && (forall i :: 0 <= i < |marks| && marks[i] ==> i in at)
  }

  lemma {:induction false} IndicesAre(marks: seq<bool>, at: seq<nat>)
    requires Marked(marks, at)
    ensures Indices(marks) == at
    decreases |marks|
  {
    SomeMarked(marks, at);
    if marks != [] {
      var n := |marks| - 1;
      MarkedBefore(marks, at);
      hide Marked;
      if marks[n] {
        IndicesAre(marks[..n], at[..|at| - 1]);
        assert at == at[..|at| - 1] + [n];
      } else {
        IndicesAre(marks[..n], at);
      }
    }
  }

  lemma SomeMarked(marks: seq<bool>, at: seq<nat>)
    requires Marked(marks, at)
    ensures at != [] ==> marks != []
  {
    if at != [] { assert at[0] < |marks|; }
  }

  /** The last position is marked when the last of those in order is it. */
  lemma MarkedLast(marks: seq<bool>, at: seq<nat>)
    requires Marked(marks, at) && marks != [] && marks[|marks| - 1]
    ensures at != [] && at == at[..|at| - 1] + [|marks| - 1]
  {
    var n := |marks| - 1;
    assert n in at;
    var last :| 0 <= last < |at| && at[last] == n;
    assert at[last] <= at[|at| - 1] < |marks|;
  }

  lemma MarkedBefore(marks: seq<bool>, at: seq<nat>)
    requires Marked(marks, at) && marks != []
    ensures var n := |marks| - 1;
      if marks[n] then at != [] && at == at[..|at| - 1] + [n] && Marked(marks[..n], at[..|at| - 1]) else Marked(marks[..n], at)
  {
    var n := |marks| - 1;
    if marks[n] {
      MarkedLast(marks, at);
      AllBut(marks, at[..|at| - 1], at);
    } else {
      AllBut(marks, at, at);
    }
  }

  lemma AllBut(marks: seq<bool>, before: seq<nat>, at: seq<nat>)
    requires Marked(marks, at) && marks != [] && at == before + if marks[|marks| - 1] then [|marks| - 1] else []
    ensures Marked(marks[..|marks| - 1], before)
  {
    var fewer := marks[..|marks| - 1];
    assert marks[|fewer|] ==> at[|before|] == |fewer|;
    forall k | 0 <= k < |before| ensures before[k] < |fewer| && fewer[before[k]] {
      assert at[k] == before[k] && marks[at[k]];
    }
    assert forall k :: 0 <= k < |before| ==> at[k] == before[k];
    forall i | 0 <= i < |fewer| && fewer[i] ensures i in before { assert marks[i] && i in at; }
  }

  /** The pairs in order whose characters differ. */
  ghost function Swapped(s: string, t: string, at: seq<nat>, to: seq<nat>): set<nat>
    requires |at| == |to| && forall k :: 0 <= k < |at| ==> at[k] < |s| && to[k] < |t|
  {
    set k: nat | k < |at| && s[at[k]] != t[to[k]]
  }

  lemma SwappedMore(s: string, t: string, at: seq<nat>, to: seq<nat>)
    requires |at| == |to| > 0 && forall k :: 0 <= k < |at| ==> at[k] < |s| && to[k] < |t|
    ensures var n: nat := |at| - 1;
      && n !in Swapped(s, t, at[..n], to[..n])
      && Swapped(s, t, at, to) == Swapped(s, t, at[..n], to[..n]) + if s[at[n]] != t[to[n]] then {n} else {}
  {
  }

  lemma {:induction false} DifferingCounts(s: string, t: string, at: seq<nat>, to: seq<nat>)
    requires |at| == |to| && forall k :: 0 <= k < |at| ==> at[k] < |s| && to[k] < |t|
    ensures Differing(s, t, at, to) == |Swapped(s, t, at, to)|
  {
    if at != [] {
      var n := |at| - 1;
      DifferingCounts(s, t, at[..n], to[..n]);
      SwappedMore(s, t, at, to);
      hide Swapped;
    }
  }

  /** The longest common beginning, of at most four characters. */
  predicate Begins(s: string, t: string, p: nat) {
    p <= 4 && p <= |s| && p <= |t| && s[..p] == t[..p] && (p == 4 || p == |s| || p == |t| || s[p] != t[p])
  }

  lemma {:induction false} PrefixIs(s: string, t: string, p: nat, i: nat)
    requires Begins(s, t, p) && i <= p
    ensures PrefixFrom(s, t, i) == p
    decreases p - i
  {
    if i < p {
      assert s[..p][i] == t[..p][i];
      PrefixIs(s, t, p, i + 1);
    }
  }

  /** What a scan finds: the characters of s that take one, the positions of t taken, and how many of them, read in order, differ. */
  ghost predicate Found(s: string, t: string, picks: seq<Option<int>>, at: seq<nat>, to: seq<nat>, differ: nat)
    requires |picks| == |s|
  {
    && Marked(seq(|s|, i requires 0 <= i < |s| => picks[i].Some?), at)
    && (forall k :: 0 <= k < |to| ==> to[k] < |t| && Taken(picks, |s|, to[k]))
    && (forall j, k :: 0 <= j < k < |to| ==> to[j] < to[k])
    && (forall i :: 0 <= i < |s| && picks[i].Some? ==> picks[i].value in to)
    && |at| == |to| && differ == |Swapped(s, t, at, to)|
  }

  lemma FoundCounts(s: string, t: string, w: nat, picks: seq<Option<int>>, at: seq<nat>, to: seq<nat>, differ: nat)
    requires w == Window(s, t) && Scan(s, t, w, picks) && Found(s, t, picks, at, to, differ)
    ensures Matches(s, t) == |at| && Transpositions(s, t) == differ
  {
    ScanUsed(s, t, w, picks, |s|);
    var sm, tm := SourceMarks(s, t, w), TargetMarks(s, t, w);
    SameCounts(s, t);
    SourceFound(s, t, w, picks, at);
    TargetFound(s, t, w, picks, to);
    IndicesAre(sm, at);
    IndicesAre(tm, to);
    DifferingCounts(s, t, at, to);
  }

  lemma SourceFound(s: string, t: string, w: nat, picks: seq<Option<int>>, at: seq<nat>)
    requires |picks| == |s| && Marked(seq(|s|, i requires 0 <= i < |s| => picks[i].Some?), at)
    requires forall k :: 0 <= k < |s| ==> Pick(s, t, w, k, Used(s, t, w, k)) == picks[k]
    ensures Marked(SourceMarks(s, t, w), at)
  {
    hide Marked, Used, Pick;
    assert SourceMarks(s, t, w) == seq(|s|, i requires 0 <= i < |s| => picks[i].Some?);
  }

  lemma TargetFound(s: string, t: string, w: nat, picks: seq<Option<int>>, to: seq<nat>)
    requires |picks| == |s| && forall j :: j in Used(s, t, w, |s|) <==> Taken(picks, |s|, j)
    requires forall k :: 0 <= k < |to| ==> to[k] < |t| && Taken(picks, |s|, to[k])
    requires forall j, k :: 0 <= j < k < |to| ==> to[j] < to[k]
    requires forall i :: 0 <= i < |s| && picks[i].Some? ==> picks[i].value in to
    ensures Marked(TargetMarks(s, t, w), to)
  {
    hide Used;
    var tm := TargetMarks(s, t, w);
    forall j | 0 <= j < |tm| && tm[j] ensures j in to {
      var i :| 0 <= i < |s| && picks[i] == Some(j);
    }
  }

  /**
   * The score of two strings, from any account of what the scan finds within
   * half the longer length: a third each for the share of s matched, the share
   * of t matched, and the share of matches in order, where two that differ
   * count as one; and a tenth of what is missing for each character in front
   * that agrees, up to four.
   */
  lemma ScoreOfScan(s: string, t: string, w: nat, picks: seq<Option<int>>, at: seq<nat>, to: seq<nat>, differ: nat, p: nat)
    requires s != "" && t != "" && w == Max(0, Max(|s|, |t|) / 2 - 1)
    requires Scan(s, t, w, picks) && Found(s, t, picks, at, to, differ) && Begins(s, t, p)
    ensures at == [] ==> Score(s, t) == 0.0
    ensures at != [] ==> Score(s, t) == Lifted(Mean(|at| as real, |s| as real, |t| as real, differ as real), p as real)
  {
    FoundCounts(s, t, w, picks, at, to, differ);
    PrefixIs(s, t, p, 0);
    hide Scan, Found, Matches, Transpositions, Begins, PrefixFrom;
    if at != [] { Combined(|at|, |s|, |t|, differ, p); }
    hide Lifted, Mean, Combine;
  }

  function Mean(m: real, ls: real, lt: real, differ: real): real
    requires m > 0.0 && ls > 0.0 && lt > 0.0
  {
    (m / ls + m / lt + (2.0 * m - differ) / (2.0 * m)) / 3.0
  }

  function Lifted(mean: real, p: real): real { mean + (1.0 - mean) * p / 10.0 }

  lemma Combined(m: nat, ls: nat, lt: nat, differ: nat, p: nat)
    requires m > 0 && ls > 0 && lt > 0
    ensures Combine(m, ls, lt, differ, p) == Lifted(Mean(m as real, ls as real, lt as real, differ as real), p as real)
  {
    Halves(m as real, differ as real);
    Tenths(Mean(m as real, ls as real, lt as real, differ as real), p as real);
  }

  lemma Tenths(mean: real, p: real)
    ensures p * 0.1 * (1.0 - mean) == (1.0 - mean) * p / 10.0
  {
  }

  lemma Halves(m: real, d: real)
    requires m > 0.0
    ensures (m - d / 2.0) / m == (2.0 * m - d) / (2.0 * m)
  {
  }

  // ----- Well-known pairs ----------------------------------------------------

  /** The values the package's tests promise, exactly. */
  lemma KnownValues()
    ensures Score("martha", "marhta") == 173.0 / 180.0
    ensures Score("dwayne", "duane") == 0.84
    ensures Score("dixon", "dicksonx") == 61.0 / 75.0
  {
    Martha();
    Dwayne();
    Dixon();
    hide Score;
  }

  const MARTHA: seq<Option<int>> := [Some(0), Some(1), Some(2), Some(4), Some(3), Some(5)]
  const DWAYNE: seq<Option<int>> := [Some(0), None, Some(2), None, Some(3), Some(4)]
  const DIXON: seq<Option<int>> := [Some(0), Some(1), None, Some(5), Some(6)]

  lemma Martha()
    ensures Score("martha", "marhta") == 173.0 / 180.0
  {
    var all: seq<nat> := [0, 1, 2, 3, 4, 5];
    MarthaFound();
    MarthaScan();
    assert Lifted(Mean(6.0, 6.0, 6.0, 2.0), 3.0) == 173.0 / 180.0;
    assert Begins("martha", "marhta", 3);
    hide Scan, Found, Score, Mean, Lifted, Begins;
    ScoreOfScan("martha", "marhta", 2, MARTHA, all, all, 2, 3);
  }

  lemma MarthaScan()
    ensures Scan("martha", "marhta", 2, MARTHA)
  {
  }

  lemma MarthaFound()
    ensures Found("martha", "marhta", MARTHA, [0, 1, 2, 3, 4, 5], [0, 1, 2, 3, 4, 5], 2)
  {
    var all: seq<nat> := [0, 1, 2, 3, 4, 5];
    assert Swapped("martha", "marhta", all, all) == {3, 4};
    assert MARTHA[3] == Some(4) && MARTHA[4] == Some(3);
  }

  lemma Dwayne()
    ensures Score("dwayne", "duane") == 0.84
  {
    DwayneFound();
    DwayneScan();
    assert Lifted(Mean(4.0, 6.0, 5.0, 0.0), 1.0) == 0.84;
    assert Begins("dwayne", "duane", 1);
    hide Scan, Found, Score, Mean, Lifted, Begins;
    ScoreOfScan("dwayne", "duane", 2, DWAYNE, [0, 2, 4, 5], [0, 2, 3, 4], 0, 1);
  }

  lemma DwayneScan()
    ensures Scan("dwayne", "duane", 2, DWAYNE)
  {
  }

  lemma DwayneFound()
    ensures Found("dwayne", "duane", DWAYNE, [0, 2, 4, 5], [0, 2, 3, 4], 0)
  {
    assert Swapped("dwayne", "duane", [0, 2, 4, 5], [0, 2, 3, 4]) == {};
    assert DWAYNE[0] == Some(0) && DWAYNE[2] == Some(2) && DWAYNE[4] == Some(3) && DWAYNE[5] == Some(4);
  }

  lemma Dixon()
    ensures Score("dixon", "dicksonx") == 61.0 / 75.0
  {
    DixonFound();
    DixonScan();
    assert Lifted(Mean(4.0, 5.0, 8.0, 0.0), 2.0) == 61.0 / 75.0;
    assert Begins("dixon", "dicksonx", 2);
    hide Scan, Found, Score, Mean, Lifted, Begins;
    ScoreOfScan("dixon", "dicksonx", 3, DIXON, [0, 1, 3, 4], [0, 1, 5, 6], 0, 2);
  }

  lemma DixonScan()
    ensures Scan("dixon", "dicksonx", 3, DIXON)
  {
  }

  lemma DixonFound()
    ensures Found("dixon", "dicksonx", DIXON, [0, 1, 3, 4], [0, 1, 5, 6], 0)
  {
    assert Swapped("dixon", "dicksonx", [0, 1, 3, 4], [0, 1, 5, 6]) == {};
    assert DIXON[0] == Some(0) && DIXON[1] == Some(1) && DIXON[3] == Some(5) && DIXON[4] == Some(6);
  }
}
