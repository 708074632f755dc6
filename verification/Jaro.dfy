/**
 * The Jaro-Winkler similarity that identity matching compares names with.
 * Scores are exact reals: rounding is not modelled.
 */
module Jaro {
  import opened Prelude

  // ----- Greedy matching within a window --------------------------------------

  /** How far apart two matching characters may be. */
  function Window(s: string, t: string): nat {
    Max(0, Max(|s|, |t|) / 2 - 1)
  }

  function Low(w: nat, i: int): int { Max(0, i - w) }

  function High(w: nat, i: int, n: int): int { Min(n, i + w + 1) }

  /** The first free position of t from j on that has the character s[i]. */
  function First(s: string, t: string, i: nat, j: nat, hi: int, used: set<int>): Option<int>
    requires i < |s| && hi <= |t|
    decreases hi - j
  {
    if j >= hi then None
    else if j !in used && s[i] == t[j] then Some(j)
    else First(s, t, i, j + 1, hi, used)
  }

  function Pick(s: string, t: string, w: nat, i: nat, used: set<int>): Option<int>
    requires i < |s|
  {
    First(s, t, i, Low(w, i), High(w, i, |t|), used)
  }

  function Take(used: set<int>, pick: Option<int>): set<int> {
    if pick.Some? then used + {pick.value} else used
  }

  /** The positions of t taken by the first i characters of s. */
  function Used(s: string, t: string, w: nat, i: nat): set<int>
    requires i <= |s|
  {
    if i == 0 then {} else Take(Used(s, t, w, i - 1), Pick(s, t, w, i - 1, Used(s, t, w, i - 1)))
  }

  predicate Matched(s: string, t: string, w: nat, i: nat)
    requires i < |s|
  {
    Pick(s, t, w, i, Used(s, t, w, i)).Some?
  }

  function SourceMarks(s: string, t: string, w: nat): (marks: seq<bool>)
    ensures |marks| == |s|
  {
    seq(|s|, i requires 0 <= i < |s| => Matched(s, t, w, i))
  }

  function TargetMarks(s: string, t: string, w: nat): (marks: seq<bool>)
    ensures |marks| == |t|
  {
    seq(|t|, j requires 0 <= j < |t| => j in Used(s, t, w, |s|))
  }

  /** The marked positions, in order. */
  function Indices(marks: seq<bool>): seq<nat> {
    if marks == [] then []
    else
      var n := |marks| - 1;
      Indices(marks[..n]) + if marks[n] then [n] else []
  }

  // ----- The score -----------------------------------------------------------

  /** How many characters match. */
  function Matches(s: string, t: string): nat { |Used(s, t, Window(s, t), |s|)| }

  /** Of the matched characters, read in order on both sides, how many differ. */
  function Differing(s: string, t: string, a: seq<nat>, b: seq<nat>): nat
    requires |a| == |b| && (forall k :: 0 <= k < |a| ==> a[k] < |s| && b[k] < |t|)
  {
    if a == [] then 0
    else
      var n := |a| - 1;
      Differing(s, t, a[..n], b[..n]) + if s[a[n]] != t[b[n]] then 1 else 0
  }

  function PrefixFrom(s: string, t: string, i: nat): nat
    requires i <= 4
    decreases 4 - i
  {
    if i < 4 && i < |s| && i < |t| && s[i] == t[i] then PrefixFrom(s, t, i + 1) else i
  }

  function Combine(m: nat, ls: nat, lt: nat, transpositions: nat, prefix: nat): real
    requires m > 0 && ls > 0 && lt > 0
  {
    var jaro := (m as real / ls as real + m as real / lt as real + (m as real - transpositions as real / 2.0) / m as real) / 3.0;
    jaro + prefix as real * 0.1 * (1.0 - jaro)
  }

  // ----- Marks and counts ----------------------------------------------------

  lemma {:induction false} IndicesOk(marks: seq<bool>)
    ensures |Indices(marks)| <= |marks|
    ensures forall k :: 0 <= k < |Indices(marks)| ==> Indices(marks)[k] < |marks|
    ensures |Indices(marks)| == |marks| ==> forall k :: 0 <= k < |marks| ==> marks[k] && Indices(marks)[k] == k
  {
    if marks != [] {
      var n := |marks| - 1;
      IndicesOk(marks[..n]);
      assert forall k :: 0 <= k < n ==> marks[..n][k] == marks[k];
    }
  }

  lemma {:induction false} IndicesPrefix(marks: seq<bool>, n: nat)
    requires n <= |marks|
    ensures Indices(marks[..n]) <= Indices(marks)
    decreases |marks|
  {
    if n == |marks| {
      assert marks[..n] == marks;
    } else {
      var last := |marks| - 1;
      IndicesPrefix(marks[..last], n);
      assert marks[..last][..n] == marks[..n];
    }
  }

  /** As many marks as elements of the set they stand for. */
  lemma {:induction false} CountMarks(marks: seq<bool>, chosen: set<int>)
    requires (forall j :: j in chosen ==> 0 <= j < |marks| && marks[j]) && (forall j :: 0 <= j < |marks| && marks[j] ==> j in chosen)
    ensures |Indices(marks)| == |chosen|
  {
    if marks == [] {
      assert forall j :: j !in chosen;
    } else {
      var n := |marks| - 1;
      var fewer := chosen - {n};
      assert forall j :: 0 <= j < n ==> marks[..n][j] == marks[j];
      CountMarks(marks[..n], fewer);
      if marks[n] { assert chosen == fewer + {n}; } else { assert chosen == fewer; }
    }
  }

  lemma {:induction false} FirstOk(s: string, t: string, i: nat, j: nat, hi: int, used: set<int>)
    requires i < |s| && hi <= |t|
    ensures var r := First(s, t, i, j, hi, used);
      && (r.Some? ==> j <= r.value < hi && r.value !in used && s[i] == t[r.value])
      && (forall k :: j <= k < hi && k !in used && s[i] == t[k] ==> r.Some? && r.value <= k)
    decreases hi - j
  {
    if j < hi { FirstOk(s, t, i, j + 1, hi, used); }
  }

  lemma {:induction false} UsedOk(s: string, t: string, w: nat, i: nat)
    requires i <= |s|
    ensures forall j :: j in Used(s, t, w, i) ==> 0 <= j < |t|
    ensures |Used(s, t, w, i)| == |Indices(SourceMarks(s, t, w)[..i])|
  {
    var marks := SourceMarks(s, t, w);
    if i > 0 {
      UsedOk(s, t, w, i - 1);
      var used := Used(s, t, w, i - 1);
      FirstOk(s, t, i - 1, Low(w, i - 1), High(w, i - 1, |t|), used);
      assert marks[..i][..i - 1] == marks[..i - 1] && marks[..i][i - 1] == Matched(s, t, w, i - 1);
    }
  }

  /** Matching marks equally many positions on both sides. */
  lemma SameCounts(s: string, t: string)
    ensures var w := Window(s, t);
      |Indices(SourceMarks(s, t, w))| == Matches(s, t) && |Indices(TargetMarks(s, t, w))| == Matches(s, t)
  {
    var w := Window(s, t);
    UsedOk(s, t, w, |s|);
    assert SourceMarks(s, t, w)[..|s|] == SourceMarks(s, t, w);
    CountMarks(TargetMarks(s, t, w), Used(s, t, w, |s|));
  }

  function Transpositions(s: string, t: string): nat {
    var w := Window(s, t);
    SameCounts(s, t);
    var a, b := Indices(SourceMarks(s, t, w)), Indices(TargetMarks(s, t, w));
    IndicesOk(SourceMarks(s, t, w));
    IndicesOk(TargetMarks(s, t, w));
    Differing(s, t, a, b)
  }

  function Score(s: string, t: string): real {
    if s == "" && t == "" then 1.0
    else if s == "" || t == "" || Matches(s, t) == 0 then 0.0
    else Combine(Matches(s, t), |s|, |t|, Transpositions(s, t), PrefixFrom(s, t, 0))
  }

  // ----- The code ------------------------------------------------------------

  method JaroWinkler(s: string, t: string) returns (r: real)
    ensures r == Score(s, t)
  {
    hide Indices, Differing, Combine, Used, SourceMarks, TargetMarks;
    if |s| == 0 && |t| == 0 { return 1.0; }
    if |s| == 0 || |t| == 0 { return 0.0; }
    var window := Max(|s|, |t|) / 2 - 1;
    if window < 0 { window := 0; }
    var sm, tm := new bool[|s|](_ => false), new bool[|t|](_ => false);
    var matches := MarkMatches(s, t, window, sm, tm);
    if matches == 0 { return 0.0; }
    SameCounts(s, t);
    IndicesOk(sm[..]);
    IndicesOk(tm[..]);
    var transpositions := CountDiffering(s, t, sm, tm);
    var prefix := 0;
    while prefix < Min(4, Min(|s|, |t|)) && s[prefix] == t[prefix]
      invariant prefix <= 4 && PrefixFrom(s, t, 0) == PrefixFrom(s, t, prefix)
    {
      prefix := prefix + 1;
    }
    return Combine(matches, |s|, |t|, transpositions, prefix);
  }

  /** Marks, for each character of s in turn, the first free equal character of t within the window. */
  method MarkMatches(s: string, t: string, window: nat, sm: array<bool>, tm: array<bool>) returns (matches: nat)
    requires sm != tm && sm.Length == |s| && tm.Length == |t|
    requires (forall i :: 0 <= i < |s| ==> !sm[i]) && (forall j :: 0 <= j < |t| ==> !tm[j])
    modifies sm, tm
    ensures sm[..] == SourceMarks(s, t, window) && tm[..] == TargetMarks(s, t, window)
    ensures matches == |Used(s, t, window, |s|)|
  {
    matches := 0;
    for i := 0 to |s|
      invariant forall k :: 0 <= k < i ==> sm[k] == Matched(s, t, window, k)
      invariant forall k :: i <= k < |s| ==> !sm[k]
      invariant forall j :: 0 <= j < |t| ==> (tm[j] <==> j in Used(s, t, window, i))
      invariant matches == |Used(s, t, window, i)|
    {
      var lo, hi := Max(0, i - window), Min(|t|, i + window + 1);
      ghost var used := Used(s, t, window, i);
      FirstOk(s, t, i, lo, hi, used);
      var j := lo;
      while j < hi
        invariant lo <= j
        invariant First(s, t, i, j, hi, used) == Pick(s, t, window, i, used)
        invariant forall k :: 0 <= k < i ==> sm[k] == Matched(s, t, window, k)
        invariant forall k :: i <= k < |s| ==> !sm[k]
        invariant forall k :: 0 <= k < |t| ==> (tm[k] <==> k in used)
        invariant matches == |used|
      {
        if !tm[j] && s[i] == t[j] {
          sm[i], tm[j] := true, true;
          matches := matches + 1;
          break;
        }
        j := j + 1;
      }
    }
  }

  /** Reads the marked characters of both sides in order and counts the differing ones. */
  method CountDiffering(s: string, t: string, sm: array<bool>, tm: array<bool>) returns (transpositions: nat)
    requires sm.Length == |s| && tm.Length == |t| && |Indices(sm[..])| == |Indices(tm[..])|
    requires forall k :: 0 <= k < |Indices(sm[..])| ==> Indices(sm[..])[k] < |s| && Indices(tm[..])[k] < |t|
    ensures transpositions == Differing(s, t, Indices(sm[..]), Indices(tm[..]))
  {
    hide Indices, Differing;
    ghost var a, b := Indices(sm[..]), Indices(tm[..]);
    ghost var c := 0;
    transpositions := 0;
    var k := 0;
    NoneYet(s, t, sm[..], tm[..]);
    for i := 0 to |s|
      invariant k <= |t| && c <= |a|
      invariant Indices(sm[..i]) == a[..c] && Indices(tm[..k]) == b[..c]
      invariant transpositions == Differing(s, t, a[..c], b[..c])
    {
      NextMark(sm[..], i);
      if sm[i] {
        IndicesPrefix(sm[..], i + 1);
        assert a[c] == i && a[..c + 1] == a[..c] + [i];
        MoreMarks(tm[..], k, c);
        while !tm[k]
          invariant k < |t| && Indices(tm[..k]) == b[..c]
          decreases |t| - k
        {
          NextMark(tm[..], k);
          k := k + 1;
          MoreMarks(tm[..], k, c);
        }
        NextMark(tm[..], k);
        IndicesPrefix(tm[..], k + 1);
        assert b[c] == k && b[..c + 1] == b[..c] + [k];
        NextDiffering(s, t, a, b, c);
        if s[i] != t[k] { transpositions := transpositions + 1; }
        k := k + 1;
        c := c + 1;
      }
    }
    assert sm[..|s|] == sm[..] && a[..|a|] == a && b[..|b|] == b;
  }

  lemma NoneYet(s: string, t: string, sm: seq<bool>, tm: seq<bool>)
    ensures Indices(sm[..0]) == [] && Indices(tm[..0]) == [] && Differing(s, t, [], []) == 0
  {
  }

  /** While fewer marks were read than there are, another one lies ahead: the scan cannot run past the end. */
  lemma MoreMarks(marks: seq<bool>, k: nat, c: nat)
    requires k <= |marks| && c < |Indices(marks)| && Indices(marks[..k]) == Indices(marks)[..c]
    ensures k < |marks|
  {
    assert marks[..|marks|] == marks;
  }

  lemma NextDiffering(s: string, t: string, a: seq<nat>, b: seq<nat>, c: nat)
    requires c < |a| == |b| && (forall k :: 0 <= k < |a| ==> a[k] < |s| && b[k] < |t|)
    ensures Differing(s, t, a[..c + 1], b[..c + 1]) == Differing(s, t, a[..c], b[..c]) + if s[a[c]] != t[b[c]] then 1 else 0
  {
    assert a[..c + 1][..c] == a[..c] && b[..c + 1][..c] == b[..c];
  }

  lemma NextMark(marks: seq<bool>, n: nat)
    requires n < |marks|
    ensures Indices(marks[..n + 1]) == Indices(marks[..n]) + if marks[n] then [n] else []
  {
    assert marks[..n + 1][..n] == marks[..n];
  }

  // ----- Greedy is a maximum matching -----------------------------------------

  /** Pairs of equal characters within the window, each character used once; from position i on, avoiding `used`. */
  ghost predicate IsMatching(s: string, t: string, w: nat, i: nat, used: set<int>, m: set<(int, int)>) {
    && (forall p :: p in m ==> IsPair(s, t, w, i, used, p))
    && (forall p, q :: p in m && q in m && (p.0 == q.0 || p.1 == q.1) ==> p == q)
  }

  ghost predicate IsPair(s: string, t: string, w: nat, i: nat, used: set<int>, p: (int, int)) {
    i <= p.0 < |s| && 0 <= p.1 < |t| && p.1 !in used && p.0 - w <= p.1 <= p.0 + w && s[p.0] == t[p.1]
  }

  /** How many characters the greedy scan matches from position i on. */
  function Greedy(s: string, t: string, w: nat, i: nat, used: set<int>): nat
    requires i <= |s|
    decreases |s| - i
  {
    if i == |s| then 0
    else
      var pick := Pick(s, t, w, i, used);
      (if pick.Some? then 1 else 0) + Greedy(s, t, w, i + 1, Take(used, pick))
  }

  /** What is left of a matching without the pairs at i and at j. */
  lemma Without(s: string, t: string, w: nat, i: nat, used: set<int>, j: int, m: set<(int, int)>, rest: set<(int, int)>)
    requires IsMatching(s, t, w, i, used, m) && rest <= m && forall p :: p in rest ==> p.0 != i && p.1 != j
    ensures IsMatching(s, t, w, i + 1, used + {j}, rest)
  {
  }

  /** The partners of i and of j may be paired with each other: equal characters, and the window still reaches. */
  lemma Rejoin(s: string, t: string, w: nat, i: nat, used: set<int>, j: int, m: set<(int, int)>, p: (int, int), q: (int, int))
    requires IsMatching(s, t, w, i, used, m) && p in m && q in m && p.0 == i && q.1 == j && p.1 > j && q.0 > i
    requires s[i] == t[j]
    ensures IsMatching(s, t, w, i + 1, used + {j}, m - {p, q} + {(q.0, p.1)})
    ensures |m - {p, q} + {(q.0, p.1)}| == |m| - 1
  {
    var rest, joined := m - {p, q}, (q.0, p.1);
    assert IsPair(s, t, w, i, used, p) && IsPair(s, t, w, i, used, q);
    assert IsPair(s, t, w, i + 1, used + {j}, joined);
    hide IsPair;
    Without(s, t, w, i, used, j, m, rest);
    forall r | r in rest ensures r.0 != joined.0 && r.1 != joined.1 {
    }
    assert m == rest + {p} + {q};
  }

  /** Trades what the greedy choice takes for one pair of another matching. */
  lemma Exchange(s: string, t: string, w: nat, i: nat, used: set<int>, m: set<(int, int)>) returns (rest: set<(int, int)>)
    requires i < |s| && IsMatching(s, t, w, i, used, m)
    ensures var pick := Pick(s, t, w, i, used);
      && IsMatching(s, t, w, i + 1, Take(used, pick), rest)
      && |rest| + (if pick.Some? then 1 else 0) >= |m|
  {
    var pick := Pick(s, t, w, i, used);
    FirstOk(s, t, i, Low(w, i), High(w, i, |t|), used);
    if pick.None? {
      return m;
    }
    hide First;
    var j := pick.value;
    assert forall p :: p in m ==> IsPair(s, t, w, i, used, p);
    if p :| p in m && p.0 == i {
      if q :| q in m && q.1 == j && q != p {
        assert IsPair(s, t, w, i, used, p) && IsPair(s, t, w, i, used, q);
        Rejoin(s, t, w, i, used, j, m, p, q);
        rest := m - {p, q} + {(q.0, p.1)};
      } else {
        rest := m - {p};
        Drop(s, t, w, i, used, j, m, p);
      }
    } else if q :| q in m && q.1 == j {
      rest := m - {q};
      Drop(s, t, w, i, used, j, m, q);
    } else {
      rest := m;
      Without(s, t, w, i, used, j, m, rest);
    }
  }

  lemma Drop(s: string, t: string, w: nat, i: nat, used: set<int>, j: int, m: set<(int, int)>, p: (int, int))
    requires IsMatching(s, t, w, i, used, m) && p in m && forall q :: q in m && q != p ==> q.0 != i && q.1 != j
    ensures IsMatching(s, t, w, i + 1, used + {j}, m - {p}) && |m - {p}| == |m| - 1
  {
    Without(s, t, w, i, used, j, m, m - {p});
    assert m == m - {p} + {p};
  }

  lemma {:induction false} GreedyIsMaximum(s: string, t: string, w: nat, i: nat, used: set<int>, m: set<(int, int)>)
    requires i <= |s| && IsMatching(s, t, w, i, used, m)
    ensures |m| <= Greedy(s, t, w, i, used)
    decreases |s| - i
  {
    if i == |s| {
      assert forall p :: p !in m;
    } else {
      var rest := Exchange(s, t, w, i, used, m);
      GreedyIsMaximum(s, t, w, i + 1, Take(used, Pick(s, t, w, i, used)), rest);
    }
  }

  /** The greedy scan is itself a matching. */
  lemma {:induction false} GreedyMatching(s: string, t: string, w: nat, i: nat, used: set<int>) returns (m: set<(int, int)>)
    requires i <= |s|
    ensures IsMatching(s, t, w, i, used, m) && |m| == Greedy(s, t, w, i, used)
    decreases |s| - i
  {
    if i == |s| { return {}; }
    var pick := Pick(s, t, w, i, used);
    FirstOk(s, t, i, Low(w, i), High(w, i, |t|), used);
    m := GreedyMatching(s, t, w, i + 1, Take(used, pick));
    if pick.Some? {
      assert (i, pick.value) !in m;
      m := m + {(i, pick.value)};
    }
  }

  lemma {:induction false} GreedyIsUsed(s: string, t: string, w: nat, i: nat)
    requires i <= |s|
    ensures |Used(s, t, w, i)| + Greedy(s, t, w, i, Used(s, t, w, i)) == |Used(s, t, w, |s|)|
    decreases |s| - i
  {
    if i < |s| {
      var used := Used(s, t, w, i);
      FirstOk(s, t, i, Low(w, i), High(w, i, |t|), used);
      GreedyIsUsed(s, t, w, i + 1);
    }
  }

  function Flip(m: set<(int, int)>): set<(int, int)> { set p | p in m :: (p.1, p.0) }

  lemma {:induction false} FlipSize(m: set<(int, int)>)
    ensures |Flip(m)| == |m|
  {
    if m != {} {
      var p :| p in m;
      FlipSize(m - {p});
      assert m == (m - {p}) + {p};
      assert Flip(m) == Flip(m - {p}) + {(p.1, p.0)};
      assert (p.1, p.0) !in Flip(m - {p});
    }
  }

  lemma GreedyAtLeast(s: string, t: string, w: nat)
    ensures Greedy(s, t, w, 0, {}) >= Greedy(t, s, w, 0, {})
  {
    var m := GreedyMatching(t, s, w, 0, {});
    FlipSize(m);
    assert IsMatching(s, t, w, 0, {}, Flip(m));
    GreedyIsMaximum(s, t, w, 0, {}, Flip(m));
  }

  /** No matching within the window is larger than the one the scan finds. */
  lemma MatchesIsMaximum(s: string, t: string, m: set<(int, int)>)
    requires IsMatching(s, t, Window(s, t), 0, {}, m)
    ensures |m| <= Matches(s, t)
  {
    GreedyIsMaximum(s, t, Window(s, t), 0, {}, m);
    GreedyIsUsed(s, t, Window(s, t), 0);
  }

  /** So the number of matches does not depend on which string comes first. */
  lemma MatchesSymmetric(s: string, t: string)
    ensures Matches(s, t) == Matches(t, s)
  {
    var w := Window(s, t);
    GreedyAtLeast(s, t, w);
    GreedyAtLeast(t, s, w);
    GreedyIsUsed(s, t, w, 0);
    GreedyIsUsed(t, s, w, 0);
  }

  // ----- What the score promises ---------------------------------------------

  lemma MatchesBound(s: string, t: string)
    ensures Matches(s, t) <= |s| && Matches(s, t) <= |t| && Transpositions(s, t) <= Matches(s, t)
  {
    var w := Window(s, t);
    SameCounts(s, t);
    var a, b := Indices(SourceMarks(s, t, w)), Indices(TargetMarks(s, t, w));
    IndicesOk(SourceMarks(s, t, w));
    IndicesOk(TargetMarks(s, t, w));
    DifferingBound(s, t, a, b);
  }

  lemma {:induction false} DifferingBound(s: string, t: string, a: seq<nat>, b: seq<nat>)
    requires |a| == |b| && (forall k :: 0 <= k < |a| ==> a[k] < |s| && b[k] < |t|)
    ensures Differing(s, t, a, b) <= |a|
    ensures Differing(s, t, a, b) == 0 <==> forall k :: 0 <= k < |a| ==> s[a[k]] == t[b[k]]
  {
    if a != [] {
      var n := |a| - 1;
      DifferingBound(s, t, a[..n], b[..n]);
      assert forall k :: 0 <= k < n ==> a[..n][k] == a[k] && b[..n][k] == b[k];
    }
  }

  lemma Share(m: nat, n: nat)
    requires m <= n && n > 0
    ensures 0.0 <= m as real / n as real <= 1.0 && (m as real / n as real == 1.0 <==> m == n)
  {
    if m < n { assert m as real / n as real < 1.0; }
  }

  /** The combined score lies in [0, 1], and is 1 only when everything matches in order. */
  lemma CombineBounds(m: nat, ls: nat, lt: nat, transpositions: nat, prefix: nat)
    requires 0 < m <= ls && m <= lt && transpositions <= m && prefix <= 4
    ensures 0.0 <= Combine(m, ls, lt, transpositions, prefix) <= 1.0
    ensures Combine(m, ls, lt, transpositions, prefix) == 1.0 <==> m == ls && m == lt && transpositions == 0
  {
    Share(m, ls);
    Share(m, lt);
    var x, y := m as real / ls as real, m as real / lt as real;
    var z := (m as real - transpositions as real / 2.0) / m as real;
    OrderShare(m, transpositions);
    var jaro := (x + y + z) / 3.0;
    var p := prefix as real * 0.1;
    assert 0.0 <= jaro <= 1.0 && (jaro == 1.0 <==> x == 1.0 && y == 1.0 && z == 1.0);
    Boost(jaro, p);
  }

  lemma OrderShare(m: nat, transpositions: nat)
    requires 0 < m && transpositions <= m
    ensures var z := (m as real - transpositions as real / 2.0) / m as real; 0.0 <= z <= 1.0 && (z == 1.0 <==> transpositions == 0)
  {
    var z := (m as real - transpositions as real / 2.0) / m as real;
    assert z * m as real == m as real - transpositions as real / 2.0;
  }

  lemma Boost(jaro: real, p: real)
    requires 0.0 <= jaro <= 1.0 && 0.0 <= p <= 0.4
    ensures 0.0 <= jaro + p * (1.0 - jaro) <= 1.0 && (jaro + p * (1.0 - jaro) == 1.0 <==> jaro == 1.0)
  {
    var gap := 1.0 - jaro;
    var lift := p * gap;
    Lift(p, gap);
  }

  lemma Lift(p: real, gap: real)
    requires 0.0 <= p <= 0.4 && 0.0 <= gap
    ensures 0.0 <= p * gap <= 0.4 * gap
  {
  }

  lemma {:induction false} PrefixBound(s: string, t: string, i: nat)
    requires i <= 4
    ensures PrefixFrom(s, t, i) <= 4
    decreases 4 - i
  {
    if i < 4 && i < |s| && i < |t| && s[i] == t[i] { PrefixBound(s, t, i + 1); }
  }

  lemma ScoreInRange(s: string, t: string)
    ensures 0.0 <= Score(s, t) <= 1.0
  {
    MatchesBound(s, t);
    PrefixBound(s, t, 0);
    if s != "" && t != "" && Matches(s, t) > 0 {
      CombineBounds(Matches(s, t), |s|, |t|, Transpositions(s, t), PrefixFrom(s, t, 0));
    }
  }

  function Upto(n: nat): (r: set<int>)
    ensures |r| == n && forall j :: j in r <==> 0 <= j < n
  {
    if n == 0 then {} else Upto(n - 1) + {n - 1}
  }

  /** A string matched with itself matches every character with itself. */
  lemma {:induction false} SelfUsed(s: string, w: nat, i: nat)
    requires i <= |s|
    ensures Used(s, s, w, i) == Upto(i)
  {
    if i > 0 {
      SelfUsed(s, w, i - 1);
      FirstOk(s, s, i - 1, Low(w, i - 1), High(w, i - 1, |s|), Used(s, s, w, i - 1));
    }
  }

  /** The score is 1 exactly for equal strings. */
  lemma OneExactlyWhenEqual(s: string, t: string)
    ensures Score(s, t) == 1.0 <==> s == t
  {
    if s != "" && t != "" {
      MatchesBound(s, t);
      PrefixBound(s, t, 0);
      AllMatched(s, t);
      if s == t {
        SelfUsed(s, Window(s, s), |s|);
      }
      if Matches(s, t) > 0 {
        CombineBounds(Matches(s, t), |s|, |t|, Transpositions(s, t), PrefixFrom(s, t, 0));
      }
    }
  }

  /** When every character is matched on both sides, order is all that is left to differ. */
  lemma AllMatched(s: string, t: string)
    requires Matches(s, t) <= |s| && Matches(s, t) <= |t|
    ensures Matches(s, t) == |s| == |t| ==> (Transpositions(s, t) == 0 <==> s == t)
  {
    hide Used, Differing;
    var w := Window(s, t);
    var sm, tm := SourceMarks(s, t, w), TargetMarks(s, t, w);
    SameCounts(s, t);
    IndicesOk(sm);
    IndicesOk(tm);
    hide Indices;
    if Matches(s, t) == |s| == |t| { IdentityDiffering(s, t, Indices(sm), Indices(tm)); }
  }

  lemma IdentityDiffering(s: string, t: string, a: seq<nat>, b: seq<nat>)
    requires |a| == |b| == |s| == |t| && forall k :: 0 <= k < |a| ==> a[k] == k == b[k]
    ensures Differing(s, t, a, b) == 0 <==> s == t
  {
    DifferingBound(s, t, a, b);
    hide Differing;
    if forall k :: 0 <= k < |a| ==> s[a[k]] == t[b[k]] {
      forall k | 0 <= k < |s| ensures s[k] == t[k] {
        assert s[a[k]] == t[b[k]];
      }
    }
  }
}
