/**
 * Suggesting master records for a source record, and deciding whether to link
 * one automatically.  A candidate carries the score and the reasons its
 * comparison gave; scores are exact reals.
 */
module Matching {
  import opened Prelude
  import opened Sorting

  datatype Candidate = Candidate(master: string, score: real, reasons: seq<string>)

  datatype Suggestion = Suggestion(master: string, score: real, reasons: seq<string>)

  type Best = map<string, Suggestion>

  /** A score, which is never negative, rounded to thousandths, half up. */
  function Rounded(score: real): real { (score * 1000.0 + 0.5).Floor as real / 1000.0 }

  /** What a candidate does to the best suggestions so far: it is compared unrounded and stored rounded. */
  function Consider(best: Best, c: Candidate): Best {
    if c.reasons == [] then best
    else if c.master !in best || c.score > best[c.master].score then
      best[c.master := Suggestion(c.master, Rounded(c.score), c.reasons)]
    else best
  }

  function BestOf(candidates: seq<Candidate>): Best {
    if candidates == [] then map[]
    else Consider(BestOf(candidates[..|candidates| - 1]), candidates[|candidates| - 1])
  }

  /** Better score first, then by name. */
  predicate Ahead(a: Suggestion, b: Suggestion) {
    a.score > b.score || (a.score == b.score && Before(a.master, b.master))
  }

  /** All suggestions, best first. */
  ghost predicate IsRanking(best: Best, full: seq<Suggestion>) {
    Sorted(full, Ahead) && (forall s :: s in full <==> s.master in best && best[s.master] == s)
  }

  function Truncated(full: seq<Suggestion>, limit: nat): seq<Suggestion> {
    if |full| > limit then full[..limit] else full
  }

  method Suggest(candidates: seq<Candidate>, limit: nat) returns (out: seq<Suggestion>)
    ensures exists full :: IsRanking(BestOf(candidates), full) && out == Truncated(full, limit)
  {
    var best: Best := map[];
    for i := 0 to |candidates|
      invariant best == BestOf(candidates[..i])
    {
      assert candidates[..i + 1][..i] == candidates[..i];
      var c := candidates[i];
      if c.reasons == [] { continue; }
      if c.master !in best || c.score > best[c.master].score {
        best := best[c.master := Suggestion(c.master, Rounded(c.score), c.reasons)];
      }
    }
    assert candidates[..|candidates|] == candidates;
    NamesMatch(candidates);
    var items := Values(best);
    AheadOrder();
    AheadTotal(items);
    var full := Sort(items, Ahead);
    Elements(full, items);
    OrderedSorted(full, Ahead);
    assert IsRanking(best, full);
    out := Truncated(full, limit);
  }

  /** The values of a map, in any order. */
  method Values(best: Best) returns (items: seq<Suggestion>)
    requires forall m :: m in best ==> best[m].master == m
    ensures forall s :: s in items <==> s.master in best && best[s.master] == s
    ensures forall i, j :: 0 <= i < j < |items| ==> items[i].master != items[j].master
  {
    items := [];
    var left := best.Keys;
    while left != {}
      invariant left <= best.Keys
      invariant forall s :: s in items <==> s.master in best && s.master !in left && best[s.master] == s
      invariant forall i, j :: 0 <= i < j < |items| ==> items[i].master != items[j].master
      decreases left
    {
      var m :| m in left;
      assert forall i :: 0 <= i < |items| ==> items[i] in items;
      items := items + [best[m]];
      left := left - {m};
    }
  }

  /** Links a master automatically when its score reaches the threshold and no other comes close. */
  function Decide(s: seq<Suggestion>, threshold: real): Option<string> {
    if s == [] || s[0].score < threshold then None
    else if |s| > 1 && s[1].score >= 0.5 then None
    else Some(s[0].master)
  }

  /** Suggests among the candidates and links the best one if it is certain: a master exactly when no other comes close. */
  method Match(candidates: seq<Candidate>, limit: nat, threshold: real) returns (suggestions: seq<Suggestion>, master: Option<string>)
    ensures exists full :: IsRanking(BestOf(candidates), full) && suggestions == Truncated(full, limit)
    ensures limit >= 2 ==> forall m :: master == Some(m) <==> Certain(BestOf(candidates), threshold, m)
  {
    suggestions := Suggest(candidates, limit);
    ghost var full :| IsRanking(BestOf(candidates), full) && suggestions == Truncated(full, limit);
    master := Decide(suggestions, threshold);
    forall m ensures Decide(full, threshold) == Some(m) <==> Certain(BestOf(candidates), threshold, m) {
      DecidesOnlyUnambiguous(candidates, full, threshold, m);
    }
    TruncationKeepsDecision(full, limit, threshold);
  }

  /** A master that reaches the threshold, ahead of all others, each of which is below one half. */
  ghost predicate Certain(best: Best, threshold: real, master: string) {
    && master in best && best[master].score >= threshold
    && forall other :: other in best && other != master ==> Ahead(best[master], best[other]) && best[other].score < 0.5
  }

  // ----- Orders --------------------------------------------------------------

  lemma {:induction false} NamesMatch(candidates: seq<Candidate>)
    ensures forall m :: m in BestOf(candidates) ==> BestOf(candidates)[m].master == m
  {
    if candidates != [] { NamesMatch(candidates[..|candidates| - 1]); }
  }

  lemma AheadOrder()
    ensures WeakOrder(Ahead)
  {
    forall x ensures !Ahead(x, x) {
      BeforeIrreflexive(x.master);
    }
    forall x, y, z | Ahead(x, y) && Ahead(y, z) ensures Ahead(x, z) {
      if x.score == z.score { BeforeTransitive(x.master, y.master, z.master); }
    }
    forall x, y, z | Ahead(x, z) ensures Ahead(x, y) || Ahead(y, z) {
      if x.score == y.score == z.score {
        BeforeTotal(x.master, y.master);
        if Before(y.master, x.master) { BeforeTransitive(y.master, x.master, z.master); }
      }
    }
  }

  lemma AheadTotal(items: seq<Suggestion>)
    requires forall i, j :: 0 <= i < j < |items| ==> items[i].master != items[j].master
    ensures Comparable(items, Ahead)
  {
    OnceEach(items);
    forall x, y | x in items && y in items && x != y ensures Ahead(x, y) || Ahead(y, x) {
      BeforeTotal(x.master, y.master);
    }
  }

  // ----- What suggestions promise --------------------------------------------

  function Thousandths(score: real): int { (score * 1000.0 + 0.5).Floor }

  lemma ThousandthsBounds(a: real)
    ensures Thousandths(a) as real <= a * 1000.0 + 0.5 < Thousandths(a) as real + 1.0
    ensures Rounded(a) * 1000.0 == Thousandths(a) as real
  {
  }

  lemma FloorBelow(n: int, x: real)
    requires x < n as real + 1.0
    ensures x.Floor <= n
  {
    assert x.Floor as real <= x;
  }

  lemma FloorAbove(n: int, x: real)
    requires n as real <= x
    ensures n <= x.Floor
  {
    assert x < x.Floor as real + 1.0;
  }

  lemma RoundedMonotone(a: real, b: real)
    ensures a <= b ==> Rounded(a) <= Rounded(b)
  {
    ThousandthsBounds(a);
    ThousandthsBounds(b);
    if a <= b { FloorAbove(Thousandths(a), b * 1000.0 + 0.5); }
  }

  lemma RoundedAbsorbs(a: real, b: real)
    ensures a <= Rounded(b) ==> Rounded(a) <= Rounded(b)
    ensures a > Rounded(b) ==> Rounded(a) >= Rounded(b)
  {
    ThousandthsBounds(a);
    ThousandthsBounds(b);
    if a <= Rounded(b) {
      FloorBelow(Thousandths(b), a * 1000.0 + 0.5);
    } else {
      FloorAbove(Thousandths(b), a * 1000.0 + 0.5);
    }
  }

  lemma RoundedProperties(a: real, b: real)
    ensures a <= b ==> Rounded(a) <= Rounded(b)
    ensures a <= Rounded(b) ==> Rounded(a) <= Rounded(b)
    ensures a > Rounded(b) ==> Rounded(a) >= Rounded(b)
    ensures Rounded(a) - 0.0005 <= a < Rounded(a) + 0.0005
  {
    RoundedMonotone(a, b);
    RoundedAbsorbs(a, b);
    ThousandthsBounds(a);
    hide Rounded;
    hide Thousandths;
  }

  /** A candidate that counts for a master. */
  predicate CountsFor(c: Candidate, master: string) { c.master == master && c.reasons != [] }

  /**
   * Each master's suggested score is the greatest rounded score of its
   * candidates that give a reason, and its reasons are those of such a
   * candidate; a master is suggested exactly when it has one.
   */
  lemma {:induction false} SuggestedScoreIsMaximum(candidates: seq<Candidate>, master: string)
    ensures master in BestOf(candidates) <==> exists i :: 0 <= i < |candidates| && CountsFor(candidates[i], master)
    ensures master in BestOf(candidates) ==>
      && (forall i :: 0 <= i < |candidates| && CountsFor(candidates[i], master) ==> Rounded(candidates[i].score) <= BestOf(candidates)[master].score)
      && (exists i :: 0 <= i < |candidates| && GivenBy(candidates, master, i))
  {
    if candidates != [] {
      var n := |candidates| - 1;
      var before := candidates[..n];
      var c := candidates[n];
      SuggestedScoreIsMaximum(before, master);
      assert forall i :: 0 <= i < n ==> before[i] == candidates[i];
      if CountsFor(c, master) {
        if master in BestOf(before) {
          var k :| 0 <= k < n && GivenBy(before, master, k);
          RoundedProperties(c.score, before[k].score);
          if c.score > BestOf(before)[master].score { assert GivenBy(candidates, master, n); } else { assert GivenBy(candidates, master, k); }
        } else {
          assert GivenBy(candidates, master, n);
        }
      } else if master in BestOf(before) {
        var k :| 0 <= k < n && GivenBy(before, master, k);
        assert GivenBy(candidates, master, k);
      }
    }
  }

  /** The suggestion of a master is the one this candidate gave. */
  ghost predicate GivenBy(candidates: seq<Candidate>, master: string, i: int)
    requires 0 <= i < |candidates|
  {
    && CountsFor(candidates[i], master) && master in BestOf(candidates)
    && BestOf(candidates)[master] == Suggestion(master, Rounded(candidates[i].score), candidates[i].reasons)
  }

  /** The kept candidate is the best one up to rounding ... */
  lemma KeptIsNearlyBest(candidates: seq<Candidate>, master: string, i: nat, j: nat)
    requires i < |candidates| && j < |candidates| && GivenBy(candidates, master, i) && CountsFor(candidates[j], master)
    ensures candidates[j].score - candidates[i].score < 0.001
  {
    SuggestedScoreIsMaximum(candidates, master);
    RoundedProperties(candidates[i].score, candidates[j].score);
    RoundedProperties(candidates[j].score, candidates[i].score);
  }

  /** Which candidate the suggestion of a master came from. */
  ghost function KeptAt(candidates: seq<Candidate>, master: string): Option<nat> {
    if candidates == [] then None
    else
      var n := |candidates| - 1;
      var best := BestOf(candidates[..n]);
      if CountsFor(candidates[n], master) && (master !in best || candidates[n].score > best[master].score) then Some(n)
      else KeptAt(candidates[..n], master)
  }

  /** A candidate of the master whose score rounds to r. */
  predicate RoundsTo(candidates: seq<Candidate>, master: string, r: real, i: int) {
    0 <= i < |candidates| && CountsFor(candidates[i], master) && Rounded(candidates[i].score) == r
  }

  /** Such a candidate that was rounded down. */
  predicate Above(candidates: seq<Candidate>, master: string, r: real, i: int) {
    RoundsTo(candidates, master, r, i) && candidates[i].score > r
  }

  /** No candidate of the master rounds to more. */
  ghost predicate IsTop(candidates: seq<Candidate>, master: string, r: real) {
    && (exists i :: RoundsTo(candidates, master, r, i))
    && forall i :: 0 <= i < |candidates| && CountsFor(candidates[i], master) ==> Rounded(candidates[i].score) <= r
  }

  /** Of the candidates that round to r, the last one that was rounded down, or the first if none was. */
  ghost predicate IsChoice(candidates: seq<Candidate>, master: string, r: real, i: int) {
    && RoundsTo(candidates, master, r, i)
    && if exists k :: Above(candidates, master, r, k) then
         candidates[i].score > r && forall k :: i < k ==> !Above(candidates, master, r, k)
       else
         forall k :: k < i ==> !RoundsTo(candidates, master, r, k)
  }

  lemma ChoiceUnique(candidates: seq<Candidate>, master: string, r: real, i: int, j: int)
    requires IsChoice(candidates, master, r, i) && IsChoice(candidates, master, r, j)
    ensures i == j
  {
    if exists k :: Above(candidates, master, r, k) {
      assert Above(candidates, master, r, i) && Above(candidates, master, r, j);
    }
  }

  lemma RoundsToMore(candidates: seq<Candidate>, master: string, r: real, i: int)
    requires candidates != []
    ensures var n := |candidates| - 1;
      RoundsTo(candidates, master, r, i) <==>
        RoundsTo(candidates[..n], master, r, i) || (i == n && CountsFor(candidates[n], master) && Rounded(candidates[n].score) == r)
  {
  }

  /** A candidate that is no better than what is stored leaves the choice as it is. */
  lemma ChoiceStays(candidates: seq<Candidate>, master: string, r: real, i: int)
    requires candidates != [] && IsChoice(candidates[..|candidates| - 1], master, r, i)
    requires CountsFor(candidates[|candidates| - 1], master) ==> candidates[|candidates| - 1].score <= r
    ensures IsChoice(candidates, master, r, i)
  {
    var n := |candidates| - 1;
    var before := candidates[..n];
    forall k ensures Above(candidates, master, r, k) <==> Above(before, master, r, k) { RoundsToMore(candidates, master, r, k); }
    forall k | k < n ensures RoundsTo(candidates, master, r, k) <==> RoundsTo(before, master, r, k) { RoundsToMore(candidates, master, r, k); }
    RoundsToMore(candidates, master, r, i);
    assert before[i] == candidates[i];
    hide RoundsTo, Rounded;
  }

  /** One that is better becomes the choice. */
  lemma ChoiceMoves(before: seq<Candidate>, c: Candidate, master: string, r: real)
    requires CountsFor(c, master) && Rounded(c.score) == r
    requires (exists k :: RoundsTo(before, master, r, k)) ==> c.score > r
    ensures IsChoice(before + [c], master, r, |before|)
  {
    var all, n := before + [c], |before|;
    forall k ensures RoundsTo(all, master, r, k) <==> RoundsTo(before, master, r, k) || k == n {
      assert all[..n] == before;
      RoundsToMore(all, master, r, k);
    }
    assert forall k :: RoundsTo(before, master, r, k) ==> 0 <= k < n;
    hide Rounded;
    if c.score > r { assert Above(all, master, r, n); }
    assert forall k :: Above(all, master, r, k) ==> RoundsTo(all, master, r, k);
  }

  /** The kept candidate is the choice among those that round to the maximum. */
  lemma {:induction false} KeptIsChoice(candidates: seq<Candidate>, master: string)
    ensures master in BestOf(candidates) <==> KeptAt(candidates, master).Some?
    ensures master in BestOf(candidates) ==>
      var i, r := KeptAt(candidates, master).value, BestOf(candidates)[master].score;
      && i < |candidates| && GivenBy(candidates, master, i) && IsTop(candidates, master, r) && IsChoice(candidates, master, r, i)
  {
    if candidates != [] {
      var n := |candidates| - 1;
      var before, c := candidates[..n], candidates[n];
      KeptIsChoice(before, master);
      SuggestedScoreIsMaximum(candidates, master);
      SuggestedScoreIsMaximum(before, master);
      hide IsChoice, Rounded;
      if master in BestOf(before) && (!CountsFor(c, master) || c.score <= BestOf(before)[master].score) {
        ChoiceStays(candidates, master, BestOf(before)[master].score, KeptAt(before, master).value);
      } else if CountsFor(c, master) {
        assert forall k :: RoundsTo(before, master, Rounded(c.score), k) ==> master in BestOf(before) && Rounded(c.score) <= BestOf(before)[master].score;
        if master in BestOf(before) { RoundedAbsorbs(c.score, before[KeptAt(before, master).value].score); }
        ChoiceMoves(before, c, master, Rounded(c.score));
        assert candidates == before + [c];
      }
      if master in BestOf(candidates) {
        var i := KeptAt(candidates, master).value;
        assert RoundsTo(candidates, master, BestOf(candidates)[master].score, i);
      }
    }
  }

  /**
   * The record kept for a master is its best-matching one exactly when, among
   * the candidates whose scores round to the maximum, none is better than the
   * last that was rounded down, or than the first when none was.
   */
  lemma KeptIsBestExactly(candidates: seq<Candidate>, master: string, r: real, i: int)
    requires IsTop(candidates, master, r) && IsChoice(candidates, master, r, i)
    ensures KeptAt(candidates, master) == Some(i)
    ensures (forall j :: 0 <= j < |candidates| && CountsFor(candidates[j], master) ==> candidates[j].score <= candidates[i].score) <==>
            (forall j :: RoundsTo(candidates, master, r, j) ==> candidates[j].score <= candidates[i].score)
  {
    var k :| RoundsTo(candidates, master, r, k);
    SuggestedScoreIsMaximum(candidates, master);
    KeptIsChoice(candidates, master);
    assert BestOf(candidates)[master].score == r;
    ChoiceUnique(candidates, master, r, i, KeptAt(candidates, master).value);
    hide IsChoice, Rounded;
    if forall j :: RoundsTo(candidates, master, r, j) ==> candidates[j].score <= candidates[i].score {
      forall j | 0 <= j < |candidates| && CountsFor(candidates[j], master) ensures candidates[j].score <= candidates[i].score {
        RoundedMonotone(candidates[i].score, candidates[j].score);
      }
    }
  }

  /** An instance: a better candidate is passed over for one that was rounded up. */
  lemma KeptMayNotBeBest() returns (candidates: seq<Candidate>)
    ensures |candidates| == 2 && KeptAt(candidates, "m") == Some(0) && CountsFor(candidates[1], "m") && candidates[1].score > candidates[0].score
  {
    var a, b := Candidate("m", 0.8996, ["similar name"]), Candidate("m", 0.8999, ["same email address"]);
    candidates := [a, b];
    assert Rounded(0.8996) == 0.9 by { assert (0.8996 * 1000.0 + 0.5).Floor == 900; }
    assert Rounded(0.8999) == 0.9 by { assert (0.8999 * 1000.0 + 0.5).Floor == 900; }
    hide Rounded;
    assert RoundsTo(candidates, "m", 0.9, 0) && forall k :: !Above(candidates, "m", 0.9, k);
    KeptIsBestExactly(candidates, "m", 0.9, 0);
  }

  // ----- What decisions promise ----------------------------------------------

  lemma RankingUnique(best: Best, a: seq<Suggestion>, b: seq<Suggestion>)
    requires IsRanking(best, a) && IsRanking(best, b)
    ensures a == b
  {
    AheadOrder();
    SortedUnique(a, b, Ahead);
  }

  /** Truncating to at least two suggestions changes no decision; to one, exactly when a runner-up made it ambiguous. */
  lemma TruncationKeepsDecision(full: seq<Suggestion>, limit: nat, threshold: real)
    ensures limit >= 2 ==> Decide(Truncated(full, limit), threshold) == Decide(full, threshold)
    ensures limit == 1 ==>
      (Decide(Truncated(full, limit), threshold) == Decide(full, threshold) <==>
       |full| < 2 || full[0].score < threshold || full[1].score < 0.5)
  {
  }

  /** A master is linked exactly when it ranks first, reaches the threshold, and every other master is below one half. */
  lemma DecidesOnlyUnambiguous(candidates: seq<Candidate>, full: seq<Suggestion>, threshold: real, master: string)
    requires IsRanking(BestOf(candidates), full)
    ensures Decide(full, threshold) == Some(master) <==> Certain(BestOf(candidates), threshold, master)
  {
    var best := BestOf(candidates);
    NamesMatch(candidates);
    AheadOrder();
    assert forall m :: m in best ==> best[m] in full;
    assert forall i :: 0 <= i < |full| ==> full[i] in full;
    if full != [] {
      forall other | other in best && other != full[0].master ensures Ahead(full[0], best[other]) && |full| > 1 && best[other].score <= full[1].score {
        var i :| 0 <= i < |full| && full[i] == best[other];
        assert i > 0;
        if i > 1 { assert Ahead(full[1], full[i]); }
      }
      if |full| > 1 {
        assert Ahead(full[0], full[1]);
        assert full[0].master != full[1].master;
      }
      if master in best && master != full[0].master { assert !Ahead(best[master], full[0]); }
    }
  }
}
