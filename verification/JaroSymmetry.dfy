/**
 * The score does not depend on which string comes first.  Scanning either
 * string takes the same pairs, because they are the only stable choice: no
 * character and no partner of it would both rather have each other, when both
 * sides prefer the earliest.
 */
module JaroSymmetry {
  import opened Prelude
  import opened Jaro

  /** What the scan pairs the character at i with. */
  function Partner(s: string, t: string, w: nat, i: nat): Option<int>
    requires i < |s|
  {
    Pick(s, t, w, i, Used(s, t, w, i))
  }

  /** The scan of s pairs i with j. */
  predicate Paired(s: string, t: string, w: nat, i: int, j: int) {
    0 <= i < |s| && Partner(s, t, w, i) == Some(j)
  }

  /** Equal characters within the window. */
  predicate Near(s: string, t: string, w: nat, i: int, j: int) {
    0 <= i < |s| && 0 <= j < |t| && i - w <= j <= i + w && s[i] == t[j]
  }

  lemma {:induction false} UsedExactly(s: string, t: string, w: nat, n: nat, j: int)
    requires n <= |s|
    ensures j in Used(s, t, w, n) <==> exists i :: 0 <= i < n && Paired(s, t, w, i, j)
  {
    hide First;
    if n > 0 {
      UsedExactly(s, t, w, n - 1, j);
      if Paired(s, t, w, n - 1, j) { assert j in Used(s, t, w, n); }
    }
  }

  lemma PairedNear(s: string, t: string, w: nat, i: int, j: int)
    requires Paired(s, t, w, i, j)
    ensures Near(s, t, w, i, j) && j !in Used(s, t, w, i)
  {
    FirstOk(s, t, i, Low(w, i), High(w, i, |t|), Used(s, t, w, i));
  }

  /** No partner is taken twice. */
  lemma PairedOnce(s: string, t: string, w: nat, i: int, i': int, j: int)
    requires Paired(s, t, w, i, j) && Paired(s, t, w, i', j)
    ensures i == i'
  {
    PairedNear(s, t, w, i, j);
    PairedNear(s, t, w, i', j);
    UsedExactly(s, t, w, i, j);
    UsedExactly(s, t, w, i', j);
  }

  /** The scan is stable: of two near characters that it does not pair, one has an earlier partner. */
  lemma Stable(s: string, t: string, w: nat, i: int, j: int)
    requires Near(s, t, w, i, j) && !Paired(s, t, w, i, j)
    ensures (Partner(s, t, w, i).Some? && Partner(s, t, w, i).value < j) || exists i' :: 0 <= i' < i && Paired(s, t, w, i', j)
  {
    FirstOk(s, t, i, Low(w, i), High(w, i, |t|), Used(s, t, w, i));
    UsedExactly(s, t, w, i, j);
  }

  lemma {:induction false} MirrorForward(s: string, t: string, w: nat, i: nat, j: int)
    requires Paired(s, t, w, i, j)
    ensures Paired(t, s, w, j, i)
    decreases i, 0
  {
    hide Paired, Partner;
    PairedNear(s, t, w, i, j);
    if !Paired(t, s, w, j, i) {
      Stable(t, s, w, j, i);
      Functional(t, s, w, j);
      if exists j' :: 0 <= j' < j && Paired(t, s, w, j', i) {
        var j' :| 0 <= j' < j && Paired(t, s, w, j', i);
        EarlierPartner(s, t, w, i, j, j');
      } else {
        var i' := Partner(t, s, w, j).value;
        PairedNear(t, s, w, j, i');
        MirrorBack(s, t, w, i', j);
        PairedOnce(s, t, w, i, i', j);
      }
    }
  }

  lemma Functional(s: string, t: string, w: nat, i: int)
    ensures forall j, j' :: Paired(s, t, w, i, j) && Paired(s, t, w, i, j') ==> j == j'
    ensures 0 <= i < |s| && Partner(s, t, w, i).Some? ==> Paired(s, t, w, i, Partner(s, t, w, i).value)
  {
  }

  /** The scan of t cannot have paired i with an earlier character. */
  lemma {:induction false} EarlierPartner(s: string, t: string, w: nat, i: nat, j: int, j': int)
    requires Paired(s, t, w, i, j) && Paired(t, s, w, j', i)
    ensures j <= j'
    decreases i, 0, 0
  {
    PairedNear(t, s, w, j', i);
    if j' < j {
      Stable(s, t, w, i, j');
      var i' :| 0 <= i' < i && Paired(s, t, w, i', j');
      MirrorForward(s, t, w, i', j');
    }
  }

  lemma {:induction false} MirrorBack(s: string, t: string, w: nat, i: nat, j: int)
    requires Paired(t, s, w, j, i)
    ensures Paired(s, t, w, i, j)
    decreases i, 1
  {
    PairedNear(t, s, w, j, i);
    hide Partner;
    if !Paired(s, t, w, i, j) {
      Stable(s, t, w, i, j);
      if exists i' :: 0 <= i' < i && Paired(s, t, w, i', j) {
        var i' :| 0 <= i' < i && Paired(s, t, w, i', j);
        MirrorForward(s, t, w, i', j);
      } else {
        var j' := Partner(s, t, w, i).value;
        MirrorForward(s, t, w, i, j');
        PairedOnce(t, s, w, j, j', i);
      }
    }
  }

  /** Scanning either string marks the same characters. */
  lemma MarksMirror(s: string, t: string, w: nat)
    ensures SourceMarks(t, s, w) == TargetMarks(s, t, w)
  {
    forall j | 0 <= j < |t| ensures SourceMarks(t, s, w)[j] == TargetMarks(s, t, w)[j] {
      UsedExactly(s, t, w, |s|, j);
      if Partner(t, s, w, j).Some? {
        var i := Partner(t, s, w, j).value;
        PairedNear(t, s, w, j, i);
        MirrorBack(s, t, w, i, j);
      }
      if i :| 0 <= i < |s| && Paired(s, t, w, i, j) { MirrorForward(s, t, w, i, j); }
    }
  }

  lemma {:induction false} DifferingMirror(s: string, t: string, a: seq<nat>, b: seq<nat>)
    requires |a| == |b| && (forall k :: 0 <= k < |a| ==> a[k] < |s| && b[k] < |t|)
    ensures Differing(s, t, a, b) == Differing(t, s, b, a)
  {
    if a != [] { DifferingMirror(s, t, a[..|a| - 1], b[..|a| - 1]); }
  }

  lemma TranspositionsSymmetric(s: string, t: string)
    ensures Matches(s, t) == Matches(t, s) && Transpositions(s, t) == Transpositions(t, s)
  {
    var w := Window(s, t);
    MatchesSymmetric(s, t);
    MarksMirror(s, t, w);
    MarksMirror(t, s, w);
    SameCounts(s, t);
    IndicesOk(SourceMarks(s, t, w));
    IndicesOk(TargetMarks(s, t, w));
    hide Differing, Indices, Used, SourceMarks, TargetMarks;
    DifferingMirror(s, t, Indices(SourceMarks(s, t, w)), Indices(TargetMarks(s, t, w)));
  }

  lemma {:induction false} PrefixSymmetric(s: string, t: string, i: nat)
    requires i <= 4
    ensures PrefixFrom(s, t, i) == PrefixFrom(t, s, i)
    decreases 4 - i
  {
    if i < 4 && i < |s| && i < |t| && s[i] == t[i] { PrefixSymmetric(s, t, i + 1); }
  }

  lemma CombineSymmetric(m: nat, ls: nat, lt: nat, transpositions: nat, prefix: nat)
    requires m > 0 && ls > 0 && lt > 0
    ensures Combine(m, ls, lt, transpositions, prefix) == Combine(m, lt, ls, transpositions, prefix)
  {
    var x, y := m as real / ls as real, m as real / lt as real;
    assert x + y == y + x;
  }

  /** The similarity of two strings is the same whichever comes first. */
  lemma ScoreSymmetric(s: string, t: string)
    ensures Score(s, t) == Score(t, s)
  {
    hide Combine, Transpositions, Matches;
    TranspositionsSymmetric(s, t);
    PrefixSymmetric(s, t, 0);
    if s != "" && t != "" && Matches(s, t) > 0 {
      CombineSymmetric(Matches(s, t), |s|, |t|, Transpositions(s, t), PrefixFrom(s, t, 0));
    }
  }
}
