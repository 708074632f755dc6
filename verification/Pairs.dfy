/**
 * The record pairs a match model is trained on: every matching pair of at most
 * 50 records a master, and every non-matching pair or a sample of them.
 */
module Pairs {
  import opened Prelude
  import opened Sorting

  type Attributes = map<string, string>

  datatype Record = Record(master: string, attributes: Attributes)

  datatype Pair = Pair(a: Attributes, b: Attributes, matching: bool)

  const PER_MASTER := 50

  // ----- The records kept ----------------------------------------------------

  type Groups = map<string, seq<Attributes>>

  /** The first 50 records of each master that have any attribute. */
  function Grouped(records: seq<Record>): Groups {
    if records == [] then map[]
    else
      var groups, r := Grouped(records[..|records| - 1]), records[|records| - 1];
      if r.attributes == map[] then groups
      else if r.master !in groups then groups[r.master := [r.attributes]]
      else if |groups[r.master]| < PER_MASTER then groups[r.master := groups[r.master] + [r.attributes]]
      else groups
  }

  /** A master's records that have any attribute. */
  function RecordsOf(records: seq<Record>, master: string): seq<Attributes> {
    if records == [] then []
    else
      var r := records[|records| - 1];
      RecordsOf(records[..|records| - 1], master) + if r.master == master && r.attributes != map[] then [r.attributes] else []
  }

  lemma {:induction false} GroupsAreFirst(records: seq<Record>, master: string)
    ensures var all := RecordsOf(records, master);
      && (master in Grouped(records) <==> all != [])
      && (master in Grouped(records) ==> Grouped(records)[master] == if |all| > PER_MASTER then all[..PER_MASTER] else all)
  {
    if records != [] { GroupsAreFirst(records[..|records| - 1], master); }
  }

  function Labelled(master: string, group: seq<Attributes>): seq<Record> {
    seq(|group|, i requires 0 <= i < |group| => Record(master, group[i]))
  }

  /** The records of these masters, one master after the other. */
  function Flattened(masters: seq<string>, groups: Groups): seq<Record>
    requires forall m :: m in masters ==> m in groups
  {
    if masters == [] then []
    else
      var m := masters[|masters| - 1];
      Flattened(masters[..|masters| - 1], groups) + Labelled(m, groups[m])
  }

  /** The records kept, by master in order. */
  ghost predicate IsKept(records: seq<Record>, kept: seq<Record>) {
    exists masters: seq<string> ::
      && Sorted(masters, Before) && (forall m :: m in masters <==> m in Grouped(records))
      && kept == Flattened(masters, Grouped(records))
  }

  // ----- Pairs ---------------------------------------------------------------

  function PairOf(x: Record, y: Record): Pair { Pair(x.attributes, y.attributes, x.master == y.master) }

  /** A record with each of the records after it. */
  function With(x: Record, rest: seq<Record>): seq<Pair> {
    if rest == [] then [] else With(x, rest[..|rest| - 1]) + [PairOf(x, rest[|rest| - 1])]
  }

  /** The pairs whose first record is one of the first i. */
  function Rows(s: seq<Record>, i: nat): seq<Pair>
    requires i <= |s|
  {
    if i == 0 then [] else Rows(s, i - 1) + With(s[i - 1], s[i..])
  }

  /** Every unordered pair, once. */
  function AllPairs(s: seq<Record>): seq<Pair> { Rows(s, |s|) }

  function Only(pairs: seq<Pair>, matching: bool): seq<Pair> {
    if pairs == [] then []
    else
      var p := pairs[|pairs| - 1];
      Only(pairs[..|pairs| - 1], matching) + if p.matching == matching then [p] else []
  }

  function Half(n: nat): nat { n * (n - 1) / 2 }

  lemma {:induction false} OnlyAppend(a: seq<Pair>, b: seq<Pair>, matching: bool)
    ensures Only(a + b, matching) == Only(a, matching) + Only(b, matching)
  {
    if b == [] {
      assert a + b == a;
    } else {
      assert (a + b)[..|a + b| - 1] == a + b[..|b| - 1];
      OnlyAppend(a, b[..|b| - 1], matching);
    }
  }

  lemma {:induction false} OnlySplits(pairs: seq<Pair>)
    ensures multiset(pairs) == multiset(Only(pairs, true)) + multiset(Only(pairs, false))
  {
    if pairs != [] {
      OnlySplits(pairs[..|pairs| - 1]);
      assert pairs == pairs[..|pairs| - 1] + [pairs[|pairs| - 1]];
    }
  }

  lemma {:induction false} OnlyAll(pairs: seq<Pair>, matching: bool)
    ensures forall p :: p in Only(pairs, matching) <==> p in pairs && p.matching == matching
    ensures |Only(pairs, matching)| <= |pairs|
  {
    if pairs != [] {
      OnlyAll(pairs[..|pairs| - 1], matching);
      assert pairs == pairs[..|pairs| - 1] + [pairs[|pairs| - 1]];
    }
  }

  lemma {:induction false} WithLength(x: Record, rest: seq<Record>)
    ensures |With(x, rest)| == |rest|
    ensures forall i :: 0 <= i < |rest| ==> With(x, rest)[i] == PairOf(x, rest[i])
  {
    if rest != [] { WithLength(x, rest[..|rest| - 1]); }
  }

  /** Where the pair of the records at i and j stands. */
  function Position(s: seq<Record>, i: nat, j: nat): nat
    requires i < j < |s|
  {
    |Rows(s, i)| + (j - i - 1)
  }

  lemma {:induction false} RowsPrefix(s: seq<Record>, i: nat, k: nat)
    requires i <= k <= |s|
    ensures Rows(s, i) <= Rows(s, k)
  {
    hide With;
    if i < k { RowsPrefix(s, i, k - 1); }
  }

  lemma RowLength(s: seq<Record>, i: nat)
    requires i < |s|
    ensures |Rows(s, i + 1)| == |Rows(s, i)| + (|s| - i - 1)
  {
    WithLength(s[i], s[i + 1..]);
    hide With;
  }

  /** The pair of two records stands at its position ... */
  lemma PairAtPosition(s: seq<Record>, i: nat, j: nat)
    requires i < j < |s|
    ensures Position(s, i, j) < |AllPairs(s)| && AllPairs(s)[Position(s, i, j)] == PairOf(s[i], s[j])
  {
    var before, row, at := Rows(s, i), With(s[i], s[i + 1..]), j - i - 1;
    WithLength(s[i], s[i + 1..]);
    RowsPrefix(s, i + 1, |s|);
    assert Rows(s, i + 1) == before + row;
    hide With, Rows;
    InPrefix(before, row, AllPairs(s), at);
  }

  lemma InPrefix(a: seq<Pair>, b: seq<Pair>, all: seq<Pair>, at: nat)
    requires a + b <= all && at < |b|
    ensures |a| + at < |all| && all[|a| + at] == b[at]
  {
    assert (a + b)[|a| + at] == b[at];
  }

  /** ... no two pairs share a position ... */
  lemma PositionUnique(s: seq<Record>, i: nat, j: nat, i': nat, j': nat)
    requires i < j < |s| && i' < j' < |s| && Position(s, i, j) == Position(s, i', j')
    ensures i == i' && j == j'
  {
    if i < i' {
      LaterRow(s, i, i');
    } else if i' < i {
      LaterRow(s, i', i);
    }
    hide Rows;
  }

  lemma {:induction false} LaterRow(s: seq<Record>, i: nat, k: nat)
    requires i < k <= |s|
    ensures |Rows(s, i)| + (|s| - i - 1) <= |Rows(s, k)|
  {
    hide Rows, With;
    RowLength(s, k - 1);
    if i < k - 1 { LaterRow(s, i, k - 1); }
  }

  /** ... and every position is that of some pair. */
  lemma {:induction false} PositionTaken(s: seq<Record>, k: nat, at: nat) returns (i: nat, j: nat)
    requires k <= |s| && at < |Rows(s, k)|
    ensures i < j < |s| && Position(s, i, j) == at
  {
    if at < |Rows(s, k - 1)| {
      i, j := PositionTaken(s, k - 1, at);
    } else {
      RowLength(s, k - 1);
      i, j := k - 1, k + (at - |Rows(s, k - 1)|);
    }
  }

  /** There are n(n-1)/2 pairs. */
  lemma PairCount(s: seq<Record>)
    ensures |AllPairs(s)| == Half(|s|)
  {
    RowCount(s, |s|);
    assert |s| * (2 * |s| - 1 - |s|) == |s| * (|s| - 1);
  }

  lemma {:induction false} RowCount(s: seq<Record>, i: nat)
    requires i <= |s|
    ensures 2 * |Rows(s, i)| == i * (2 * |s| - 1 - i)
  {
    if i > 0 {
      RowCount(s, i - 1);
      WithLength(s[i - 1], s[i..]);
      OneRow(|s|, i);
    }
  }

  lemma OneRow(n: int, i: int)
    ensures i * (2 * n - 1 - i) == (i - 1) * (2 * n - i) + 2 * (n - i)
  {
  }

  lemma {:induction false} WithAppend(x: Record, a: seq<Record>, b: seq<Record>)
    ensures With(x, a + b) == With(x, a) + With(x, b)
  {
    if b == [] {
      assert a + b == a;
    } else {
      assert (a + b)[..|a + b| - 1] == a + b[..|b| - 1];
      WithAppend(x, a, b[..|b| - 1]);
    }
  }

  ghost predicate Apart(a: seq<Record>, b: seq<Record>) {
    forall x, y :: x in a && y in b ==> x.master != y.master
  }

  lemma {:induction false} NoneMatch(x: Record, b: seq<Record>)
    requires forall y :: y in b ==> x.master != y.master
    ensures Only(With(x, b), true) == []
  {
    if b != [] { NoneMatch(x, b[..|b| - 1]); }
  }

  /** Matching pairs of records of different masters are those of each. */
  lemma MatchingApart(a: seq<Record>, b: seq<Record>)
    requires Apart(a, b)
    ensures Only(AllPairs(a + b), true) == Only(AllPairs(a), true) + Only(AllPairs(b), true)
  {
    MatchingRows(a, b, |b|);
  }

  lemma {:induction false} MatchingFirst(a: seq<Record>, b: seq<Record>, i: nat)
    requires Apart(a, b) && i <= |a|
    ensures Only(Rows(a + b, i), true) == Only(Rows(a, i), true)
  {
    hide Apart, Only, With;
    if i > 0 {
      MatchingFirst(a, b, i - 1);
      assert (a + b)[i - 1] == a[i - 1] && (a + b)[i..] == a[i..] + b;
      RowApart(a, b, i - 1);
      OnlyAppend(Rows(a + b, i - 1), With(a[i - 1], a[i..] + b), true);
      OnlyAppend(Rows(a, i - 1), With(a[i - 1], a[i..]), true);
    }
  }

  lemma RowApart(a: seq<Record>, b: seq<Record>, i: nat)
    requires Apart(a, b) && i < |a|
    ensures Only(With(a[i], a[i + 1..] + b), true) == Only(With(a[i], a[i + 1..]), true)
  {
    assert a[i] in a;
    WithAppend(a[i], a[i + 1..], b);
    NoneMatch(a[i], b);
    OnlyAppend(With(a[i], a[i + 1..]), With(a[i], b), true);
    hide Only, With;
  }

  lemma {:induction false} MatchingRows(a: seq<Record>, b: seq<Record>, k: nat)
    requires Apart(a, b) && k <= |b|
    ensures Only(Rows(a + b, |a| + k), true) == Only(Rows(a, |a|), true) + Only(Rows(b, k), true)
  {
    hide Apart, With;
    if k == 0 {
      NoPairs(b);
      hide Only, Rows;
      MatchingFirst(a, b, |a|);
    } else {
      hide Only, Rows;
      MatchingRows(a, b, k - 1);
      var row := With(b[k - 1], b[k..|b|]);
      assert (a + b)[|a| + k - 1] == b[k - 1] && (a + b)[|a| + k..|a + b|] == b[k..|b|];
      NextRow(a + b, |a| + k - 1);
      NextRow(b, k - 1);
      OnlyAppend(Rows(a + b, |a| + k - 1), row, true);
      OnlyAppend(Rows(b, k - 1), row, true);
      Associates(Only(Rows(a, |a|), true), Only(Rows(b, k - 1), true), Only(row, true));
    }
  }

  lemma Associates(p: seq<Pair>, q: seq<Pair>, r: seq<Pair>)
    ensures (p + q) + r == p + (q + r)
  {
  }

  lemma AllMatch(s: seq<Record>)
    requires forall x, y :: x in s && y in s ==> x.master == y.master
    ensures Only(AllPairs(s), true) == AllPairs(s)
  {
    RowsMatch(s, |s|);
    OnlyThese(AllPairs(s), true);
  }

  lemma {:induction false} RowsMatch(s: seq<Record>, i: nat)
    requires i <= |s| && forall x, y :: x in s && y in s ==> x.master == y.master
    ensures forall p :: p in Rows(s, i) ==> p.matching
  {
    if i > 0 {
      RowsMatch(s, i - 1);
      WithLength(s[i - 1], s[i..]);
      forall p | p in With(s[i - 1], s[i..]) ensures p.matching {
        assert s[i - 1] in s && forall y :: y in s[i..] ==> y in s;
      }
      hide With;
    }
  }

  lemma OnlyThese(pairs: seq<Pair>, value: bool)
    requires forall p :: p in pairs ==> p.matching == value
    ensures Only(pairs, value) == pairs && Only(pairs, !value) == []
  {
    OnlyFirst(pairs, value, |pairs|);
    assert pairs[..|pairs|] == pairs;
  }

  lemma NoneOnly(value: bool)
    ensures Only([], value) == [] && Only([], !value) == []
  {
  }

  lemma {:induction false} OnlyFirst(pairs: seq<Pair>, value: bool, n: nat)
    requires n <= |pairs| && forall i :: 0 <= i < n ==> pairs[i].matching == value
    ensures Only(pairs[..n], value) == pairs[..n] && Only(pairs[..n], !value) == []
  {
    hide Only;
    if n == 0 {
      NoneOnly(value);
    } else {
      OnlyFirst(pairs, value, n - 1);
      OnlyNext(pairs[..n - 1], pairs[n - 1], value);
      OnlyNext(pairs[..n - 1], pairs[n - 1], !value);
      assert pairs[..n] == pairs[..n - 1] + [pairs[n - 1]];
    }
  }

  lemma Parts(matching: seq<Pair>, others: seq<Pair>)
    requires (forall p :: p in matching ==> p.matching) && forall p :: p in others ==> !p.matching
    ensures Only(matching + others, true) == matching && Only(matching + others, false) == others
  {
    OnlyAppend(matching, others, true);
    OnlyAppend(matching, others, false);
    OnlyThese(matching, true);
    OnlyThese(others, false);
    hide Only;
  }

  // ----- The loops -----------------------------------------------------------

  method Group(records: seq<Record>) returns (groups: Groups, masters: seq<string>)
    ensures groups == Grouped(records) && (forall m :: m in masters <==> m in groups)
    ensures forall i, j :: 0 <= i < j < |masters| ==> masters[i] != masters[j]
  {
    groups, masters := map[], [];
    for i := 0 to |records|
      invariant groups == Grouped(records[..i]) && forall m :: m in masters <==> m in groups
      invariant forall i, j :: 0 <= i < j < |masters| ==> masters[i] != masters[j]
    {
      var r := records[i];
      assert records[..i + 1][..i] == records[..i];
      if r.attributes == map[] { continue; }
      if r.master !in groups {
        assert forall k :: 0 <= k < |masters| ==> masters[k] in masters;
        masters := masters + [r.master];
        groups := groups[r.master := [r.attributes]];
      } else if |groups[r.master]| < PER_MASTER {
        groups := groups[r.master := groups[r.master] + [r.attributes]];
      }
    }
    assert records[..|records|] == records;
  }

  /** sort.Strings on names that all differ. */
  method SortNames(names: seq<string>) returns (sorted: seq<string>)
    requires forall i, j :: 0 <= i < j < |names| ==> names[i] != names[j]
    ensures Sorted(sorted, Before) && SameElements(sorted, names)
    ensures forall i, j :: 0 <= i < j < |sorted| ==> sorted[i] != sorted[j]
  {
    BeforeOrder();
    sorted := Sort(names, Before);
    Elements(sorted, names);
    OnceEach(names);
    forall x, y | x in names && y in names && x != y ensures Before(x, y) || Before(y, x) { BeforeTotal(x, y); }
    OrderedSorted(sorted, Before);
    forall i, j | 0 <= i < j < |sorted| ensures sorted[i] != sorted[j] { assert Before(sorted[i], sorted[j]); }
  }

  /** The pairs within one master's records. */
  method GroupPairs(master: string, recs: seq<Attributes>) returns (out: seq<Pair>)
    ensures out == AllPairs(Labelled(master, recs))
  {
    hide With, Rows, AllPairs;
    ghost var s := Labelled(master, recs);
    out := [];
    NoPairs(s);
    for i := 0 to |recs|
      invariant out == Rows(s, i)
    {
      ghost var sofar := out;
      NoneWith(s[i]);
      assert s[i + 1..i + 1] == [];
      for j := i + 1 to |recs|
        invariant out == sofar + With(s[i], s[i + 1..j])
      {
        WithNext(s, i, j);
        out := out + [Pair(recs[i], recs[j], true)];
      }
      NextRow(s, i);
    }
  }

  lemma NoneWith(x: Record)
    ensures With(x, []) == []
  {
  }

  lemma WithNext(s: seq<Record>, i: nat, j: nat)
    requires i < j < |s|
    ensures With(s[i], s[i + 1..j + 1]) == With(s[i], s[i + 1..j]) + [PairOf(s[i], s[j])]
    ensures s[i + 1..i + 1] == []
  {
    assert s[i + 1..j + 1][..j - i - 1] == s[i + 1..j];
  }

  /** The records kept, and their matching pairs. */
  method MatchingPairs(masters: seq<string>, groups: Groups) returns (all: seq<Record>, out: seq<Pair>)
    requires forall m :: m in masters ==> m in groups
    requires forall i, j :: 0 <= i < j < |masters| ==> masters[i] != masters[j]
    ensures all == Flattened(masters, groups) && out == Only(AllPairs(all), true)
  {
    all, out := [], [];
    for k := 0 to |masters|
      invariant all == Flattened(masters[..k], groups) && out == Only(AllPairs(all), true)
    {
      assert masters[..k + 1][..k] == masters[..k];
      var recs := groups[masters[k]];
      var more := GroupPairs(masters[k], recs);
      ghost var group := Labelled(masters[k], recs);
      FlattenedMasters(masters[..k], groups);
      MatchingApart(all, group);
      AllMatch(group);
      all := all + Labelled(masters[k], recs);
      out := out + more;
    }
    assert masters[..|masters|] == masters;
  }

  lemma {:induction false} FlattenedMasters(masters: seq<string>, groups: Groups)
    requires forall m :: m in masters ==> m in groups
    ensures forall r :: r in Flattened(masters, groups) ==> r.master in masters
  {
    if masters != [] { FlattenedMasters(masters[..|masters| - 1], groups); }
  }

  method OtherPairs(all: seq<Record>) returns (out: seq<Pair>)
    ensures out == Only(AllPairs(all), false)
  {
    hide With, Only, Rows, AllPairs;
    out := [];
    NoPairs(all);
    for i := 0 to |all|
      invariant out == Only(Rows(all, i), false)
    {
      ghost var sofar := out;
      NoneWith(all[i]);
      assert all[i + 1..i + 1] == [];
      for j := i + 1 to |all|
        invariant out == sofar + Only(With(all[i], all[i + 1..j]), false)
      {
        WithNext(all, i, j);
        OnlyNext(With(all[i], all[i + 1..j]), PairOf(all[i], all[j]), false);
        if all[i].master != all[j].master { out := out + [Pair(all[i].attributes, all[j].attributes, false)]; }
      }
      NextRow(all, i);
      OnlyAppend(Rows(all, i), With(all[i], all[i + 1..|all|]), false);
    }
    NoPairs(all);
  }

  lemma NoPairs(s: seq<Record>)
    ensures Rows(s, 0) == [] && Only([], true) == Only([], false) == []
    ensures AllPairs(s) == Rows(s, |s|)
  {
  }

  lemma NextRow(s: seq<Record>, i: nat)
    requires i < |s|
    ensures Rows(s, i + 1) == Rows(s, i) + With(s[i], s[i + 1..|s|])
  {
    assert s[i + 1..|s|] == s[i + 1..];
  }

  lemma OnlyNext(pairs: seq<Pair>, p: Pair, matching: bool)
    ensures Only(pairs + [p], matching) == Only(pairs, matching) + if p.matching == matching then [p] else []
  {
    assert (pairs + [p])[..|pairs|] == pairs;
  }

  /** A pair of kept records of different masters. */
  ghost predicate Drawn(all: seq<Record>, p: Pair) {
    exists x, y :: x in all && y in all && x.master != y.master && p == PairOf(x, y)
  }

  /** The two records of the k-th draw. */
  function Draw(all: seq<Record>, draw: nat -> nat, k: nat): (Record, Record)
    requires all != []
  {
    (all[draw(2 * k) % |all|], all[draw(2 * k + 1) % |all|])
  }

  /** How many of the first k draws are of different masters. */
  ghost function Mixed(all: seq<Record>, draw: nat -> nat, k: nat): nat
    requires all != []
  {
    if k == 0 then 0 else Mixed(all, draw, k - 1) + if Differ(all, draw, k - 1) then 1 else 0
  }

  predicate Differ(all: seq<Record>, draw: nat -> nat, k: nat)
    requires all != []
  {
    Draw(all, draw, k).0.master != Draw(all, draw, k).1.master
  }

  /** The sample is the draws of different masters, each in its turn. */
  ghost predicate IsSample(all: seq<Record>, draw: nat -> nat, n: nat, sample: seq<Pair>)
    requires all != []
  {
    && |sample| == Mixed(all, draw, n)
    && forall k :: 0 <= k < n && Differ(all, draw, k) ==>
         Mixed(all, draw, k) < |sample| && sample[Mixed(all, draw, k)] == PairOf(Draw(all, draw, k).0, Draw(all, draw, k).1)
  }

  lemma {:induction false} MixedGrows(all: seq<Record>, draw: nat -> nat, k: nat, n: nat)
    requires all != [] && k <= n
    ensures Mixed(all, draw, k) <= Mixed(all, draw, n) <= Mixed(all, draw, k) + (n - k)
  {
    if k < n { MixedGrows(all, draw, k, n - 1); }
  }

  lemma SampleMore(all: seq<Record>, draw: nat -> nat, n: nat, sample: seq<Pair>)
    requires all != [] && IsSample(all, draw, n, sample)
    ensures IsSample(all, draw, n + 1, if Differ(all, draw, n) then sample + [PairOf(Draw(all, draw, n).0, Draw(all, draw, n).1)] else sample)
  {
    hide Draw, Differ;
  }

  /** So many draws of two records; those of different masters are the sample. */
  method SamplePairs(all: seq<Record>, maxNon: int, draw: nat -> nat) returns (out: seq<Pair>)
    requires |all| >= 2
    ensures IsSample(all, draw, Max(0, maxNon), out)
    ensures |out| <= Max(0, maxNon) && forall p :: p in out ==> Drawn(all, p)
  {
    hide IsSample, Mixed;
    out := [];
    NothingDrawn(all, draw);
    for k := 0 to Max(0, maxNon)
      invariant |out| <= k && forall p :: p in out ==> Drawn(all, p)
      invariant IsSample(all, draw, k, out)
    {
      var x, y := all[draw(2 * k) % |all|], all[draw(2 * k + 1) % |all|];
      SampleMore(all, draw, k, out);
      if x.master != y.master {
        assert Drawn(all, PairOf(x, y));
        out := out + [Pair(x.attributes, y.attributes, false)];
      }
    }
  }

  lemma NothingDrawn(all: seq<Record>, draw: nat -> nat)
    requires all != []
    ensures IsSample(all, draw, 0, [])
  {
  }

  /**
   * All matching pairs of the kept records, each once; and with them every
   * other pair once when all pairs fit the bound, or else those of so many draws that differ in their masters.
   * So when they fit, the pairs are all n(n-1)/2 unordered pairs, each labelled
   * by whether its masters are equal.
   */
  method TrainingPairs(records: seq<Record>, maxNon: int, draw: nat -> nat) returns (out: seq<Pair>, ghost kept: seq<Record>)
    ensures IsKept(records, kept)
    ensures |kept| < 2 || Half(|kept|) <= maxNon ==> multiset(out) == multiset(AllPairs(kept)) && |out| == Half(|kept|)
    ensures !(|kept| < 2 || Half(|kept|) <= maxNon) ==>
      kept != [] && exists sample :: out == Only(AllPairs(kept), true) + sample && IsSample(kept, draw, Max(0, maxNon), sample)
    ensures Only(out, true) == Only(AllPairs(kept), true) && |Only(out, false)| <= Max(0, maxNon)
  {
    hide IsKept, AllPairs, Only, Grouped, Flattened, Drawn, Half, IsSample;
    var groups, masters := Group(records);
    masters := SortNames(masters);
    var all, matching := MatchingPairs(masters, groups);
    kept := all;
    assert IsKept(records, all) by { KeptHere(records, masters, all); }
    Counted(all);
    var n := |all|;
    if n < 2 {
      FewPairs(all);
      return matching, kept;
    }
    var others: seq<Pair>;
    assert Half(n) == n * (n - 1) / 2 by { HalfIs(n); }
    if n * (n - 1) / 2 <= maxNon {
      others := OtherPairs(all);
      OnlyAll(AllPairs(all), false);
    } else {
      others := SamplePairs(all, maxNon, draw);
      DrawnDiffer(all, others);
    }
    OnlyAll(AllPairs(all), true);
    Parts(matching, others);
    out := matching + others;
  }

  lemma KeptHere(records: seq<Record>, masters: seq<string>, all: seq<Record>)
    requires Sorted(masters, Before) && forall m :: m in masters <==> m in Grouped(records)
    requires all == Flattened(masters, Grouped(records))
    ensures IsKept(records, all)
  {
  }

  lemma HalfIs(n: nat)
    ensures Half(n) == n * (n - 1) / 2
  {
  }

  lemma Counted(all: seq<Record>)
    ensures |AllPairs(all)| == Half(|all|)
    ensures multiset(Only(AllPairs(all), true) + Only(AllPairs(all), false)) == multiset(AllPairs(all))
    ensures |Only(AllPairs(all), true) + Only(AllPairs(all), false)| == Half(|all|)
  {
    hide AllPairs, Only, Half;
    PairCount(all);
    OnlySplits(AllPairs(all));
    assert |multiset(AllPairs(all))| == |AllPairs(all)|;
    assert |multiset(Only(AllPairs(all), true) + Only(AllPairs(all), false))| == |Only(AllPairs(all), true) + Only(AllPairs(all), false)|;
  }

  lemma FewPairs(all: seq<Record>)
    requires |all| < 2
    ensures AllPairs(all) == [] && Only(AllPairs(all), true) == Only(AllPairs(all), false) == [] && Half(|all|) == 0
  {
    if |all| == 1 {
      assert all[1..] == [];
      assert Rows(all, 0) == [];
    }
  }

  lemma DrawnDiffer(all: seq<Record>, sample: seq<Pair>)
    requires forall p :: p in sample ==> Drawn(all, p)
    ensures forall p :: p in sample ==> !p.matching
  {
  }
}
