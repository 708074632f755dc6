/** What a difference between two catalogs tells: one listing, and exactly the writes it breaks. */
module Drift {
  import opened Sorting
  import opened Meta

  ghost predicate UniqueFields(fields: seq<Field>) {
    forall i, j :: 0 <= i < j < |fields| ==> fields[i].name != fields[j].name
  }

  ghost predicate UniqueObjects(objects: seq<Object>) {
    forall i, j :: 0 <= i < j < |objects| ==> objects[i].name != objects[j].name
  }

  /** No object has two fields of one name. */
  ghost predicate WellNamed(objects: Objects) {
    forall k :: k in objects ==> UniqueFields(objects[k].fields)
  }

  /** A change between two objects, told from their fields by name. */
  ghost predicate Reported(o: Object, n: Object, c: Change) {
    Differs(FieldsByName(o.fields), FieldsByName(n.fields), o.sampled || n.sampled, c)
  }

  ghost predicate Differs(was: Fields, now: Fields, sampled: bool, c: Change) {
    || (c.field in now && c in FieldChange(c.owner, was, now[c.field], sampled))
    || (c.field in was && c.field !in now && c == Gone(c.owner, was[c.field], sampled))
  }

  /** Of objects of one name the last counts, and so of fields. */
  lemma {:induction false} LastObject(objects: seq<Object>, i: nat)
    requires i < |objects| && forall j :: i < j < |objects| ==> objects[j].name != objects[i].name
    ensures objects[i].name in ByName(objects) && ByName(objects)[objects[i].name] == objects[i]
  {
    var n := |objects| - 1;
    if i < n { LastObject(objects[..n], i); }
  }

  lemma {:induction false} LastField(fields: seq<Field>, i: nat)
    requires i < |fields| && forall j :: i < j < |fields| ==> fields[j].name != fields[i].name
    ensures fields[i].name in FieldsByName(fields) && FieldsByName(fields)[fields[i].name] == fields[i]
  {
    var n := |fields| - 1;
    if i < n { LastField(fields[..n], i); }
  }

  // ----- Counting changes ----------------------------------------------------

  /** A field's changes are each listed once, one of a kind. */
  lemma ChangesOnce(owner: string, left: Fields, f: Field, sampled: bool)
    ensures var s := FieldChange(owner, left, f, sampled); forall i, j :: 0 <= i < j < |s| ==> s[i].kind != s[j].kind
  {
  }

  lemma {:induction false} DistinctCount(s: seq<Change>, c: Change)
    requires forall i, j :: 0 <= i < j < |s| ==> s[i].kind != s[j].kind
    ensures multiset(s)[c] == Once(c in s)
  {
    if s != [] {
      DistinctCount(s[1..], c);
      assert s == [s[0]] + s[1..];
      assert s[0] !in s[1..];
    }
  }

  lemma FieldCount(owner: string, left: Fields, f: Field, sampled: bool, c: Change)
    ensures multiset(FieldChange(owner, left, f, sampled))[c] == Once(c in FieldChange(owner, left, f, sampled))
  {
    ChangesOnce(owner, left, f, sampled);
    DistinctCount(FieldChange(owner, left, f, sampled), c);
  }

  /** A field that no earlier one took is compared with the old field of its name. */
  lemma UniqueUntaken(owner: string, was: Fields, before: seq<Field>, f: Field, sampled: bool)
    requires UniqueFields(before + [f])
    ensures f.name !in FieldsByName(before)
    ensures FieldChange(owner, Remaining(was, before), f, sampled) == FieldChange(owner, was, f, sampled)
  {
    FieldNames(before);
    forall i | 0 <= i < |before| ensures before[i].name != f.name {
      assert (before + [f])[i] == before[i] && (before + [f])[|before|] == f;
    }
    hide Altered, NewField;
  }

  lemma {:induction false} ChangesCount(owner: string, was: Fields, fields: seq<Field>, sampled: bool, c: Change)
    requires UniqueFields(fields)
    ensures var now := FieldsByName(fields);
      multiset(FieldChanges(owner, was, fields, sampled))[c] == Once(c.field in now && c in FieldChange(owner, was, now[c.field], sampled))
  {
    hide FieldChange, Remaining;
    if fields != [] {
      var before, f := fields[..|fields| - 1], fields[|fields| - 1];
      assert fields == before + [f];
      ChangesCount(owner, was, before, sampled, c);
      UniqueUntaken(owner, was, before, f, sampled);
      AboutField(owner, was, f, sampled);
      FieldCount(owner, was, f, sampled, c);
    }
  }

  /** With unique field names every change is listed at most once, and exactly when it is one. */
  lemma ObjectCountExact(o: Object, n: Object, c: Change)
    requires UniqueFields(n.fields)
    ensures ObjectCount(o, n, c) == Once(Reported(o, n, c))
  {
    ChangesCount(c.owner, FieldsByName(o.fields), n.fields, o.sampled || n.sampled, c);
    FieldNames(n.fields);
    hide FieldChange, FieldChanges, FieldsByName, Gone;
  }

  /** The change of a kind in a field is unique. */
  lemma SameKey(was: Fields, now: Fields, sampled: bool, c: Change, d: Change)
    requires Differs(was, now, sampled, c) && Differs(was, now, sampled, d)
    requires c.owner == d.owner && c.field == d.field && c.kind == d.kind
    ensures c == d
  {
    if c.field in now {
      ChangesOnce(c.owner, was, now[c.field], sampled);
      hide FieldChange;
    }
  }

  lemma CountsOnce(prior: Objects, next: Objects, c: Change)
    requires WellNamed(next)
    ensures Count(prior, next, c) <= 1
  {
    if c.owner in prior && c.owner in next { ObjectCountExact(prior[c.owner], next[c.owner], c); }
    hide ObjectCount;
  }

  lemma KeyDetermines(prior: Objects, next: Objects, c: Change, d: Change)
    requires WellNamed(next) && Count(prior, next, c) > 0 && Count(prior, next, d) > 0
    requires c.owner == d.owner && c.field == d.field && c.kind == d.kind
    ensures c == d
  {
    if c.owner in prior && c.owner in next {
      var o, n := prior[c.owner], next[c.owner];
      ObjectCountExact(o, n, c);
      ObjectCountExact(o, n, d);
      SameKey(FieldsByName(o.fields), FieldsByName(n.fields), o.sampled || n.sampled, c, d);
    }
    hide ObjectCount, Differs;
  }

  lemma KindNamesDistinct(a: Kind, b: Kind)
    requires KindName(a) == KindName(b)
    ensures a == b
  {
    assert |KindName(a)| == |KindName(b)| && KindName(a)[0] == KindName(b)[0];
  }

  lemma DiffComparable(prior: seq<Object>, next: seq<Object>, out: seq<Change>)
    requires IsDiff(prior, next, out) && WellNamed(ByName(next))
    ensures Comparable(out, Precedes)
  {
    forall c ensures multiset(out)[c] <= 1 { CountsOnce(ByName(prior), ByName(next), c); }
    forall c, d | c in out && d in out && c != d ensures Precedes(c, d) || Precedes(d, c) {
      assert c in multiset(out) && d in multiset(out);
      BeforeTotal(c.owner, d.owner);
      BeforeTotal(c.field, d.field);
      BeforeTotal(KindName(c.kind), KindName(d.kind));
      if c.owner == d.owner && c.field == d.field {
        if c.kind == d.kind { KeyDetermines(ByName(prior), ByName(next), c, d); }
        if KindName(c.kind) == KindName(d.kind) { KindNamesDistinct(c.kind, d.kind); }
      }
    }
  }

  // ----- One listing ---------------------------------------------------------

  /** Two catalogs hold the same, whatever the order of objects and fields. */
  ghost predicate SameHoldings(a: Objects, b: Objects) {
    a.Keys == b.Keys && forall k :: k in a ==> a[k].sampled == b[k].sampled && FieldsByName(a[k].fields) == FieldsByName(b[k].fields)
  }

  lemma SameCounts(p1: Objects, n1: Objects, p2: Objects, n2: Objects, c: Change)
    requires WellNamed(n1) && WellNamed(n2) && SameHoldings(p1, p2) && SameHoldings(n1, n2)
    ensures Count(p1, n1, c) == Count(p2, n2, c)
  {
    assert c.owner in p1 <==> c.owner in p1.Keys;
    assert c.owner in n1 <==> c.owner in n1.Keys;
    if c.owner in p1 && c.owner in n1 {
      ObjectCountExact(p1[c.owner], n1[c.owner], c);
      ObjectCountExact(p2[c.owner], n2[c.owner], c);
    }
    hide ObjectCount, Differs;
  }

  /**
   * The listing depends only on what the catalogs hold: not on the order in
   * which maps are walked, nor on the order of objects and fields.
   */
  lemma OrderIrrelevant(p1: seq<Object>, n1: seq<Object>, a: seq<Change>, p2: seq<Object>, n2: seq<Object>, b: seq<Change>)
    requires IsDiff(p1, n1, a) && IsDiff(p2, n2, b)
    requires SameHoldings(ByName(p1), ByName(p2)) && SameHoldings(ByName(n1), ByName(n2))
    requires WellNamed(ByName(n1)) && WellNamed(ByName(n2))
    ensures a == b
  {
    forall c ensures multiset(a)[c] == multiset(b)[c] {
      SameCounts(ByName(p1), ByName(n1), ByName(p2), ByName(n2), c);
    }
    DiffComparable(p1, n1, a);
    PrecedesOrder();
    SortUnique(a, b, Precedes);
  }

  lemma {:induction false} FieldsExact(fields: seq<Field>, f: Field)
    requires UniqueFields(fields)
    ensures f in fields <==> f.name in FieldsByName(fields) && FieldsByName(fields)[f.name] == f
  {
    if fields != [] {
      var before, last := fields[..|fields| - 1], fields[|fields| - 1];
      FieldsExact(before, f);
      assert fields == before + [last];
      FieldNames(before);
    }
  }

  lemma {:induction false} ObjectsExact(objects: seq<Object>, o: Object)
    requires UniqueObjects(objects)
    ensures o in objects <==> o.name in ByName(objects) && ByName(objects)[o.name] == o
  {
    if objects != [] {
      var before, last := objects[..|objects| - 1], objects[|objects| - 1];
      ObjectsExact(before, o);
      assert objects == before + [last];
      ObjectNames(before);
    }
  }

  lemma {:induction false} ObjectNames(objects: seq<Object>)
    ensures forall k :: k in ByName(objects) ==> ByName(objects)[k].name == k && ByName(objects)[k] in objects
    ensures forall k :: k in ByName(objects) <==> exists i :: 0 <= i < |objects| && objects[i].name == k
  {
    if objects != [] { ObjectNames(objects[..|objects| - 1]); }
  }

  /** Sorting or shuffling a catalog whose names are unique does not change what it holds. */
  lemma ShuffledSame(a: seq<Object>, b: seq<Object>)
    requires UniqueObjects(a) && UniqueObjects(b)
    requires forall o :: o in a ==> exists p :: p in b && Shuffled(o, p)
    requires forall p :: p in b ==> exists o :: o in a && Shuffled(o, p)
    ensures SameHoldings(ByName(a), ByName(b))
  {
    forall k | k in ByName(a)
      ensures k in ByName(b) && ByName(a)[k].sampled == ByName(b)[k].sampled && FieldsByName(ByName(a)[k].fields) == FieldsByName(ByName(b)[k].fields)
    {
      ObjectNames(a);
      var p :| p in b && Shuffled(ByName(a)[k], p);
      ObjectsExact(b, p);
      ShuffledFields(ByName(a)[k].fields, p.fields);
    }
    forall k | k in ByName(b) ensures k in ByName(a) {
      ObjectNames(b);
      var o :| o in a && Shuffled(o, ByName(b)[k]);
      ObjectsExact(a, o);
    }
  }

  ghost predicate Shuffled(o: Object, p: Object) {
    && o.name == p.name && o.sampled == p.sampled && multiset(o.fields) == multiset(p.fields)
    && UniqueFields(o.fields) && UniqueFields(p.fields)
  }

  lemma ShuffledFields(a: seq<Field>, b: seq<Field>)
    requires UniqueFields(a) && UniqueFields(b) && multiset(a) == multiset(b)
    ensures FieldsByName(a) == FieldsByName(b)
  {
    Elements(a, b);
    FieldNames(a);
    FieldNames(b);
    forall k | k in FieldsByName(a) ensures k in FieldsByName(b) && FieldsByName(b)[k] == FieldsByName(a)[k] {
      FieldsExact(b, FieldsByName(a)[k]);
    }
    forall k | k in FieldsByName(b) ensures k in FieldsByName(a) {
      FieldsExact(a, FieldsByName(b)[k]);
    }
  }

  // ----- What is listed ------------------------------------------------------

  /** How an added field is described: its type, and what requires it, without a separator in front. */
  ghost predicate Described(text: string, f: Field) {
    if f.requiredBy == "" then text == f.typ
    else if f.typ == "" || "; " <= f.typ then "; " + text == f.typ + "; required: " + f.requiredBy
    else text == f.typ + "; required: " + f.requiredBy
  }

  /** The number a string of digits stands for. */
  ghost function Number(s: string): int {
    if s == "" then 0 else 10 * Number(s[..|s| - 1]) + (s[|s| - 1] as int - '0' as int)
  }

  ghost predicate Numeral(s: string, n: nat) {
    && s != "" && Number(s) == n && (forall i :: 0 <= i < |s| ==> '0' <= s[i] <= '9') && (|s| > 1 ==> s[0] != '0')
  }

  lemma {:induction false} DecimalReads(n: nat)
    ensures Numeral(Decimal(n), n)
  {
    var digit := "0123456789"[n % 10];
    assert digit as int - '0' as int == n % 10 && '0' <= digit <= '9';
    if n >= 10 {
      DecimalReads(n / 10);
      assert Decimal(n) == Decimal(n / 10) + [digit];
      NumeralMore(Decimal(n / 10), n / 10, digit);
    } else {
      assert Decimal(n) == "" + [digit] && [digit][..0] == "";
      assert Number([digit]) == 10 * Number("") + n;
    }
  }

  lemma NumeralMore(s: string, n: nat, digit: char)
    requires Numeral(s, n) && n > 0 && '0' <= digit <= '9'
    ensures Numeral(s + [digit], 10 * n + (digit as int - '0' as int))
  {
    var more := s + [digit];
    assert more[..|s|] == s;
    assert |s| == 1 ==> Number(s) == 10 * Number("") + (s[0] as int - '0' as int) && Number("") == 0 by {
      assert |s| == 1 ==> s[..0] == "";
    }
  }

  /** What a change of each kind says. */
  ghost predicate Says(was: Fields, now: Fields, sampled: bool, c: Change) {
    match c.kind
    case ObjectAdded => false
    case ObjectRemoved => false
    case FieldAdded =>
      && c.field in now && c.field !in was && c.was == "" && Described(c.now, now[c.field]) && c.breaking == now[c.field].required
    case FieldRemoved => c.field in was && c.field !in now && !sampled && c.was == was[c.field].typ && c.now == "" && c.breaking
    case FieldNotSeen => c.field in was && c.field !in now && sampled && c.was == was[c.field].typ && c.now == "" && !c.breaking
    case TypeChanged =>
      && c.field in was && c.field in now && was[c.field].typ == c.was != c.now == now[c.field].typ && c.breaking
      && (sampled ==> c.was != "" && c.now != "")
    case BecameRequired =>
      && c.field in was && c.field in now && now[c.field].required && !was[c.field].required
      && c.was == "" && c.now == now[c.field].requiredBy && c.breaking
    case RequiredDropped =>
      && c.field in was && c.field in now && was[c.field].required && !now[c.field].required
      && c.was == "" && c.now == "" && !c.breaking
    case LengthShrunk =>
      && c.field in was && c.field in now && now[c.field].length > 0
      && (was[c.field].length > now[c.field].length || was[c.field].length == 0)
      && c.was == Decimal(was[c.field].length) && c.now == Decimal(now[c.field].length) && c.breaking
    case BecameReadOnly =>
      && c.field in was && c.field in now && now[c.field].readOnly && !was[c.field].readOnly
      && c.was == "" && c.now == "" && c.breaking
  }

  /** What differs between two catalogs, kind by kind. */
  ghost predicate Difference(prior: Objects, next: Objects, c: Change) {
    if c.owner in prior && c.owner in next then
      Says(FieldsByName(prior[c.owner].fields), FieldsByName(next[c.owner].fields), prior[c.owner].sampled || next[c.owner].sampled, c)
    else if c.owner in prior then c.kind == ObjectRemoved && c.field == c.was == c.now == "" && c.breaking
    else c.owner in next && c.kind == ObjectAdded && c.field == c.was == c.now == "" && !c.breaking
  }

  lemma SaysExactly(was: Fields, now: Fields, sampled: bool, c: Change)
    requires (forall k :: k in was ==> was[k].name == k) && (forall k :: k in now ==> now[k].name == k)
    ensures Differs(was, now, sampled, c) <==> Says(was, now, sampled, c)
  {
    if c.field in now {
      if c.field in was { AlteredExactly(was, now, sampled, c); } else { AddedExactly(was, now, sampled, c); }
    }
    hide Altered, NewField, Described;
  }

  lemma AlteredExactly(was: Fields, now: Fields, sampled: bool, c: Change)
    requires c.field in was && c.field in now && now[c.field].name == c.field
    ensures c in Altered(c.owner, was[c.field], now[c.field], sampled) <==> Says(was, now, sampled, c)
  {
    AlteredMembers(c.owner, was[c.field], now[c.field], sampled, c);
    hide Altered, Decimal;
  }

  lemma AlteredMembers(owner: string, was: Field, f: Field, sampled: bool, c: Change)
    ensures c in Altered(owner, was, f, sampled) <==>
      match c.kind
      case TypeChanged => Retyped(was, f, sampled) && c == Change(TypeChanged, owner, f.name, was.typ, f.typ, true)
      case BecameRequired => !was.required && f.required && c == Change(BecameRequired, owner, f.name, "", f.requiredBy, true)
      case RequiredDropped => was.required && !f.required && c == Change(RequiredDropped, owner, f.name, "", "", false)
      case LengthShrunk => Shrunk(was, f) && c == Change(LengthShrunk, owner, f.name, Decimal(was.length), Decimal(f.length), true)
      case BecameReadOnly => !was.readOnly && f.readOnly && c == Change(BecameReadOnly, owner, f.name, "", "", true)
      case _ => false
  {
    hide Decimal, Retyped, Shrunk;
  }

  lemma AddedExactly(was: Fields, now: Fields, sampled: bool, c: Change)
    requires c.field !in was && c.field in now && now[c.field].name == c.field
    ensures c == NewField(c.owner, now[c.field]) <==> Says(was, now, sampled, c)
  {
    DescribedExactly(now[c.field], c.now);
    hide Described, TrimPrefix;
  }

  lemma DescribedExactly(f: Field, text: string)
    ensures Described(text, f) <==> text == NewField("", f).now
  {
    var rest := "; required: " + f.requiredBy;
    assert rest[..2] == "; ";
    SeparatorFirst(f.typ, rest);
    Trimmed(f.typ + rest, text);
    hide TrimPrefix;
  }

  lemma SeparatorFirst(a: string, b: string)
    requires |b| > 2 && b[..2] == "; "
    ensures "; " <= a + b <==> a == "" || "; " <= a
  {
    if |a| == 1 {
      assert (a + b)[1] == b[0];
    } else if |a| >= 2 {
      assert (a + b)[..2] == a[..2];
    }
  }

  lemma Trimmed(all: string, text: string)
    ensures "; " <= all ==> (text == TrimPrefix(all, "; ") <==> "; " + text == all)
  {
    if "; " <= all {
      assert all == "; " + all[2..];
      assert ("; " + text)[2..] == text;
    }
  }

  /** Changes stand by object, within an object by field, and within a field by kind. */
  ghost predicate Stands(a: Change, b: Change) {
    && (a.owner == b.owner || Before(a.owner, b.owner))
    && (a.owner == b.owner ==> a.field == b.field || Before(a.field, b.field))
    && (a.owner == b.owner && a.field == b.field ==> a.kind == b.kind || Before(KindName(a.kind), KindName(b.kind)))
  }

  /**
   * The listing holds exactly the differences, each once: in particular a
   * field that a sample did not show is not called removed, nor breaking.
   * They stand by object, then by field, then by kind.
   */
  lemma ListedExactly(prior: seq<Object>, next: seq<Object>, out: seq<Change>)
    requires IsDiff(prior, next, out) && WellNamed(ByName(next))
    ensures forall c :: multiset(out)[c] == Once(Difference(ByName(prior), ByName(next), c))
    ensures forall i, j :: 0 <= i < j < |out| ==> Stands(out[i], out[j])
  {
    forall i, j | 0 <= i < j < |out| ensures Stands(out[i], out[j]) {
      BeforeTotal(out[i].owner, out[j].owner);
      BeforeTotal(out[i].field, out[j].field);
      BeforeTotal(KindName(out[i].kind), KindName(out[j].kind));
      if KindName(out[i].kind) == KindName(out[j].kind) { KindNamesDistinct(out[i].kind, out[j].kind); }
    }
    forall c ensures multiset(out)[c] == Once(Difference(ByName(prior), ByName(next), c)) {
      CountExactly(ByName(prior), ByName(next), c);
    }
  }

  lemma CountExactly(prior: Objects, next: Objects, c: Change)
    requires WellNamed(next)
    ensures Count(prior, next, c) == Once(Difference(prior, next, c))
  {
    if c.owner in prior && c.owner in next {
      var o, n := prior[c.owner], next[c.owner];
      ObjectCountExact(o, n, c);
      FieldNames(o.fields);
      FieldNames(n.fields);
      hide ObjectCount, Differs, Says, FieldsByName;
      SaysExactly(FieldsByName(o.fields), FieldsByName(n.fields), o.sampled || n.sampled, c);
    }
  }

  // ----- A catalog and itself ------------------------------------------------

  lemma {:induction false} ListedAt(owner: string, prior: Fields, fields: seq<Field>, sampled: bool, i: nat, c: Change)
    requires i < |fields| && c in FieldChange(owner, Remaining(prior, fields[..i]), fields[i], sampled)
    ensures c in FieldChanges(owner, prior, fields, sampled)
  {
    hide FieldChange, Remaining;
    if i < |fields| - 1 {
      var before := fields[..|fields| - 1];
      assert before[..i] == fields[..i];
      ListedAt(owner, prior, before, sampled, i, c);
    }
  }

  lemma RepeatedListed(o: Object, i: nat, j: nat)
    requires i < j < |o.fields| && o.fields[i].name == o.fields[j].name
    ensures ObjectCount(o, o, NewField(o.name, o.fields[j])) > 0
  {
    var c := NewField(o.name, o.fields[j]);
    assert o.fields[..j][i] == o.fields[i];
    assert o.fields[j].name !in Remaining(FieldsByName(o.fields), o.fields[..j]);
    ListedAt(o.name, FieldsByName(o.fields), o.fields, o.sampled, j, c);
  }

  lemma NothingReported(o: Object, c: Change)
    ensures !Reported(o, o, c)
  {
    FieldNames(o.fields);
  }

  lemma NothingListed(m: Objects, c: Change)
    requires WellNamed(m)
    ensures Count(m, m, c) == 0
  {
    if c.owner in m {
      ObjectCountExact(m[c.owner], m[c.owner], c);
      NothingReported(m[c.owner], c);
    }
  }

  /** A catalog differs from itself in nothing, exactly when no object has two fields of one name. */
  lemma DiffOfItself(objects: seq<Object>, out: seq<Change>)
    requires IsDiff(objects, objects, out)
    ensures out == [] <==> WellNamed(ByName(objects))
  {
    var m := ByName(objects);
    ObjectNames(objects);
    if WellNamed(m) {
      forall c ensures Count(m, m, c) == 0 { NothingListed(m, c); }
      assert forall c :: c !in multiset(out);
    } else {
      var k :| k in m && !UniqueFields(m[k].fields);
      var i, j :| 0 <= i < j < |m[k].fields| && m[k].fields[i].name == m[k].fields[j].name;
      RepeatedListed(m[k], i, j);
      assert NewField(k, m[k].fields[j]) in multiset(out);
    }
  }

  // ----- Writes --------------------------------------------------------------

  /** A value of some type and length, and the values a write sends by field. */
  datatype Value = Value(typ: string, length: nat)

  type Payload = map<string, Value>

  predicate Fits(f: Field, v: Value) {
    !f.readOnly && f.typ == v.typ && (f.length > 0 ==> v.length <= f.length)
  }

  /** A system takes a write when every value has a field it fits and no required field is missing. */
  ghost predicate Takes(fields: Fields, p: Payload) {
    && (forall k :: k in p ==> k in fields && Fits(fields[k], p[k]))
    && (forall k :: k in fields && fields[k].required ==> k in p)
  }

  ghost predicate Accepts(objects: seq<Object>, name: string, p: Payload) {
    name in ByName(objects) && Takes(FieldsByName(ByName(objects)[name].fields), p)
  }

  ghost predicate KeepsTaking(was: Fields, now: Fields) {
    forall p :: Takes(was, p) ==> Takes(now, p)
  }

  /** Every write the old catalog's object accepts, the new one's accepts. */
  ghost predicate KeepsWrites(prior: seq<Object>, next: seq<Object>, name: string) {
    forall p :: Accepts(prior, name, p) ==> Accepts(next, name, p)
  }

  /** An object both catalogs that hold it declare, with unique field names. */
  ghost predicate Declared(prior: seq<Object>, next: seq<Object>, name: string) {
    && name in ByName(prior) && !ByName(prior)[name].sampled
    && (name in ByName(next) ==> !ByName(next)[name].sampled && UniqueFields(ByName(next)[name].fields))
  }

  /** A change to the type, length or presence of a field that could not be written anyway. */
  predicate OfUnwritable(was: Fields, c: Change) {
    c.kind in {TypeChanged, LengthShrunk, FieldRemoved} && c.field in was && was[c.field].readOnly
  }

  ghost predicate Matters(was: Fields, now: Fields, c: Change) {
    Differs(was, now, false, c) && c.breaking && !OfUnwritable(was, c)
  }

  /** Some write exists: nothing is both required and read-only. */
  ghost predicate Writable(fields: Fields) {
    forall k :: k in fields && fields[k].required ==> !fields[k].readOnly
  }

  /** If nothing that matters changed, what the old fields take the new ones take. */
  lemma TakesStill(owner: string, was: Fields, now: Fields, p: Payload)
    requires Takes(was, p) && (forall k :: k in was ==> was[k].name == k) && (forall k :: k in now ==> now[k].name == k)
    requires forall c :: Matters(was, now, c) ==> c.owner != owner
    ensures Takes(now, p)
  {
    forall k | k in p ensures k in now && Fits(now[k], p[k]) {
      StillFits(owner, was, now, k, p[k]);
    }
    forall k | k in now && now[k].required ensures k in p {
      StillRequired(owner, was, now, k);
    }
  }

  /** The changes that matter, one by one. */
  lemma FieldMatters(owner: string, was: Fields, now: Fields, k: string)
    requires (k in was ==> was[k].name == k) && (k in now ==> now[k].name == k)
    ensures k in was && k !in now && !was[k].readOnly ==> Matters(was, now, Gone(owner, was[k], false))
    ensures k in now && k !in was && now[k].required ==> Matters(was, now, NewField(owner, now[k]))
    ensures k in was && k in now ==>
      var a, b := was[k], now[k];
      && (a.typ != b.typ && !a.readOnly ==> Matters(was, now, Change(TypeChanged, owner, k, a.typ, b.typ, true)))
      && (Shrunk(a, b) && !a.readOnly ==> Matters(was, now, Change(LengthShrunk, owner, k, Decimal(a.length), Decimal(b.length), true)))
      && (!a.readOnly && b.readOnly ==> Matters(was, now, Change(BecameReadOnly, owner, k, "", "", true)))
      && (!a.required && b.required ==> Matters(was, now, Change(BecameRequired, owner, k, "", b.requiredBy, true)))
  {
  }

  lemma StillFits(owner: string, was: Fields, now: Fields, k: string, v: Value)
    requires k in was && was[k].name == k && (k in now ==> now[k].name == k) && Fits(was[k], v)
    requires forall c :: Matters(was, now, c) ==> c.owner != owner
    ensures k in now && Fits(now[k], v)
  {
    FieldMatters(owner, was, now, k);
    hide Matters;
  }

  lemma StillRequired(owner: string, was: Fields, now: Fields, k: string)
    requires k in now && now[k].required && now[k].name == k && (k in was ==> was[k].name == k)
    requires forall c :: Matters(was, now, c) ==> c.owner != owner
    ensures k in was && was[k].required
  {
    FieldMatters(owner, was, now, k);
    hide Matters;
  }

  /** The smallest write: every required field, empty. */
  ghost function Smallest(fields: Fields): Payload {
    map k | k in fields && fields[k].required :: Value(fields[k].typ, 0)
  }

  /** A write that a change breaks: the smallest one, with the changed field as long as it may be. */
  ghost function Broken(was: Fields, now: Fields, c: Change): Payload {
    if c.kind in {FieldAdded, BecameRequired} || c.field !in was then Smallest(was)
    else
      var f := was[c.field];
      var length := if f.length > 0 then f.length else if c.field in now then now[c.field].length + 1 else 0;
      Smallest(was)[c.field := Value(f.typ, length)]
  }

  lemma BrokenWrite(was: Fields, now: Fields, c: Change)
    requires Writable(was) && Matters(was, now, c)
    requires (forall k :: k in was ==> was[k].name == k) && (forall k :: k in now ==> now[k].name == k)
    ensures Takes(was, Broken(was, now, c)) && !Takes(now, Broken(was, now, c))
  {
  }

  lemma InListing(prior: seq<Object>, next: seq<Object>, out: seq<Change>, c: Change)
    requires IsDiff(prior, next, out) && Declared(prior, next, c.owner)
    ensures c.owner in ByName(next) ==> (c in out <==> Reported(ByName(prior)[c.owner], ByName(next)[c.owner], c))
    ensures c.owner !in ByName(next) ==> (c in out <==> c == Removed(c.owner))
  {
    assert c in out <==> c in multiset(out);
    if c.owner in ByName(next) { ObjectCountExact(ByName(prior)[c.owner], ByName(next)[c.owner], c); }
    hide ObjectCount, Differs;
  }

  /** A breaking change listed about an object, other than of a field that could not be written. */
  ghost predicate Hurts(prior: seq<Object>, name: string, c: Change)
    requires name in ByName(prior)
  {
    c.owner == name && c.breaking && !OfUnwritable(FieldsByName(ByName(prior)[name].fields), c)
  }

  /**
   * The breaking flag is exact: every write that the old catalog accepts for a
   * declared object the new one accepts too, exactly when no change listed
   * about the object is breaking (other than of a field that could not be
   * written anyway), or the object took no write at all.
   */
  lemma BreakingIsExact(prior: seq<Object>, next: seq<Object>, out: seq<Change>, name: string)
    requires IsDiff(prior, next, out) && Declared(prior, next, name)
    ensures KeepsWrites(prior, next, name) <==>
      (Writable(FieldsByName(ByName(prior)[name].fields)) ==> forall c :: c in out ==> !Hurts(prior, name, c))
  {
    NoWrites(prior, next, name);
    if name in ByName(next) {
      HeldExactly(prior, next, out, name);
    } else {
      RemovalHurts(prior, next, out, name);
    }
    hide IsDiff, KeepsWrites, Writable, Hurts;
  }

  lemma NoWrites(prior: seq<Object>, next: seq<Object>, name: string)
    requires name in ByName(prior)
    ensures !Writable(FieldsByName(ByName(prior)[name].fields)) ==> KeepsWrites(prior, next, name)
  {
  }

  lemma MattersExactly(name: string, was: Fields, now: Fields)
    requires (forall k :: k in was ==> was[k].name == k) && (forall k :: k in now ==> now[k].name == k)
    ensures (forall c :: Matters(was, now, c) ==> c.owner != name) ==> KeepsTaking(was, now)
    ensures Writable(was) && KeepsTaking(was, now) ==> forall c :: Matters(was, now, c) ==> c.owner != name
  {
    if forall c :: Matters(was, now, c) ==> c.owner != name {
      forall p | Takes(was, p) ensures Takes(now, p) { TakesStill(name, was, now, p); }
    }
    forall c | Writable(was) && Matters(was, now, c) ensures !KeepsTaking(was, now) {
      BrokenWrite(was, now, c);
    }
  }

  lemma HurtsMatters(prior: seq<Object>, next: seq<Object>, out: seq<Change>, name: string, c: Change)
    requires IsDiff(prior, next, out) && Declared(prior, next, name) && name in ByName(next)
    ensures c in out && Hurts(prior, name, c) <==>
      Matters(FieldsByName(ByName(prior)[name].fields), FieldsByName(ByName(next)[name].fields), c) && c.owner == name
  {
    if c.owner == name { InListing(prior, next, out, c); }
    hide Differs, IsDiff, FieldsByName, ByName;
  }

  lemma HeldExactly(prior: seq<Object>, next: seq<Object>, out: seq<Change>, name: string)
    requires IsDiff(prior, next, out) && Declared(prior, next, name) && name in ByName(next)
    ensures (forall c :: c in out ==> !Hurts(prior, name, c)) ==> KeepsWrites(prior, next, name)
    ensures Writable(FieldsByName(ByName(prior)[name].fields)) && KeepsWrites(prior, next, name) ==> forall c :: c in out ==> !Hurts(prior, name, c)
  {
    var was, now := FieldsByName(ByName(prior)[name].fields), FieldsByName(ByName(next)[name].fields);
    FieldNames(ByName(prior)[name].fields);
    FieldNames(ByName(next)[name].fields);
    MattersExactly(name, was, now);
    KeepsAsTakes(prior, next, name);
    hide Matters, IsDiff, KeepsTaking, Writable, KeepsWrites, FieldsByName, ByName;
    forall c ensures c in out && Hurts(prior, name, c) <==> Matters(was, now, c) && c.owner == name {
      HurtsMatters(prior, next, out, name, c);
    }
    hide Hurts;
  }

  lemma KeepsAsTakes(prior: seq<Object>, next: seq<Object>, name: string)
    requires name in ByName(prior) && name in ByName(next)
    ensures KeepsWrites(prior, next, name) <==> KeepsTaking(FieldsByName(ByName(prior)[name].fields), FieldsByName(ByName(next)[name].fields))
  {
    var was, now := FieldsByName(ByName(prior)[name].fields), FieldsByName(ByName(next)[name].fields);
    hide Takes;
    if KeepsWrites(prior, next, name) {
      forall p | Takes(was, p) ensures Takes(now, p) { assert Accepts(prior, name, p); }
    }
    if KeepsTaking(was, now) {
      forall p | Accepts(prior, name, p) ensures Accepts(next, name, p) { assert Takes(was, p); }
    }
  }

  lemma RemovalHurts(prior: seq<Object>, next: seq<Object>, out: seq<Change>, name: string)
    requires IsDiff(prior, next, out) && Declared(prior, next, name) && name !in ByName(next)
    ensures exists c :: c in out && Hurts(prior, name, c)
    ensures Writable(FieldsByName(ByName(prior)[name].fields)) ==> !KeepsWrites(prior, next, name)
  {
    var was := FieldsByName(ByName(prior)[name].fields);
    InListing(prior, next, out, Removed(name));
    assert Hurts(prior, name, Removed(name));
    if Writable(was) { assert Accepts(prior, name, Smallest(was)) && !Accepts(next, name, Smallest(was)); }
  }
}
