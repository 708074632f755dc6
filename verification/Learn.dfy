/** Carrying what refused writes taught from one discovery of a system to the next. */
module Learning {
  import opened Meta
  import opened Drift
  import opened Sorting

  /** A field of a sampled object known to be required. */
  datatype Known = Known(owner: string, field: Field)

  // ----- What is carried -----------------------------------------------------

  predicate HasField(fields: seq<Field>, name: string) {
    exists i :: 0 <= i < |fields| && fields[i].name == name
  }

  function MarkField(g: Field, f: Field): Field {
    if g.name == f.name && !g.required then g.(required := true, requiredBy := f.requiredBy) else g
  }

  function Mark(fields: seq<Field>, f: Field): seq<Field> {
    seq(|fields|, i requires 0 <= i < |fields| => MarkField(fields[i], f))
  }

  function CarryField(n: Object, k: Known): Object {
    if n.name != k.owner || !n.sampled then n
    else n.(fields := if HasField(n.fields, k.field.name) then Mark(n.fields, k.field) else n.fields + [k.field])
  }

  function Carry(n: Object, known: seq<Known>): Object {
    if known == [] then n else CarryField(Carry(n, known[..|known| - 1]), known[|known| - 1])
  }

  function CarryAll(objects: seq<Object>, known: seq<Known>): seq<Object> {
    seq(|objects|, i requires 0 <= i < |objects| => Carry(objects[i], known))
  }

  function RequiredOf(owner: string, fields: seq<Field>): seq<Known> {
    if fields == [] then []
    else
      var f := fields[|fields| - 1];
      RequiredOf(owner, fields[..|fields| - 1]) + if f.required then [Known(owner, f)] else []
  }

  function KnownOf(prev: seq<Object>): seq<Known> {
    if prev == [] then []
    else
      var o := prev[|prev| - 1];
      KnownOf(prev[..|prev| - 1]) + if o.sampled then RequiredOf(o.name, o.fields) else []
  }

  // ----- A discovery under way -----------------------------------------------

  class Discovery {
    var objects: seq<Object>

    constructor (objects: seq<Object>)
      ensures this.objects == objects
    {
      this.objects := objects;
    }

    /** Carries in the fields of sampled objects that an earlier discovery knew to be required. */
    method KeepRequired(prev: seq<Object>)
      modifies this
      ensures objects == CarryAll(old(objects), KnownOf(prev))
    {
      ghost var found := objects;
      CarryNone(found);
      for i := 0 to |prev|
        invariant objects == CarryAll(found, KnownOf(prev[..i]))
      {
        var o := prev[i];
        assert prev[..i + 1][..i] == prev[..i];
        ghost var known := KnownOf(prev[..i]);
        assert KnownOf(prev[..i + 1]) == known + if o.sampled then RequiredOf(o.name, o.fields) else [];
        if !o.sampled {
          assert KnownOf(prev[..i + 1]) == known;
          continue;
        }
        assert known + RequiredOf(o.name, []) == known;
        for j := 0 to |o.fields|
          invariant objects == CarryAll(found, known + RequiredOf(o.name, o.fields[..j]))
        {
          var f := o.fields[j];
          assert o.fields[..j + 1][..j] == o.fields[..j];
          ghost var sofar := known + RequiredOf(o.name, o.fields[..j]);
          if !f.required {
            assert known + RequiredOf(o.name, o.fields[..j + 1]) == sofar;
            continue;
          }
          CarryIn(o.name, f);
          CarryOneMore(found, sofar, Known(o.name, f));
          assert known + RequiredOf(o.name, o.fields[..j + 1]) == sofar + [Known(o.name, f)];
        }
        assert o.fields[..|o.fields|] == o.fields;
      }
      assert prev[..|prev|] == prev;
    }

    /** Marks one field required wherever a sampled object of this name is found. */
    method CarryIn(owner: string, f: Field)
      modifies this
      ensures |objects| == |old(objects)|
      ensures forall i :: 0 <= i < |objects| ==> objects[i] == CarryField(old(objects)[i], Known(owner, f))
    {
      for i := 0 to |objects|
        invariant |objects| == |old(objects)|
        invariant forall k :: 0 <= k < i ==> objects[k] == CarryField(old(objects)[k], Known(owner, f))
        invariant forall k :: i <= k < |objects| ==> objects[k] == old(objects)[k]
      {
        var n := objects[i];
        if n.name != owner || !n.sampled { continue; }
        var found, fields := false, n.fields;
        ghost var held := objects;
        for j := 0 to |fields|
          invariant objects == held
          invariant |fields| == |n.fields|
          invariant forall k :: 0 <= k < j ==> fields[k] == MarkField(n.fields[k], f)
          invariant forall k :: j <= k < |fields| ==> fields[k] == n.fields[k]
          invariant found == HasField(n.fields[..j], f.name)
        {
          HasFieldMore(n.fields, j, f.name);
          if fields[j].name == f.name {
            found := true;
            if !fields[j].required { fields := fields[j := fields[j].(required := true, requiredBy := f.requiredBy)]; }
          }
        }
        assert n.fields[..|n.fields|] == n.fields;
        if found { assert fields == Mark(n.fields, f); } else {
          assert fields == n.fields;
          fields := fields + [f];
        }
        objects := objects[i := n.(fields := fields)];
      }
    }

    /**
     * Marks a sampled object's field required, adding it if no record had it;
     * tells whether that was news.
     */
    method Learn(owner: string, field: string, why: string) returns (news: bool)
      modifies this
      ensures objects == Learned(old(objects), owner, field, why)
      ensures news <==> objects != old(objects)
    {
      for i := 0 to |objects|
        invariant objects == old(objects) && forall k :: 0 <= k < i ==> !Sampling(objects[k], owner)
      {
        var o := objects[i];
        if !Sampling(o, owner) { continue; }
        LearnedAt(objects, owner, field, why, i);
        for j := 0 to |o.fields|
          invariant objects == old(objects) && forall k :: 0 <= k < j ==> o.fields[k].name != field
        {
          var f := o.fields[j];
          if f.name == field {
            LearnedFieldAt(o.fields, field, why, j);
            if f.required {
              assert objects[i := o] == objects;
              return false;
            }
            var fields := o.fields[j := f.(required := true, requiredBy := why)];
            assert fields[j] != o.fields[j];
            objects := objects[i := o.(fields := fields)];
            assert objects[i] != old(objects)[i];
            return true;
          }
        }
        LearnedFieldNew(o.fields, field, why);
        objects := objects[i := o.(fields := o.fields + [Field(field, "", 0, true, why, false, false)])];
        assert |objects[i].fields| != |old(objects)[i].fields|;
        return true;
      }
      LearnedNowhere(objects, owner, field, why);
      return false;
    }

    /** Sorts objects and their fields by name. */
    method Normalize()
      modifies this
      ensures Normal(objects) && Rearranged(old(objects), objects)
    {
      NameOrders();
      objects := Sort(objects, ObjectBefore);
      ghost var sorted := objects;
      for i := 0 to |objects|
        invariant |objects| == |sorted|
        invariant forall k :: 0 <= k < i ==> Ordered(objects[k].fields, FieldBefore) && SameButOrder(sorted[k], objects[k])
        invariant forall k :: i <= k < |objects| ==> objects[k] == sorted[k]
      {
        var fields := Sort(objects[i].fields, FieldBefore);
        objects := objects[i := objects[i].(fields := fields)];
      }
      SortedStays(sorted, objects);
      RearrangedThrough(old(objects), sorted, objects);
    }
  }

  // ----- Learning ------------------------------------------------------------

  predicate Sampling(o: Object, owner: string) { o.name == owner && o.sampled }

  function LearnedField(fields: seq<Field>, field: string, why: string): seq<Field> {
    if fields == [] then [Field(field, "", 0, true, why, false, false)]
    else if fields[0].name != field then [fields[0]] + LearnedField(fields[1..], field, why)
    else if fields[0].required then fields
    else [fields[0].(required := true, requiredBy := why)] + fields[1..]
  }

  function Learned(objects: seq<Object>, owner: string, field: string, why: string): seq<Object> {
    if objects == [] then []
    else if Sampling(objects[0], owner) then [objects[0].(fields := LearnedField(objects[0].fields, field, why))] + objects[1..]
    else [objects[0]] + Learned(objects[1..], owner, field, why)
  }

  lemma {:induction false} LearnedAt(objects: seq<Object>, owner: string, field: string, why: string, i: nat)
    requires i < |objects| && Sampling(objects[i], owner) && forall k :: 0 <= k < i ==> !Sampling(objects[k], owner)
    ensures Learned(objects, owner, field, why) == objects[i := objects[i].(fields := LearnedField(objects[i].fields, field, why))]
  {
    if i > 0 { LearnedAt(objects[1..], owner, field, why, i - 1); }
  }

  lemma {:induction false} LearnedNowhere(objects: seq<Object>, owner: string, field: string, why: string)
    requires forall k :: 0 <= k < |objects| ==> !Sampling(objects[k], owner)
    ensures Learned(objects, owner, field, why) == objects
  {
    if objects != [] { LearnedNowhere(objects[1..], owner, field, why); }
  }

  lemma {:induction false} LearnedFieldAt(fields: seq<Field>, field: string, why: string, j: nat)
    requires j < |fields| && fields[j].name == field && forall k :: 0 <= k < j ==> fields[k].name != field
    ensures LearnedField(fields, field, why) ==
      if fields[j].required then fields else fields[j := fields[j].(required := true, requiredBy := why)]
  {
    var marked := fields[j].(required := true, requiredBy := why);
    if j > 0 {
      LearnedFieldAt(fields[1..], field, why, j - 1);
      assert fields == [fields[0]] + fields[1..];
      assert fields[j := marked] == [fields[0]] + fields[1..][j - 1 := marked];
    } else {
      assert fields[0 := marked] == [marked] + fields[1..];
    }
  }

  lemma {:induction false} LearnedFieldNew(fields: seq<Field>, field: string, why: string)
    requires forall k :: 0 <= k < |fields| ==> fields[k].name != field
    ensures LearnedField(fields, field, why) == fields + [Field(field, "", 0, true, why, false, false)]
  {
    if fields != [] { LearnedFieldNew(fields[1..], field, why); }
  }

  // ----- Order ---------------------------------------------------------------

  predicate ObjectBefore(a: Object, b: Object) { Before(a.name, b.name) }

  predicate FieldBefore(a: Field, b: Field) { Before(a.name, b.name) }

  ghost predicate Normal(objects: seq<Object>) {
    Ordered(objects, ObjectBefore) && forall i :: 0 <= i < |objects| ==> Ordered(objects[i].fields, FieldBefore)
  }

  ghost predicate SameButOrder(a: Object, b: Object) {
    a.name == b.name && a.sampled == b.sampled && multiset(a.fields) == multiset(b.fields)
  }

  /** The same objects with the same fields, in any order. */
  ghost predicate Rearranged(a: seq<Object>, b: seq<Object>) {
    |a| == |b| && Within(a, b) && Within(b, a)
  }

  ghost predicate Within(a: seq<Object>, b: seq<Object>) {
    forall o :: o in a ==> exists p :: p in b && SameButOrder(o, p)
  }

  lemma Partner(a: seq<Object>, b: seq<Object>, o: Object) returns (p: Object)
    requires Within(a, b) && o in a
    ensures p in b && SameButOrder(o, p)
  {
    p :| p in b && SameButOrder(o, p);
  }

  lemma NameOrders()
    ensures WeakOrder(ObjectBefore) && WeakOrder(FieldBefore)
  {
    BeforeOrder();
  }

  lemma SortedStays(sorted: seq<Object>, objects: seq<Object>)
    requires Ordered(sorted, ObjectBefore) && |objects| == |sorted|
    requires forall k :: 0 <= k < |objects| ==> SameButOrder(sorted[k], objects[k])
    ensures Ordered(objects, ObjectBefore)
  {
  }

  lemma RearrangedThrough(a: seq<Object>, sorted: seq<Object>, b: seq<Object>)
    requires multiset(a) == multiset(sorted) && |b| == |sorted|
    requires forall k :: 0 <= k < |b| ==> SameButOrder(sorted[k], b[k])
    ensures Rearranged(a, b)
  {
    Elements(a, sorted);
    assert |a| == |multiset(a)| == |sorted|;
    forall o | o in a ensures exists p :: p in b && SameButOrder(o, p) {
      var k :| 0 <= k < |sorted| && sorted[k] == o;
      assert b[k] in b;
    }
    forall p | p in b ensures exists o :: o in a && SameButOrder(p, o) {
      var k :| 0 <= k < |b| && b[k] == p;
      assert sorted[k] in a;
    }
  }

  /** Catalogs that differ only in order are the same once normalized, when names are unique. */
  lemma NormalUnique(a: seq<Object>, b: seq<Object>)
    requires Normal(a) && Normal(b) && Rearranged(a, b) && UniqueObjects(a) && UniqueObjects(b)
    requires forall o :: o in a || o in b ==> UniqueFields(o.fields)
    ensures a == b
  {
    SameObjects(a, b);
    NameOrders();
    ObjectsSorted(a);
    ObjectsSorted(b);
    hide WeakOrder, ObjectBefore, UniqueObjects, UniqueFields, Rearranged;
    SortedUnique(a, b, ObjectBefore);
  }

  lemma SameObjects(a: seq<Object>, b: seq<Object>)
    requires Normal(a) && Normal(b) && Rearranged(a, b)
    requires forall o :: o in a || o in b ==> UniqueFields(o.fields)
    ensures SameElements(a, b)
  {
    hide Normal, UniqueFields, SameButOrder, Within;
    forall o | o in a ensures o in b {
      var p := Partner(a, b, o);
      FieldsSame(o, p, a, b);
    }
    forall p | p in b ensures p in a {
      var o := Partner(b, a, p);
      FieldsSame(p, o, b, a);
    }
  }

  lemma ObjectsSorted(a: seq<Object>)
    requires UniqueObjects(a) && Ordered(a, ObjectBefore)
    ensures Sorted(a, ObjectBefore)
  {
    forall i, j | 0 <= i < j < |a| ensures ObjectBefore(a[i], a[j]) { BeforeTotal(a[i].name, a[j].name); }
  }

  lemma FieldsSorted(fields: seq<Field>)
    requires UniqueFields(fields) && Ordered(fields, FieldBefore)
    ensures Sorted(fields, FieldBefore)
  {
    forall i, j | 0 <= i < j < |fields| ensures FieldBefore(fields[i], fields[j]) { BeforeTotal(fields[i].name, fields[j].name); }
  }

  lemma FieldsSame(o: Object, p: Object, a: seq<Object>, b: seq<Object>)
    requires Normal(a) && Normal(b) && o in a && p in b && SameButOrder(o, p) && UniqueFields(o.fields) && UniqueFields(p.fields)
    ensures o == p
  {
    FieldsSorted(o.fields);
    FieldsSorted(p.fields);
    Elements(o.fields, p.fields);
    NameOrders();
    SortedUnique(o.fields, p.fields, FieldBefore);
  }

  // ----- What is kept --------------------------------------------------------

  lemma CarryNone(objects: seq<Object>)
    ensures CarryAll(objects, []) == objects
  {
  }

  lemma CarryOneMore(objects: seq<Object>, known: seq<Known>, k: Known)
    ensures |CarryAll(objects, known + [k])| == |objects|
    ensures forall i :: 0 <= i < |objects| ==> CarryAll(objects, known + [k])[i] == CarryField(CarryAll(objects, known)[i], k)
  {
    assert (known + [k])[..|known|] == known;
  }

  lemma HasFieldMore(fields: seq<Field>, j: nat, name: string)
    requires j < |fields|
    ensures HasField(fields[..j + 1], name) <==> HasField(fields[..j], name) || fields[j].name == name
    ensures !HasField([], name)
  {
    var more, less := fields[..j + 1], fields[..j];
    assert forall i :: 0 <= i < j ==> more[i] == less[i];
    assert more[j] == fields[j];
  }

  ghost predicate Requires(o: Object, name: string) {
    exists i :: 0 <= i < |o.fields| && o.fields[i].name == name && o.fields[i].required
  }

  /** An object has the field, and wherever it does the field is required. */
  ghost predicate Firm(o: Object, name: string) {
    HasField(o.fields, name) && forall i :: 0 <= i < |o.fields| && o.fields[i].name == name ==> o.fields[i].required
  }

  ghost predicate KnownField(known: seq<Known>, owner: string, name: string) {
    exists i :: 0 <= i < |known| && known[i].owner == owner && known[i].field.name == name
  }

  ghost predicate AllRequired(known: seq<Known>) {
    forall i :: 0 <= i < |known| ==> known[i].field.required
  }

  lemma CarryFieldFirm(n: Object, k: Known, name: string)
    requires k.field.required && Sampling(n, k.owner)
    ensures Firm(CarryField(n, k), k.field.name)
    ensures Firm(n, name) ==> Firm(CarryField(n, k), name)
    ensures Requires(CarryField(n, k), name) <==> Requires(n, name) || name == k.field.name
  {
    var fields := CarryField(n, k).fields;
    assert forall i :: 0 <= i < |n.fields| ==> fields[i].name == n.fields[i].name && fields[i] == if HasField(n.fields, k.field.name) then MarkField(n.fields[i], k.field) else n.fields[i];
    if !HasField(n.fields, k.field.name) { assert fields[|n.fields|] == k.field; }
  }

  /** After carrying, a sampled object requires exactly what it did and what was known, and the latter in every occurrence. */
  lemma {:induction false} CarriedExactly(n: Object, known: seq<Known>, name: string)
    requires n.sampled && AllRequired(known)
    ensures Sampling(Carry(n, known), n.name)
    ensures KnownField(known, n.name, name) ==> Firm(Carry(n, known), name)
    ensures Requires(Carry(n, known), name) <==> Requires(n, name) || KnownField(known, n.name, name)
  {
    if known != [] {
      var before, k := known[..|known| - 1], known[|known| - 1];
      CarriedExactly(n, before, name);
      assert KnownField(known, n.name, name) <==> KnownField(before, n.name, name) || (k.owner == n.name && k.field.name == name) by {
        assert forall i :: 0 <= i < |before| ==> before[i] == known[i];
      }
      if k.owner == n.name { CarryFieldFirm(Carry(n, before), k, name); }
      hide Firm, Requires, KnownField;
    }
  }

  /** The same field, but for being required. */
  predicate SameField(f: Field, g: Field) {
    g == f.(required := g.required, requiredBy := g.requiredBy)
  }

  /** Where a required field comes from: the object itself, or a known field with its reason. */
  ghost predicate Explained(n: Object, known: seq<Known>, g: Field) {
    || (exists f :: f in n.fields && g == f)
    || (exists k :: k in known && k.owner == n.name && k.field.name == g.name && k.field.requiredBy == g.requiredBy)
  }

  /**
   * Carrying changes nothing else: the object's fields stay in place and
   * differ only in being required now, for the reason that was known, and
   * every other field is a known one, carried whole.
   */
  lemma {:induction false} CarriedOnly(n: Object, known: seq<Known>)
    ensures |n.fields| <= |Carry(n, known).fields|
    ensures forall i :: 0 <= i < |n.fields| ==> SameField(n.fields[i], Carry(n, known).fields[i])
    ensures forall i :: 0 <= i < |n.fields| && n.fields[i].required ==> Carry(n, known).fields[i] == n.fields[i]
    ensures forall i :: 0 <= i < |Carry(n, known).fields| ==> Explained(n, known, Carry(n, known).fields[i])
    ensures AllRequired(known) ==> forall i :: |n.fields| <= i < |Carry(n, known).fields| ==> IsKnown(n, known, Carry(n, known).fields[i])
  {
    if known == [] {
      forall i | 0 <= i < |n.fields| ensures Explained(n, known, n.fields[i]) { assert n.fields[i] in n.fields; }
    } else {
      var before, k := known[..|known| - 1], known[|known| - 1];
      CarriedOnly(n, before);
      CarryName(n, before);
      var was, now := Carry(n, before), Carry(n, known);
      assert known == before + [k];
      forall i | 0 <= i < |now.fields| ensures Explained(n, known, now.fields[i]) {
        OneCarried(n, before, was, k, i);
      }
      if AllRequired(known) {
        forall i | |n.fields| <= i < |now.fields| ensures IsKnown(n, known, now.fields[i]) {
          OneAdded(n, before, was, k, i);
        }
      }
    }
  }

  /** A field carried whole: type, length, marks and reason. */
  ghost predicate IsKnown(n: Object, known: seq<Known>, g: Field) {
    g.required && exists k :: k in known && k.owner == n.name && k.field == g
  }

  lemma OneAdded(n: Object, before: seq<Known>, was: Object, k: Known, i: nat)
    requires was.name == n.name && was.sampled == n.sampled && i < |CarryField(was, k).fields| && k.field.required
    requires i < |was.fields| ==> IsKnown(n, before, was.fields[i])
    ensures IsKnown(n, before + [k], CarryField(was, k).fields[i])
  {
    assert k in before + [k] && forall x :: x in before ==> x in before + [k];
    if i < |was.fields| { assert CarryField(was, k).fields[i] == was.fields[i]; }
  }

  lemma OneCarried(n: Object, before: seq<Known>, was: Object, k: Known, i: nat)
    requires was.name == n.name && was.sampled == n.sampled && i < |CarryField(was, k).fields|
    requires forall j :: 0 <= j < |was.fields| ==> Explained(n, before, was.fields[j])
    ensures Explained(n, before + [k], CarryField(was, k).fields[i])
  {
    var g := CarryField(was, k).fields[i];
    assert k in before + [k] && forall x :: x in before ==> x in before + [k];
    if i < |was.fields| && g == was.fields[i] {
      assert Explained(n, before, g);
    } else {
      assert k.owner == n.name && k.field.name == g.name && k.field.requiredBy == g.requiredBy;
    }
  }

  lemma {:induction false} KnownOfRequired(prev: seq<Object>)
    ensures AllRequired(KnownOf(prev))
  {
    if prev != [] {
      KnownOfRequired(prev[..|prev| - 1]);
      RequiredOfRequired(prev[|prev| - 1].name, prev[|prev| - 1].fields);
    }
  }

  lemma {:induction false} RequiredOfRequired(owner: string, fields: seq<Field>)
    ensures AllRequired(RequiredOf(owner, fields))
  {
    if fields != [] { RequiredOfRequired(owner, fields[..|fields| - 1]); }
  }

  lemma {:induction false} RequiredOfHas(owner: string, fields: seq<Field>, i: nat)
    requires i < |fields| && fields[i].required
    ensures KnownField(RequiredOf(owner, fields), owner, fields[i].name)
  {
    var known := RequiredOf(owner, fields[..|fields| - 1]);
    if i == |fields| - 1 {
      assert RequiredOf(owner, fields)[|known|] == Known(owner, fields[i]);
    } else {
      RequiredOfHas(owner, fields[..|fields| - 1], i);
      KnownWider(known, RequiredOf(owner, fields)[|known|..], owner, fields[i].name);
      assert RequiredOf(owner, fields) == known + RequiredOf(owner, fields)[|known|..];
    }
  }

  lemma KnownWider(a: seq<Known>, b: seq<Known>, owner: string, name: string)
    ensures KnownField(a, owner, name) ==> KnownField(a + b, owner, name)
    ensures KnownField(b, owner, name) ==> KnownField(a + b, owner, name)
  {
    if KnownField(a, owner, name) {
      var i :| 0 <= i < |a| && a[i].owner == owner && a[i].field.name == name;
      assert (a + b)[i] == a[i];
    }
    if KnownField(b, owner, name) {
      var i :| 0 <= i < |b| && b[i].owner == owner && b[i].field.name == name;
      assert (a + b)[|a| + i] == b[i];
    }
  }

  lemma {:induction false} KnownOfHas(prev: seq<Object>, o: Object, name: string)
    requires o in prev && o.sampled && Requires(o, name)
    ensures KnownField(KnownOf(prev), o.name, name)
  {
    var before, last := prev[..|prev| - 1], prev[|prev| - 1];
    var known, more := KnownOf(before), if last.sampled then RequiredOf(last.name, last.fields) else [];
    KnownWider(known, more, o.name, name);
    if o in before {
      KnownOfHas(before, o, name);
    } else {
      var i :| 0 <= i < |o.fields| && o.fields[i].name == name && o.fields[i].required;
      RequiredOfHas(o.name, o.fields, i);
    }
  }

  // ----- Chains of discoveries -----------------------------------------------

  /** A discovery with the known fields carried in, saved in normal order. */
  ghost predicate Saved(prev: seq<Object>, discovered: seq<Object>, saved: seq<Object>) {
    Rearranged(CarryAll(discovered, KnownOf(prev)), saved)
  }

  /** The object is there, and wherever it is it is sampled. */
  ghost predicate Present(objects: seq<Object>, owner: string) {
    (exists o :: o in objects && o.name == owner) && forall o :: o in objects && o.name == owner ==> o.sampled
  }

  ghost predicate FirmIn(objects: seq<Object>, owner: string, name: string) {
    Present(objects, owner) && forall o :: o in objects && o.name == owner ==> Firm(o, name)
  }

  ghost predicate RequiredIn(objects: seq<Object>, owner: string, name: string) {
    exists o :: o in objects && Sampling(o, owner) && Requires(o, name)
  }

  lemma FirmOrder(o: Object, p: Object, name: string)
    requires SameButOrder(o, p) && Firm(o, name)
    ensures Firm(p, name)
  {
    Elements(o.fields, p.fields);
    var i :| 0 <= i < |o.fields| && o.fields[i].name == name;
    assert o.fields[i] in p.fields;
    forall j | 0 <= j < |p.fields| && p.fields[j].name == name ensures p.fields[j].required {
      assert p.fields[j] in o.fields;
    }
  }

  lemma FirmRequires(objects: seq<Object>, owner: string, name: string)
    requires FirmIn(objects, owner, name)
    ensures RequiredIn(objects, owner, name)
  {
    var o :| o in objects && o.name == owner;
    assert Firm(o, name);
    assert Requires(o, name);
  }

  lemma CarriedFirm(objects: seq<Object>, known: seq<Known>, owner: string, name: string)
    requires Present(objects, owner) && AllRequired(known) && KnownField(known, owner, name)
    ensures FirmIn(CarryAll(objects, known), owner, name)
  {
    var carried := CarryAll(objects, known);
    forall i | 0 <= i < |objects| ensures carried[i].name == objects[i].name && (carried[i].name == owner ==> carried[i].sampled && Firm(carried[i], name)) {
      CarryName(objects[i], known);
      if objects[i].name == owner {
        assert objects[i] in objects;
        CarriedExactly(objects[i], known, name);
      }
    }
    var o :| o in objects && o.name == owner;
    var i :| 0 <= i < |objects| && objects[i] == o;
    assert carried[i] in carried;
  }

  lemma {:induction false} CarryName(n: Object, known: seq<Known>)
    ensures Carry(n, known).name == n.name && Carry(n, known).sampled == n.sampled
    ensures !n.sampled ==> Carry(n, known) == n
  {
    if known != [] { CarryName(n, known[..|known| - 1]); }
  }

  lemma RearrangedFirm(a: seq<Object>, b: seq<Object>, owner: string, name: string)
    requires Rearranged(a, b) && FirmIn(a, owner, name)
    ensures FirmIn(b, owner, name)
  {
    hide Within, Firm;
    var o :| o in a && o.name == owner;
    var q := Partner(a, b, o);
    forall p | p in b && p.name == owner ensures p.sampled && Firm(p, name) {
      var o := Partner(b, a, p);
      FirmOrder(o, p, name);
    }
  }

  /** One discovery keeps what was known. */
  lemma SavedFirm(prev: seq<Object>, discovered: seq<Object>, saved: seq<Object>, owner: string, name: string)
    requires Saved(prev, discovered, saved) && Present(discovered, owner) && RequiredIn(prev, owner, name)
    ensures FirmIn(saved, owner, name)
  {
    KnownOfRequired(prev);
    var o :| o in prev && Sampling(o, owner) && Requires(o, name);
    KnownOfHas(prev, o, name);
    CarriedFirm(discovered, KnownOf(prev), owner, name);
    RearrangedFirm(CarryAll(discovered, KnownOf(prev)), saved, owner, name);
  }

  /** Each snapshot is the next discovery, with what the last snapshot knew. */
  ghost predicate Chain(first: seq<Object>, discovered: seq<seq<Object>>, saved: seq<seq<Object>>) {
    |saved| == |discovered| && forall i :: 0 <= i < |saved| ==> Follows(first, discovered, saved, i)
  }

  ghost predicate Follows(first: seq<Object>, discovered: seq<seq<Object>>, saved: seq<seq<Object>>, i: nat)
    requires i < |saved| == |discovered|
  {
    Saved(Previous(first, saved, i), discovered[i], Previous(first, saved, i + 1))
  }

  ghost function Previous(first: seq<Object>, saved: seq<seq<Object>>, i: nat): seq<Object>
    requires i <= |saved|
  {
    if i == 0 then first else saved[i - 1]
  }

  /** What is learned is known from then on, whenever there is a sampled object to learn it of; nothing else changes. */
  lemma {:induction false} LearnedIsKnown(objects: seq<Object>, owner: string, field: string, why: string)
    ensures RequiredIn(Learned(objects, owner, field, why), owner, field) <==> exists o :: o in objects && Sampling(o, owner)
    ensures |Learned(objects, owner, field, why)| == |objects|
    ensures forall i :: 0 <= i < |objects| && !Sampling(objects[i], owner) ==> Learned(objects, owner, field, why)[i] == objects[i]
  {
    var after := Learned(objects, owner, field, why);
    if i :| 0 <= i < |objects| && Sampling(objects[i], owner) {
      var first := FirstSampling(objects, owner, i);
      LearnedAt(objects, owner, field, why, first);
      LearnedFieldRequires(objects[first], field, why);
      assert after[first] in after;
    } else {
      LearnedNowhere(objects, owner, field, why);
    }
  }

  lemma {:induction false} FirstSampling(objects: seq<Object>, owner: string, i: nat) returns (first: nat)
    requires i < |objects| && Sampling(objects[i], owner)
    ensures first <= i && Sampling(objects[first], owner) && forall k :: 0 <= k < first ==> !Sampling(objects[k], owner)
  {
    first := i;
    if k :| 0 <= k < i && Sampling(objects[k], owner) { first := FirstSampling(objects, owner, k); }
  }

  /** A field as it was, but now required: for the reason given, unless it was required before. */
  ghost predicate NowRequired(f: Field, g: Field, why: string) {
    SameField(f, g) && g.required && g.requiredBy == if f.required then f.requiredBy else why
  }

  /** A field nothing is known of but its name and why it is required. */
  ghost predicate OnlyRequired(g: Field, field: string, why: string) {
    g.name == field && g.required && g.requiredBy == why && g.typ == "" && g.length == 0 && !g.key && !g.readOnly
  }

  /** The first field of the name is now required, or one more field is; the others stay. */
  ghost predicate LearnedIn(o: Object, p: Object, field: string, why: string) {
    && p.name == o.name && p.sampled == o.sampled
    && (forall j :: FirstNamed(o.fields, field, j) ==>
         && |p.fields| == |o.fields| && NowRequired(o.fields[j], p.fields[j], why)
         && forall k :: 0 <= k < |o.fields| && k != j ==> p.fields[k] == o.fields[k])
    && (!HasField(o.fields, field) ==>
         |p.fields| == |o.fields| + 1 && p.fields[..|o.fields|] == o.fields && OnlyRequired(p.fields[|o.fields|], field, why))
  }

  predicate FirstNamed(fields: seq<Field>, field: string, j: int) {
    0 <= j < |fields| && fields[j].name == field && forall k :: 0 <= k < j ==> fields[k].name != field
  }

  /** What is learned, and by which object: the first sampled one of the name. */
  lemma LearnedExactly(objects: seq<Object>, owner: string, field: string, why: string, i: nat)
    requires i < |objects| && |Learned(objects, owner, field, why)| == |objects|
    ensures var p := Learned(objects, owner, field, why)[i];
      if Sampling(objects[i], owner) && (forall k :: 0 <= k < i ==> !Sampling(objects[k], owner)) then LearnedIn(objects[i], p, field, why)
      else p == objects[i]
  {
    if k :| 0 <= k < |objects| && Sampling(objects[k], owner) {
      var first := FirstSampling(objects, owner, k);
      LearnedAt(objects, owner, field, why, first);
      if i == first { FieldLearned(objects[i], field, why); }
    } else {
      LearnedNowhere(objects, owner, field, why);
    }
  }

  lemma FieldLearned(o: Object, field: string, why: string)
    ensures LearnedIn(o, o.(fields := LearnedField(o.fields, field, why)), field, why)
  {
    if HasField(o.fields, field) {
      forall j | FirstNamed(o.fields, field, j)
        ensures var r := LearnedField(o.fields, field, why);
          |r| == |o.fields| && NowRequired(o.fields[j], r[j], why) && forall k :: 0 <= k < |o.fields| && k != j ==> r[k] == o.fields[k]
      {
        LearnedFieldAt(o.fields, field, why, j);
      }
    } else {
      LearnedFieldNew(o.fields, field, why);
    }
  }

  lemma LearnedFieldRequires(o: Object, field: string, why: string)
    ensures Requires(o.(fields := LearnedField(o.fields, field, why)), field)
  {
    var i := RequiredAt(o.fields, field, why);
  }

  lemma {:induction false} RequiredAt(fields: seq<Field>, field: string, why: string) returns (i: nat)
    ensures var r := LearnedField(fields, field, why); i < |r| && r[i].name == field && r[i].required
  {
    i := 0;
    if fields != [] && fields[0].name != field {
      i := RequiredAt(fields[1..], field, why);
      i := i + 1;
    }
  }

  /**
   * Once known to be required, a field of an object that stays present and
   * sampled is required in every later snapshot ...
   */
  lemma {:induction false} RequiredForever(first: seq<Object>, discovered: seq<seq<Object>>, saved: seq<seq<Object>>, owner: string, name: string, i: nat, j: nat)
    requires Chain(first, discovered, saved) && i < j <= |saved|
    requires RequiredIn(Previous(first, saved, i), owner, name)
    requires forall k :: i <= k < j ==> Present(discovered[k], owner)
    ensures FirmIn(Previous(first, saved, j), owner, name)
    decreases j
  {
    assert Follows(first, discovered, saved, j - 1);
    hide Previous, Saved, Present, FirmIn, RequiredIn;
    if i < j - 1 {
      RequiredForever(first, discovered, saved, owner, name, i, j - 1);
      FirmRequires(Previous(first, saved, j - 1), owner, name);
    }
    SavedFirm(Previous(first, saved, j - 1), discovered[j - 1], Previous(first, saved, j), owner, name);
  }

  /** ... so no difference to a later snapshot lists it as no longer required, not seen or removed. */
  lemma NeverReportedLost(prior: seq<Object>, next: seq<Object>, out: seq<Change>, owner: string, name: string, c: Change)
    requires FirmIn(next, owner, name) && IsDiff(prior, next, out)
    requires c in out && c.owner == owner && c.field == name
    ensures c.kind !in {RequiredDropped, FieldNotSeen, FieldRemoved, ObjectRemoved}
  {
    ObjectNames(next);
    assert c in multiset(out);
    var o :| o in next && o.name == owner;
    assert owner in ByName(next);
    var n := ByName(next)[owner];
    assert Firm(n, name);
    if owner in ByName(prior) { FirmNotLost(ByName(prior)[owner], n, name, c); }
  }

  lemma FirmNotLost(o: Object, n: Object, name: string, c: Change)
    requires Firm(n, name) && ObjectCount(o, n, c) > 0 && c.field == name
    ensures c.kind !in {RequiredDropped, FieldNotSeen, FieldRemoved, ObjectRemoved}
  {
    var prior, sampled := FieldsByName(o.fields), o.sampled || n.sampled;
    FirmTaken(prior, n, name);
    hide FieldsByName, FieldChanges, FieldChange, Remaining, Gone;
    assert c in multiset(FieldChanges(c.owner, prior, n.fields, sampled));
    var i := FieldOf(c.owner, prior, n.fields, sampled, c);
    RequiredNotLost(c.owner, Remaining(prior, n.fields[..i]), n.fields[i], sampled, c);
  }

  lemma FirmTaken(prior: Fields, n: Object, name: string)
    requires Firm(n, name)
    ensures name !in Remaining(prior, n.fields)
  {
    var k :| 0 <= k < |n.fields| && n.fields[k].name == name;
    assert n.fields[k] in n.fields;
  }

  lemma RequiredNotLost(owner: string, left: Fields, f: Field, sampled: bool, c: Change)
    requires c in FieldChange(owner, left, f, sampled) && f.required
    ensures c.kind !in {RequiredDropped, FieldNotSeen, FieldRemoved, ObjectRemoved}
  {
  }
}
