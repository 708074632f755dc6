/**
 * Metadata drift: what changed between two catalogs of a system, and which
 * changes can break a write.  Links, labels, kinds of objects, uses and times take no
 * part in the comparison and are not modelled.
 */
module Meta {
  import opened Sorting

  /** A field; a length of 0 is unknown or unbounded. */
  datatype Field = Field(name: string, typ: string, length: nat, required: bool, requiredBy: string, key: bool, readOnly: bool)

  /** An object; sampled objects declare no schema, so their fields are those seen in recent records. */
  datatype Object = Object(name: string, fields: seq<Field>, sampled: bool)

  datatype Kind =
    ObjectAdded | ObjectRemoved | FieldAdded | FieldRemoved | TypeChanged | BecameRequired
  | LengthShrunk | BecameReadOnly | RequiredDropped | FieldNotSeen

  datatype Change = Change(kind: Kind, owner: string, field: string, was: string, now: string, breaking: bool)

  type Objects = map<string, Object>

  type Fields = map<string, Field>

  function KindName(kind: Kind): string {
    match kind
    case ObjectAdded => "object-added"
    case ObjectRemoved => "object-removed"
    case FieldAdded => "field-added"
    case FieldRemoved => "field-removed"
    case TypeChanged => "type-changed"
    case BecameRequired => "became-required"
    case LengthShrunk => "length-shrunk"
    case BecameReadOnly => "became-read-only"
    case RequiredDropped => "no-longer-required"
    case FieldNotSeen => "field-not-seen"
  }

  function Decimal(n: nat): string {
    (if n < 10 then "" else Decimal(n / 10)) + ["0123456789"[n % 10]]
  }

  /** The last object of each name. */
  function ByName(objects: seq<Object>): Objects {
    if objects == [] then map[]
    else var o := objects[|objects| - 1]; ByName(objects[..|objects| - 1])[o.name := o]
  }

  /** The last field of each name. */
  function FieldsByName(fields: seq<Field>): Fields {
    if fields == [] then map[]
    else var f := fields[|fields| - 1]; FieldsByName(fields[..|fields| - 1])[f.name := f]
  }

  // ----- Changes -------------------------------------------------------------

  function Removed(owner: string): Change { Change(ObjectRemoved, owner, "", "", "", true) }

  function Added(owner: string): Change { Change(ObjectAdded, owner, "", "", "", false) }

  function TrimPrefix(s: string, prefix: string): string {
    if prefix <= s then s[|prefix|..] else s
  }

  function NewField(owner: string, f: Field): Change {
    var now := if f.requiredBy == "" then f.typ else TrimPrefix(f.typ + "; required: " + f.requiredBy, "; ");
    Change(FieldAdded, owner, f.name, "", now, f.required)
  }

  /** A field only the old object has. */
  function Gone(owner: string, f: Field, sampled: bool): Change {
    if sampled then Change(FieldNotSeen, owner, f.name, f.typ, "", false)
    else Change(FieldRemoved, owner, f.name, f.typ, "", true)
  }

  predicate Retyped(was: Field, f: Field, sampled: bool) {
    was.typ != f.typ && !(sampled && (was.typ == "" || f.typ == ""))
  }

  predicate Shrunk(was: Field, f: Field) { f.length > 0 && (was.length == 0 || f.length < was.length) }

  /** What changed in a field both objects have. */
  function Altered(owner: string, was: Field, f: Field, sampled: bool): seq<Change> {
    (if Retyped(was, f, sampled) then [Change(TypeChanged, owner, f.name, was.typ, f.typ, true)] else [])
    + (if !was.required && f.required then [Change(BecameRequired, owner, f.name, "", f.requiredBy, true)] else [])
    + (if was.required && !f.required then [Change(RequiredDropped, owner, f.name, "", "", false)] else [])
    + (if Shrunk(was, f) then [Change(LengthShrunk, owner, f.name, Decimal(was.length), Decimal(f.length), true)] else [])
    + (if !was.readOnly && f.readOnly then [Change(BecameReadOnly, owner, f.name, "", "", true)] else [])
  }

  function FieldChange(owner: string, left: Fields, f: Field, sampled: bool): seq<Change> {
    if f.name !in left then [NewField(owner, f)] else Altered(owner, left[f.name], f, sampled)
  }

  /** The old fields that none of these new ones took. */
  function Remaining(prior: Fields, fields: seq<Field>): Fields {
    prior - set f | f in fields :: f.name
  }

  /** What the new object's fields change, each compared with the old fields still left. */
  function FieldChanges(owner: string, prior: Fields, fields: seq<Field>, sampled: bool): seq<Change> {
    if fields == [] then []
    else
      var before := fields[..|fields| - 1];
      FieldChanges(owner, prior, before, sampled) + FieldChange(owner, Remaining(prior, before), fields[|fields| - 1], sampled)
  }

  ghost function Once(condition: bool): nat { if condition then 1 else 0 }

  ghost function ObjectCount(o: Object, n: Object, c: Change): nat {
    var prior := FieldsByName(o.fields);
    var sampled := o.sampled || n.sampled;
    var left := Remaining(prior, n.fields);
    multiset(FieldChanges(c.owner, prior, n.fields, sampled))[c] + GoneCount(c.owner, left, sampled, c)
  }

  ghost function GoneCount(owner: string, left: Fields, sampled: bool, c: Change): nat {
    Once(c.owner == owner && c.field in left && c == Gone(owner, left[c.field], sampled))
  }

  /** How often a difference lists a change. */
  ghost function Count(prior: Objects, next: Objects, c: Change): nat {
    if c.owner in prior && c.owner in next then ObjectCount(prior[c.owner], next[c.owner], c)
    else if c.owner in prior then Once(c == Removed(c.owner))
    else Once(c.owner in next && c == Added(c.owner))
  }

  predicate Precedes(a: Change, b: Change) {
    if a.owner != b.owner then Before(a.owner, b.owner)
    else if a.field != b.field then Before(a.field, b.field)
    else Before(KindName(a.kind), KindName(b.kind))
  }

  /** A listing of every change as often as it is found, by object, field and kind. */
  ghost predicate IsDiff(prior: seq<Object>, next: seq<Object>, out: seq<Change>) {
    Ordered(out, Precedes) && Lists(ByName(prior), ByName(next), out)
  }

  ghost predicate Lists(prior: Objects, next: Objects, out: seq<Change>) {
    forall c :: multiset(out)[c] == Count(prior, next, c)
  }

  // ----- The comparison ------------------------------------------------------

  method Diff(prior: seq<Object>, next: seq<Object>) returns (out: seq<Change>)
    ensures IsDiff(prior, next, out)
  {
    hide Covers, Covered, CoversObject, Count, Precedes, WeakOrder, Ordered, ByName;
    var oldObjects := Index(prior);
    var newObjects := Index(next);
    out := [];
    var names := oldObjects.Keys;
    NothingCovered(oldObjects, newObjects);
    ghost var done: set<string> := {};
    while names != {}
      invariant done !! names && done + names == oldObjects.Keys
      invariant Covers(oldObjects, newObjects, done, out)
      decreases names
    {
      var name :| name in names;
      var found := if name in newObjects then [] else [Removed(name)];
      if name in newObjects {
        found := DiffObject(name, oldObjects[name], newObjects[name]);
        ObjectCovered(oldObjects, newObjects, name, found);
      }
      SingleCovered(oldObjects, newObjects, name);
      CoversMore(oldObjects, newObjects, done, out, name, found);
      names, done, out := names - {name}, done + {name}, out + found;
    }
    names := newObjects.Keys;
    while names != {}
      invariant oldObjects.Keys <= done && names <= newObjects.Keys && done == oldObjects.Keys + (newObjects.Keys - names)
      invariant Covers(oldObjects, newObjects, done, out)
      decreases names
    {
      var name :| name in names;
      if name !in oldObjects {
        SingleCovered(oldObjects, newObjects, name);
        CoversMore(oldObjects, newObjects, done, out, name, [Added(name)]);
        out := out + [Added(name)];
      } else {
        assert done + {name} == done;
      }
      names, done := names - {name}, done + {name};
    }
    PrecedesOrder();
    var sorted := Sort(out, Precedes);
    assert done == oldObjects.Keys + newObjects.Keys;
    AllCovered(oldObjects, newObjects, out, sorted);
    out := sorted;
  }

  /** A listing holds the changes about these objects and no others. */
  ghost predicate Covers(prior: Objects, next: Objects, done: set<string>, out: seq<Change>) {
    forall c :: multiset(out)[c] == if c.owner in done then Count(prior, next, c) else 0
  }

  ghost predicate Covered(prior: Objects, next: Objects, name: string, found: seq<Change>) {
    forall c :: multiset(found)[c] == if c.owner == name then Count(prior, next, c) else 0
  }

  ghost predicate CoversObject(name: string, o: Object, n: Object, found: seq<Change>) {
    forall c :: multiset(found)[c] == if c.owner == name then ObjectCount(o, n, c) else 0
  }

  lemma ObjectCovered(prior: Objects, next: Objects, name: string, found: seq<Change>)
    requires name in prior && name in next && CoversObject(name, prior[name], next[name], found)
    ensures Covered(prior, next, name, found)
  {
    hide ObjectCount;
  }

  lemma NothingCovered(prior: Objects, next: Objects)
    ensures Covers(prior, next, {}, [])
  {
  }

  lemma AllCovered(prior: Objects, next: Objects, out: seq<Change>, sorted: seq<Change>)
    requires Covers(prior, next, prior.Keys + next.Keys, out) && multiset(sorted) == multiset(out)
    ensures Lists(prior, next, sorted)
  {
    hide ObjectCount;
  }

  lemma SingleCovered(prior: Objects, next: Objects, name: string)
    ensures name in prior && name !in next ==> Covered(prior, next, name, [Removed(name)])
    ensures name !in prior && name in next ==> Covered(prior, next, name, [Added(name)])
  {
    hide ObjectCount;
  }

  lemma CoversMore(prior: Objects, next: Objects, done: set<string>, out: seq<Change>, name: string, found: seq<Change>)
    requires Covers(prior, next, done, out) && name !in done
    requires Covered(prior, next, name, found)
    ensures Covers(prior, next, done + {name}, out + found)
  {
    hide Count;
  }

  method Index(objects: seq<Object>) returns (m: Objects)
    ensures m == ByName(objects)
  {
    m := map[];
    for i := 0 to |objects|
      invariant m == ByName(objects[..i])
    {
      assert objects[..i + 1][..i] == objects[..i];
      m := m[objects[i].name := objects[i]];
    }
    assert objects[..|objects|] == objects;
  }

  method IndexFields(fields: seq<Field>) returns (m: Fields)
    ensures m == FieldsByName(fields)
  {
    m := map[];
    for i := 0 to |fields|
      invariant m == FieldsByName(fields[..i])
    {
      assert fields[..i + 1][..i] == fields[..i];
      m := m[fields[i].name := fields[i]];
    }
    assert fields[..|fields|] == fields;
  }

  /** The changes of one object that both catalogs hold. */
  method DiffObject(name: string, o: Object, n: Object) returns (out: seq<Change>)
    ensures CoversObject(name, o, n, out)
  {
    hide FieldChange, Remaining, FieldsByName, ObjectCount, GoneCount;
    var sampled := o.sampled || n.sampled;
    var left := IndexFields(o.fields);
    ghost var prior := left;
    RemainingMore(prior, [], Field("", "", 0, false, "", false, false));
    out := [];
    for i := 0 to |n.fields|
      invariant left == Remaining(prior, n.fields[..i])
      invariant out == FieldChanges(name, prior, n.fields[..i], sampled)
    {
      var f := n.fields[i];
      assert n.fields[..i + 1][..i] == n.fields[..i];
      out := out + FieldChange(name, left, f, sampled);
      RemainingMore(prior, n.fields[..i], f);
      assert n.fields[..i + 1] == n.fields[..i] + [f];
      left := left - {f.name};
    }
    assert n.fields[..|n.fields|] == n.fields;
    RemainingNames(o.fields, n.fields);
    var gone := Leftovers(name, left, sampled);
    SumsUp(name, o, n, out, gone);
    out := out + gone;
  }

  /** The old fields no new field took, in any order. */
  method Leftovers(name: string, left: Fields, sampled: bool) returns (out: seq<Change>)
    requires forall k :: k in left ==> left[k].name == k
    ensures forall c :: multiset(out)[c] == GoneCount(name, left, sampled, c)
  {
    out := [];
    var names := left.Keys;
    while names != {}
      invariant names <= left.Keys
      invariant forall c :: multiset(out)[c] == Once(c.owner == name && c.field in left && c.field !in names && c == Gone(name, left[c.field], sampled))
      decreases names
    {
      var k :| k in names;
      names := names - {k};
      out := out + [Gone(name, left[k], sampled)];
    }
  }

  lemma RemainingMore(prior: Fields, fields: seq<Field>, f: Field)
    ensures Remaining(prior, []) == prior
    ensures Remaining(prior, fields + [f]) == Remaining(prior, fields) - {f.name}
  {
  }

  lemma RemainingNames(prior: seq<Field>, fields: seq<Field>)
    ensures var left := Remaining(FieldsByName(prior), fields); forall k :: k in left ==> left[k].name == k
  {
    FieldNames(prior);
  }

  lemma {:induction false} FieldNames(fields: seq<Field>)
    ensures forall k :: k in FieldsByName(fields) ==> FieldsByName(fields)[k].name == k
    ensures forall k :: k in FieldsByName(fields) <==> exists i :: 0 <= i < |fields| && fields[i].name == k
    ensures forall k :: k in FieldsByName(fields) ==> FieldsByName(fields)[k] in fields
  {
    if fields != [] { FieldNames(fields[..|fields| - 1]); }
  }

  /** Every change of an object's fields names the object and the field. */
  lemma AboutField(owner: string, left: Fields, f: Field, sampled: bool)
    ensures forall c :: c in FieldChange(owner, left, f, sampled) ==> c.owner == owner && c.field == f.name
  {
  }

  /** The new field a change is about. */
  lemma {:induction false} FieldOf(owner: string, prior: Fields, fields: seq<Field>, sampled: bool, c: Change) returns (i: nat)
    requires c in FieldChanges(owner, prior, fields, sampled)
    ensures i < |fields| && fields[i].name == c.field && c.owner == owner
    ensures c in FieldChange(owner, Remaining(prior, fields[..i]), fields[i], sampled)
  {
    hide FieldChange, Remaining;
    var before := fields[..|fields| - 1];
    if c in FieldChanges(owner, prior, before, sampled) {
      i := FieldOf(owner, prior, before, sampled, c);
      assert before[..i] == fields[..i];
    } else {
      i := |fields| - 1;
      AboutField(owner, Remaining(prior, before), fields[i], sampled);
    }
  }

  lemma SumsUp(name: string, o: Object, n: Object, changes: seq<Change>, gone: seq<Change>)
    requires changes == FieldChanges(name, FieldsByName(o.fields), n.fields, o.sampled || n.sampled)
    requires forall c :: multiset(gone)[c] == GoneCount(name, Remaining(FieldsByName(o.fields), n.fields), o.sampled || n.sampled, c)
    ensures CoversObject(name, o, n, changes + gone)
  {
    hide FieldChanges, FieldsByName, Remaining, Gone;
    forall c ensures multiset(changes + gone)[c] == if c.owner == name then ObjectCount(o, n, c) else 0 {
      assert multiset(changes + gone)[c] == multiset(changes)[c] + multiset(gone)[c];
      if c.owner != name && c in changes { var _ := FieldOf(name, FieldsByName(o.fields), n.fields, o.sampled || n.sampled, c); }
      assert c.owner != name ==> c !in multiset(changes);
    }
  }

  lemma PrecedesOrder()
    ensures WeakOrder(Precedes)
  {
    forall x ensures !Precedes(x, x) {
      BeforeIrreflexive(KindName(x.kind));
    }
    forall x, y, z | Precedes(x, y) && Precedes(y, z) ensures Precedes(x, z) {
      PrecedesTransitive(x, y, z);
    }
    forall x, y, z | Precedes(x, z) ensures Precedes(x, y) || Precedes(y, z) {
      PrecedesWeak(x, y, z);
    }
  }

  lemma PrecedesTransitive(x: Change, y: Change, z: Change)
    requires Precedes(x, y) && Precedes(y, z)
    ensures Precedes(x, z)
  {
    StringsTransitive(x.owner, y.owner, z.owner);
    StringsTransitive(x.field, y.field, z.field);
    StringsTransitive(KindName(x.kind), KindName(y.kind), KindName(z.kind));
    hide KindName, Before;
  }

  lemma PrecedesWeak(x: Change, y: Change, z: Change)
    requires Precedes(x, z)
    ensures Precedes(x, y) || Precedes(y, z)
  {
    StringsWeak(x.owner, y.owner, z.owner);
    StringsWeak(x.field, y.field, z.field);
    StringsWeak(KindName(x.kind), KindName(y.kind), KindName(z.kind));
    hide KindName, Before;
  }
}
