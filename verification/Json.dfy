/** `canonicalize` of backend/organization-mapping/projections.js. An object is the sequence of its fields
    in enumeration order; numbers are taken as exact. */
module Json {
  import opened Sorting

  datatype Field = Field(key: string, value: Value)

  datatype Value =
    | Null
    | Bool(b: bool)
    | Num(n: real)
    | Str(s: string)
    | Arr(items: seq<Value>)
    | Obj(fields: seq<Field>)

  function KeyOf(f: Field): string {
    f.key
  }

  /** JavaScript objects never hold a key twice. */
  ghost predicate WellFormed(v: Value) {
    match v
    case Arr(items) => forall i | 0 <= i < |items| :: WellFormed(items[i])
    case Obj(fields) =>
      && DistinctKeys(fields, KeyOf)
      && forall i | 0 <= i < |fields| :: WellFormed(fields[i].value)
    case _ => true
  }

  function Canonicalize(v: Value): Value {
    match v
    case Arr(items) => Arr(CanonicalItems(items))
    case Obj(fields) => Obj(SortBy(CanonicalFields(fields), KeyOf))
    case _ => v
  }

  function CanonicalItems(items: seq<Value>): (r: seq<Value>)
    ensures |r| == |items| && forall i | 0 <= i < |items| :: r[i] == Canonicalize(items[i])
  {
    if items == [] then [] else [Canonicalize(items[0])] + CanonicalItems(items[1..])
  }

  function CanonicalFields(fields: seq<Field>): (r: seq<Field>)
    ensures |r| == |fields|
    ensures forall i | 0 <= i < |fields| :: r[i].key == fields[i].key && r[i].value == Canonicalize(fields[i].value)
  {
    if fields == [] then []
    else [Field(fields[0].key, Canonicalize(fields[0].value))] + CanonicalFields(fields[1..])
  }

  /** The two values differ at most in the order of object keys, at any depth. */
  ghost predicate Alike(a: Value, b: Value) {
    if a.Arr? && b.Arr? then
      && |a.items| == |b.items|
      && forall i | 0 <= i < |a.items| :: Alike(a.items[i], b.items[i])
    else if a.Obj? && b.Obj? then
      && |a.fields| == |b.fields|
      && forall i | 0 <= i < |a.fields| :: exists j | 0 <= j < |b.fields| ::
             a.fields[i].key == b.fields[j].key && Alike(a.fields[i].value, b.fields[j].value)
    else a == b
  }

  lemma CanonicalFieldsStayDistinct(fields: seq<Field>)
    requires DistinctKeys(fields, KeyOf)
    ensures DistinctKeys(CanonicalFields(fields), KeyOf)
  {
    assert Mapped(CanonicalFields(fields), KeyOf) == Mapped(fields, KeyOf);
  }

  /** Every field of the first object has a field of the same name and canonical value in the second. */
  ghost predicate FieldsMatch(fs: seq<Field>, gs: seq<Field>) {
    && |fs| == |gs|
    && forall i | 0 <= i < |fs| :: exists j | 0 <= j < |gs| ::
           fs[i].key == gs[j].key && Canonicalize(fs[i].value) == Canonicalize(gs[j].value)
  }

  lemma {:induction false} MatchingObjects(fs: seq<Field>, gs: seq<Field>)
    requires DistinctKeys(fs, KeyOf)
    ensures Canonicalize(Obj(fs)) == Canonicalize(Obj(gs)) <==> FieldsMatch(fs, gs)
  {
    var cf, cg := CanonicalFields(fs), CanonicalFields(gs);
    CanonicalFieldsStayDistinct(fs);
    SortsAgree(cf, cg, KeyOf);
    if forall f | f in cf :: f in cg {
      forall i | 0 <= i < |fs|
        ensures exists j | 0 <= j < |gs| ::
                  fs[i].key == gs[j].key && Canonicalize(fs[i].value) == Canonicalize(gs[j].value)
      {
        assert cf[i] in cg;
        var j :| 0 <= j < |cg| && cg[j] == cf[i];
      }
    }
    if FieldsMatch(fs, gs) {
      forall f | f in cf ensures f in cg {
        var i :| 0 <= i < |cf| && cf[i] == f;
        var j :| 0 <= j < |gs| && fs[i].key == gs[j].key && Canonicalize(fs[i].value) == Canonicalize(gs[j].value);
        assert cg[j] == f;
      }
    }
  }

  /** Canonicalization identifies two values exactly when they differ only in object key order. */
  lemma {:induction false} CanonicalExactlyWhenAlike(a: Value, b: Value)
    requires WellFormed(a) && WellFormed(b)
    ensures Canonicalize(a) == Canonicalize(b) <==> Alike(a, b)
    decreases a
  {
    if a.Arr? && b.Arr? {
      var xs, ys := CanonicalItems(a.items), CanonicalItems(b.items);
      forall i | 0 <= i < |a.items| && i < |b.items| ensures xs[i] == ys[i] <==> Alike(a.items[i], b.items[i]) {
        CanonicalExactlyWhenAlike(a.items[i], b.items[i]);
      }
    } else if a.Obj? && b.Obj? {
      MatchingObjects(a.fields, b.fields);
      forall i, j | 0 <= i < |a.fields| && 0 <= j < |b.fields|
        ensures Canonicalize(a.fields[i].value) == Canonicalize(b.fields[j].value) <==>
                  Alike(a.fields[i].value, b.fields[j].value)
      {
        CanonicalExactlyWhenAlike(a.fields[i].value, b.fields[j].value);
      }
    }
  }

  lemma CanonicalFieldsStay(fields: seq<Field>)
    requires Sorted(fields, KeyOf)
    requires forall i | 0 <= i < |fields| :: Canonicalize(fields[i].value) == fields[i].value
    ensures Canonicalize(Obj(fields)) == Obj(fields)
  {
    assert CanonicalFields(fields) == fields;
    SortOfSorted(fields, KeyOf);
  }

  lemma CanonicalObjectTwice(fields: seq<Field>)
    requires forall i | 0 <= i < |fields| ::
               Canonicalize(Canonicalize(fields[i].value)) == Canonicalize(fields[i].value)
    ensures Canonicalize(Canonicalize(Obj(fields))) == Canonicalize(Obj(fields))
  {
    var cf := CanonicalFields(fields);
    var sorted := SortBy(cf, KeyOf);
    SortPermutes(cf, KeyOf);
    SortSorts(cf, KeyOf);
    forall i | 0 <= i < |sorted| ensures Canonicalize(sorted[i].value) == sorted[i].value {
      assert sorted[i] in multiset(cf);
      var j :| 0 <= j < |cf| && cf[j] == sorted[i];
    }
    CanonicalFieldsStay(sorted);
  }

  /** Canonicalization is idempotent. */
  lemma {:induction false} CanonicalizeTwice(v: Value)
    ensures Canonicalize(Canonicalize(v)) == Canonicalize(v)
    decreases v
  {
    match v
    case Arr(items) =>
      forall i | 0 <= i < |items| ensures Canonicalize(Canonicalize(items[i])) == Canonicalize(items[i]) {
        CanonicalizeTwice(items[i]);
      }
      assert CanonicalItems(CanonicalItems(items)) == CanonicalItems(items);
    case Obj(fields) =>
      forall i | 0 <= i < |fields| ensures Canonicalize(Canonicalize(fields[i].value)) ==
             Canonicalize(fields[i].value) {
        CanonicalizeTwice(fields[i].value);
      }
      CanonicalObjectTwice(fields);
    case _ =>
  }
}
