/** The text hashed for a snapshot: as the API writes it, and as the worker recomputes it. */
module CanonicalJson {
  import opened Wrappers
  import opened Sorting
  import opened StableSort
  import opened JsonText
  import Decimal

  /** No object repeats a key. */
  ghost predicate WellFormed(v: Json)
    decreases v
  {
    match v
    case Arr(items) => forall i :: 0 <= i < |items| ==> WellFormed(items[i])
    case Obj(fields) =>
      && DistinctKeys(fields)
      && forall i :: 0 <= i < |fields| ==> WellFormed(fields[i].value)
    case _ => true
  }

  ghost predicate DistinctKeys(fields: seq<Field>) {
    forall i, j :: 0 <= i < j < |fields| ==> fields[i].key != fields[j].key
  }

  /** Equality up to the order of object properties. */
  ghost predicate SameValue(a: Json, b: Json)
    decreases a
  {
    match a
    case Arr(items) =>
      b.Arr? && |items| == |b.items| && forall i :: 0 <= i < |items| ==> SameValue(items[i], b.items[i])
    case Obj(fields) =>
      b.Obj? && |fields| == |b.fields| && forall i :: 0 <= i < |fields| ==> HasField(fields[i], b.fields)
    case _ => a == b
  }

  ghost predicate HasField(f: Field, fields: seq<Field>)
    decreases f
  {
    exists j :: 0 <= j < |fields| && fields[j].key == f.key && SameValue(f.value, fields[j].value)
  }

  // ---- The API's text ----

  predicate RenderedLe(a: Rendered, b: Rendered) { LexLe(a.key, b.key) }

  predicate FieldLe(a: Field, b: Field) { LexLe(a.key, b.key) }

  /** Objects are written with their keys in code unit order. */
  function StableJson(v: Json): Text
    decreases v
  {
    match v
    case Arr(items) => [91] + Join(StableItems(items)) + [93]
    case Obj(fields) => [123] + Join(Pairs(Sort(StableFields(fields), RenderedLe))) + [125]
    case _ => Render(v)
  }

  function StableItems(items: seq<Json>): seq<Text>
    decreases items
  {
    if items == [] then [] else [StableJson(items[0])] + StableItems(items[1..])
  }

  function StableFields(fields: seq<Field>): seq<Rendered>
    decreases fields
  {
    if fields == [] then [] else [Rendered(fields[0].key, StableJson(fields[0].value))] + StableFields(fields[1..])
  }

  /** The value with every object's properties put in code unit order. */
  function Normal(v: Json): Json
    decreases v
  {
    match v
    case Arr(items) => Arr(NormalItems(items))
    case Obj(fields) => Obj(Sort(NormalFields(fields), FieldLe))
    case _ => v
  }

  function NormalItems(items: seq<Json>): (r: seq<Json>)
    ensures |r| == |items| && forall i :: 0 <= i < |r| ==> r[i] == Normal(items[i])
    decreases items
  {
    if items == [] then [] else [Normal(items[0])] + NormalItems(items[1..])
  }

  function NormalFields(fields: seq<Field>): (r: seq<Field>)
    ensures |r| == |fields| && forall i :: 0 <= i < |r| ==> r[i] == Field(fields[i].key, Normal(fields[i].value))
    decreases fields
  {
    if fields == [] then [] else [Field(fields[0].key, Normal(fields[0].value))] + NormalFields(fields[1..])
  }

  lemma {:induction false} InsertRendered(f: Field, fields: seq<Field>)
    ensures RenderFields(Insert(f, fields, FieldLe))
         == Insert(Rendered(f.key, Render(f.value)), RenderFields(fields), RenderedLe)
  {
    if fields == [] || FieldLe(f, fields[0]) {
      assert ([f] + fields)[1..] == fields;
    } else {
      InsertRendered(f, fields[1..]);
      var rest := Insert(f, fields[1..], FieldLe);
      assert ([fields[0]] + rest)[1..] == rest;
    }
  }

  lemma {:induction false} SortRendered(fields: seq<Field>)
    ensures RenderFields(Sort(fields, FieldLe)) == Sort(RenderFields(fields), RenderedLe)
  {
    if fields != [] {
      SortRendered(fields[1..]);
      InsertRendered(fields[0], Sort(fields[1..], FieldLe));
    }
  }

  /** The API's text is the text of the normal form. */
  lemma {:induction false} StableIsNormal(v: Json)
    ensures StableJson(v) == Render(Normal(v))
    decreases v
  {
    match v
    case Arr(items) => StableItemsAreNormal(items);
    case Obj(fields) =>
      StableFieldsAreNormal(fields);
      SortRendered(NormalFields(fields));
    case _ =>
  }

  lemma {:induction false} StableItemsAreNormal(items: seq<Json>)
    ensures StableItems(items) == RenderItems(NormalItems(items))
    decreases items
  {
    if items != [] {
      StableIsNormal(items[0]);
      StableItemsAreNormal(items[1..]);
      assert NormalItems(items)[1..] == NormalItems(items[1..]);
    }
  }

  lemma {:induction false} StableFieldsAreNormal(fields: seq<Field>)
    ensures StableFields(fields) == RenderFields(NormalFields(fields))
    decreases fields
  {
    if fields != [] {
      StableIsNormal(fields[0].value);
      StableFieldsAreNormal(fields[1..]);
      assert NormalFields(fields)[1..] == NormalFields(fields[1..]);
    }
  }

  // ---- Equal texts mean equal values ----

  lemma FieldOrder()
    ensures TotalPreorder(FieldLe)
    ensures forall a, b :: FieldLe(a, b) && FieldLe(b, a) ==> a.key == b.key
  {
    LexIsTotalOrder();
    forall x, y ensures FieldLe(x, y) || FieldLe(y, x) {
      assert LexLe(x.key, y.key) || LexLe(y.key, x.key);
    }
    forall x, y, z | FieldLe(x, y) && FieldLe(y, z) ensures FieldLe(x, z) {
      assert LexLe(x.key, y.key) && LexLe(y.key, z.key);
    }
    forall x, y | FieldLe(x, y) && FieldLe(y, x) ensures x.key == y.key {
      assert LexLe(x.key, y.key) && LexLe(y.key, x.key);
    }
  }

  lemma KeysIdentify(fields: seq<Field>)
    requires DistinctKeys(fields)
    ensures Distinct(fields)
    ensures forall x, y :: x in fields && y in fields && x.key == y.key ==> x == y
  {
  }

  /** Arrangements of the same properties sort to the same list. */
  lemma SortedFieldsEqual(a: seq<Field>, b: seq<Field>)
    requires DistinctKeys(a) && multiset(a) == multiset(b)
    ensures Sort(a, FieldLe) == Sort(b, FieldLe)
  {
    FieldOrder();
    KeysIdentify(a);
    SortForgetsOrder(a, b, FieldLe);
  }

  lemma {:induction false} DistinctSize<T>(s: seq<T>)
    requires Distinct(s)
    ensures |set x | x in s| == |s|
  {
    if s != [] {
      DistinctSize(s[1..]);
      var rest := set x | x in s[1..];
      assert s[0] !in rest;
      assert (set x | x in s) == rest + {s[0]};
    }
  }

  lemma SubsetOfSameSize<T>(a: set<T>, b: set<T>)
    requires a <= b && |a| == |b|
    ensures a == b
  {
    assert b == a + (b - a);
    assert |b| == |a| + |b - a|;
  }

  /** A list of distinct elements contained in another of the same length is an arrangement of it. */
  lemma ContainedIsPermutation<T>(a: seq<T>, b: seq<T>)
    requires Distinct(a) && Distinct(b) && |a| == |b| && forall x :: x in a ==> x in b
    ensures multiset(a) == multiset(b)
  {
    var p, q := set x | x in a, set x | x in b;
    DistinctSize(a);
    DistinctSize(b);
    SubsetOfSameSize(p, q);
    forall x ensures x in a <==> x in b { assert x in p <==> x in q; }
    DistinctSameSet(a, b);
  }

  lemma NormalKeys(fields: seq<Field>)
    requires DistinctKeys(fields)
    ensures DistinctKeys(NormalFields(fields)) && Distinct(NormalFields(fields))
  {
  }

  lemma {:induction false} SameHasSameNormal(a: Json, b: Json)
    requires WellFormed(a) && WellFormed(b) && SameValue(a, b)
    ensures Normal(a) == Normal(b)
    decreases a
  {
    match a
    case Arr(items) =>
      forall i | 0 <= i < |items| ensures NormalItems(items)[i] == NormalItems(b.items)[i] {
        SameHasSameNormal(items[i], b.items[i]);
      }
    case Obj(fields) =>
      var p, q := NormalFields(fields), NormalFields(b.fields);
      forall x | x in p ensures x in q {
        var i :| 0 <= i < |p| && p[i] == x;
        assert HasField(fields[i], b.fields);
        var j := NormalField(fields[i], b.fields);
        assert q[j] == x;
      }
      NormalKeys(fields);
      NormalKeys(b.fields);
      ContainedIsPermutation(p, q);
      SortedFieldsEqual(p, q);
    case _ =>
  }

  lemma {:induction false} NormalField(f: Field, fields: seq<Field>) returns (j: nat)
    requires WellFormed(f.value) && HasField(f, fields) && WellFormed(Obj(fields))
    ensures j < |fields| && fields[j].key == f.key && Normal(f.value) == Normal(fields[j].value)
    decreases f
  {
    j :| 0 <= j < |fields| && fields[j].key == f.key && SameValue(f.value, fields[j].value);
    SameHasSameNormal(f.value, fields[j].value);
  }

  lemma SameLength(fields: seq<Field>, others: seq<Field>)
    requires Sort(NormalFields(fields), FieldLe) == Sort(NormalFields(others), FieldLe)
    ensures |fields| == |others|
  {
    assert multiset(NormalFields(fields)) == multiset(NormalFields(others));
    SameElements(NormalFields(fields), NormalFields(others));
  }

  /** Among fields that sort alike each one finds its own again. */
  lemma Counterpart(fields: seq<Field>, others: seq<Field>, i: nat) returns (j: nat)
    requires Sort(NormalFields(fields), FieldLe) == Sort(NormalFields(others), FieldLe) && i < |fields|
    ensures j < |others| && others[j].key == fields[i].key && Normal(others[j].value) == Normal(fields[i].value)
  {
    var p, q := NormalFields(fields), NormalFields(others);
    assert multiset(p) == multiset(q);
    SameElements(p, q);
    assert p[i] in q;
    j :| 0 <= j < |q| && q[j] == p[i];
  }

  lemma {:induction false} NormalTellsValue(a: Json, b: Json)
    requires Normal(a) == Normal(b)
    ensures SameValue(a, b)
    decreases a
  {
    match a
    case Arr(items) =>
      forall i | 0 <= i < |items| ensures SameValue(items[i], b.items[i]) {
        assert NormalItems(items)[i] == NormalItems(b.items)[i];
        NormalTellsValue(items[i], b.items[i]);
      }
    case Obj(fields) =>
      SameLength(fields, b.fields);
      forall i | 0 <= i < |fields| ensures HasField(fields[i], b.fields) {
        var j := Counterpart(fields, b.fields, i);
        NormalTellsValue(fields[i].value, b.fields[j].value);
      }
    case _ =>
  }

  /** The API writes the same text for two values exactly when they differ in property order at most. */
  lemma StableJsonTellsValue(a: Json, b: Json)
    requires WellFormed(a) && WellFormed(b)
    ensures StableJson(a) == StableJson(b) <==> SameValue(a, b)
  {
    StableIsNormal(a);
    StableIsNormal(b);
    if StableJson(a) == StableJson(b) {
      RenderInjective(Normal(a), Normal(b));
      NormalTellsValue(a, b);
    }
    if SameValue(a, b) { SameHasSameNormal(a, b); }
  }

  // ---- The worker's text ----

  function DigitValues(key: Text): seq<nat> {
    seq(|key|, i requires 0 <= i < |key| => if key[i] >= 48 then key[i] - 48 else 0)
  }

  /** The number a key stands for when it is an array index; such keys are enumerated first, in numeric order. */
  function ArrayIndex(key: Text): Option<nat> {
    if key == [] || (|key| > 1 && key[0] == 48) || (exists i :: 0 <= i < |key| && !DigitUnit(key[i])) then None
    else
      var n := Decimal.Value(DigitValues(key));
      if n < 0xFFFFFFFF then Some(n) else None
  }

  lemma {:induction false} UnitsOfDigits(key: Text)
    requires forall i :: 0 <= i < |key| ==> DigitUnit(key[i])
    ensures DigitText(DigitValues(key)) == key
    ensures forall i :: 0 <= i < |key| ==> DigitValues(key)[i] < 10
  {
  }

  /** Array indices are the numbers below 2^32 - 1 as they are written in decimal, and nothing else. */
  lemma ArrayIndexExactly(key: Text, n: nat)
    ensures ArrayIndex(key) == Some(n) <==> n < 0xFFFFFFFF && key == NumberText(n)
  {
    Decimal.ValueOfDigits(n);
    Decimal.NoLeadingZero(n);
    if key == NumberText(n) {
      assert DigitValues(key) == Decimal.Digits(n);
      assert key[0] == Decimal.Digits(n)[0] + 48;
    }
    if ArrayIndex(key) == Some(n) {
      UnitsOfDigits(key);
      Decimal.DigitsOfValue(DigitValues(key));
    }
  }

  predicate IndexFirst(a: Field, b: Field) {
    var i, j := ArrayIndex(a.key), ArrayIndex(b.key);
    if i.None? then j.None? else j.None? || i.value <= j.value
  }

  function ByKey(le: (Text, Text) -> bool): (Field, Field) -> bool {
    (a: Field, b: Field) => le(a.key, b.key)
  }

  /** Entries are sorted with the worker's comparator, then `Object.fromEntries` fixes their enumeration order. */
  function Canonical(v: Json, le: (Text, Text) -> bool): Json
    decreases v
  {
    match v
    case Arr(items) => Arr(CanonicalItems(items, le))
    case Obj(fields) => Obj(Sort(Sort(CanonicalFields(fields, le), ByKey(le)), IndexFirst))
    case _ => v
  }

  function CanonicalItems(items: seq<Json>, le: (Text, Text) -> bool): (r: seq<Json>)
    ensures |r| == |items| && forall i :: 0 <= i < |r| ==> r[i] == Canonical(items[i], le)
    decreases items
  {
    if items == [] then [] else [Canonical(items[0], le)] + CanonicalItems(items[1..], le)
  }

  function CanonicalFields(fields: seq<Field>, le: (Text, Text) -> bool): (r: seq<Field>)
    ensures |r| == |fields| && forall i :: 0 <= i < |r| ==> r[i] == Field(fields[i].key, Canonical(fields[i].value, le))
    decreases fields
  {
    if fields == [] then []
    else [Field(fields[0].key, Canonical(fields[0].value, le))] + CanonicalFields(fields[1..], le)
  }

  /** `p` stays before `q` in the worker's object: by index, then by the comparator. */
  predicate Enumerates(p: Text, q: Text, le: (Text, Text) -> bool) {
    var i, j := ArrayIndex(p), ArrayIndex(q);
    if i.None? && j.None? then le(p, q)
    else if i.Some? && j.Some? then i.value < j.value || (i.value == j.value && le(p, q))
    else i.Some?
  }

  /** At every object, the worker and the API place each pair of keys alike. */
  ghost predicate OrdersAgree(v: Json, le: (Text, Text) -> bool)
    decreases v
  {
    match v
    case Arr(items) => forall i :: 0 <= i < |items| ==> OrdersAgree(items[i], le)
    case Obj(fields) =>
      && (forall i, j :: 0 <= i < j < |fields| ==>
            LexLe(fields[i].key, fields[j].key) == Enumerates(fields[i].key, fields[j].key, le))
      && forall i :: 0 <= i < |fields| ==> OrdersAgree(fields[i].value, le)
    case _ => true
  }

  lemma IndexFirstIsTotal()
    ensures TotalPreorder(IndexFirst)
  {
  }

  lemma ByKeyIsTotal(le: (Text, Text) -> bool)
    requires TotalPreorder(le)
    ensures TotalPreorder(ByKey(le))
  {
    var byKey := ByKey(le);
    forall x, y ensures byKey(x, y) || byKey(y, x) { assert le(x.key, y.key) || le(y.key, x.key); }
    forall x, y, z | byKey(x, y) && byKey(y, z) ensures byKey(x, z) { assert le(x.key, y.key) && le(y.key, z.key); }
  }

  /** The worker's order of an object's properties is one stable sort. */
  lemma EnumerationOrder(fields: seq<Field>, le: (Text, Text) -> bool)
    requires TotalPreorder(le)
    ensures Sort(Sort(fields, ByKey(le)), IndexFirst) == Sort(fields, Refine(IndexFirst, ByKey(le)))
    ensures TotalPreorder(Refine(IndexFirst, ByKey(le)))
    ensures forall f, g :: Refine(IndexFirst, ByKey(le))(f, g) == Enumerates(f.key, g.key, le)
  {
    IndexFirstIsTotal();
    ByKeyIsTotal(le);
    SortTwice(fields, IndexFirst, ByKey(le));
    RefineIsTotal(IndexFirst, ByKey(le));
  }

  /** One object: both orders give the same list exactly when they place each pair alike. */
  lemma ObjectOrdersAgree(fields: seq<Field>, le: (Text, Text) -> bool)
    requires TotalPreorder(le) && DistinctKeys(fields)
    ensures Sort(Sort(fields, ByKey(le)), IndexFirst) == Sort(fields, FieldLe)
       <==> forall i, j :: 0 <= i < j < |fields| ==>
              LexLe(fields[i].key, fields[j].key) == Enumerates(fields[i].key, fields[j].key, le)
  {
    var both := Refine(IndexFirst, ByKey(le));
    EnumerationOrder(fields, le);
    FieldOrder();
    KeysIdentify(fields);
    if Sort(fields, both) == Sort(fields, FieldLe) {
      SortTellsOrder(fields, FieldLe, both);
      forall i, j | 0 <= i < j < |fields|
        ensures LexLe(fields[i].key, fields[j].key) == Enumerates(fields[i].key, fields[j].key, le)
      {
        assert FieldLe(fields[i], fields[j]) == both(fields[i], fields[j]);
      }
    }
    if forall i, j :: 0 <= i < j < |fields| ==>
         LexLe(fields[i].key, fields[j].key) == Enumerates(fields[i].key, fields[j].key, le) {
      forall i, j | 0 <= i < j < |fields| ensures FieldLe(fields[i], fields[j]) == both(fields[i], fields[j]) {
        assert LexLe(fields[i].key, fields[j].key) == Enumerates(fields[i].key, fields[j].key, le);
      }
      SortSame(fields, FieldLe, both);
    }
  }

  lemma {:induction false} AgreementSuffices(v: Json, le: (Text, Text) -> bool)
    requires TotalPreorder(le) && WellFormed(v) && OrdersAgree(v, le)
    ensures Canonical(v, le) == Normal(v)
    decreases v
  {
    match v
    case Arr(items) =>
      forall i | 0 <= i < |items| ensures CanonicalItems(items, le)[i] == NormalItems(items)[i] {
        AgreementSuffices(items[i], le);
      }
    case Obj(fields) =>
      var p, q := CanonicalFields(fields, le), NormalFields(fields);
      forall i | 0 <= i < |fields| ensures p[i] == q[i] {
        AgreementSuffices(fields[i].value, le);
      }
      assert p == q;
      ObjectOrdersAgree(q, le);
    case _ =>
  }

  /** The same properties, differently arranged, have the same values under each key. */
  lemma SameArrangement(p: seq<Field>, q: seq<Field>)
    requires multiset(p) == multiset(q) && |p| == |q| && DistinctKeys(q)
    requires forall i :: 0 <= i < |p| ==> p[i].key == q[i].key
    ensures p == q
  {
    SameElements(p, q);
    KeysIdentify(q);
    forall i | 0 <= i < |p| ensures p[i] == q[i] {
      assert p[i] in q && q[i] in q;
    }
  }

  /** Only the keys decide whether the two orders agree. */
  lemma AgreeByKeys(fields: seq<Field>, q: seq<Field>, le: (Text, Text) -> bool)
    requires |q| == |fields| && forall i :: 0 <= i < |q| ==> q[i].key == fields[i].key
    requires forall i, j :: 0 <= i < j < |q| ==> LexLe(q[i].key, q[j].key) == Enumerates(q[i].key, q[j].key, le)
    ensures forall i, j :: 0 <= i < j < |fields| ==>
              LexLe(fields[i].key, fields[j].key) == Enumerates(fields[i].key, fields[j].key, le)
  {
    forall i, j | 0 <= i < j < |fields|
      ensures LexLe(fields[i].key, fields[j].key) == Enumerates(fields[i].key, fields[j].key, le)
    {
      assert q[i].key == fields[i].key && q[j].key == fields[j].key;
    }
  }

  lemma {:induction false} AgreementIsNeeded(v: Json, le: (Text, Text) -> bool)
    requires TotalPreorder(le) && WellFormed(v) && Canonical(v, le) == Normal(v)
    ensures OrdersAgree(v, le)
    decreases v
  {
    match v
    case Arr(items) =>
      forall i | 0 <= i < |items| ensures OrdersAgree(items[i], le) {
        assert CanonicalItems(items, le)[i] == NormalItems(items)[i];
        AgreementIsNeeded(items[i], le);
      }
    case Obj(fields) =>
      var p, q := CanonicalFields(fields, le), NormalFields(fields);
      assert multiset(p) == multiset(q);
      SameArrangement(p, q);
      forall i | 0 <= i < |fields| ensures OrdersAgree(fields[i].value, le) {
        assert p[i] == q[i];
        AgreementIsNeeded(fields[i].value, le);
      }
      ObjectOrdersAgree(q, le);
      AgreeByKeys(fields, q, le);
    case _ =>
  }

  /** The worker recomputes the API's text exactly when the two orders agree at every object. */
  lemma WorkerTextMatches(v: Json, le: (Text, Text) -> bool)
    requires TotalPreorder(le) && WellFormed(v)
    ensures Render(Canonical(v, le)) == StableJson(v) <==> OrdersAgree(v, le)
  {
    StableIsNormal(v);
    if Render(Canonical(v, le)) == StableJson(v) {
      RenderInjective(Canonical(v, le), Normal(v));
      AgreementIsNeeded(v, le);
    }
    if OrdersAgree(v, le) { AgreementSuffices(v, le); }
  }

  /** A stored snapshot re-hashes to the text it was created with exactly when it is unmodified up to property order. */
  lemma SnapshotRehashes(original: Json, stored: Json, le: (Text, Text) -> bool)
    requires TotalPreorder(le) && WellFormed(original) && WellFormed(stored) && OrdersAgree(stored, le)
    ensures Render(Canonical(stored, le)) == StableJson(original) <==> SameValue(original, stored)
  {
    WorkerTextMatches(stored, le);
    StableJsonTellsValue(original, stored);
  }

  /** Agreeing comparators are not enough: with keys "9" and "10" the worker's object is enumerated numerically. */
  lemma IndexKeysDisagree(x: Json, y: Json)
    requires WellFormed(x) && WellFormed(y)
    ensures var v := Obj([Field([57], x), Field([49, 48], y)]);
            WellFormed(v) && Render(Canonical(v, LexLe)) != StableJson(v)
  {
    var v := Obj([Field([57], x), Field([49, 48], y)]);
    LexIsTotalOrder();
    IndexOfNineAndTen();
    assert v.fields[0].key == [57] && v.fields[1].key == [49, 48];
    WorkerTextMatches(v, LexLe);
  }

  lemma IndexOfNineAndTen()
    ensures ArrayIndex([57]) == Some(9) && ArrayIndex([49, 48]) == Some(10) && !LexLe([57], [49, 48])
  {
    var d: seq<nat> := [1, 0];
    assert DigitValues([49, 48]) == d && DigitValues([57]) == [9];
    assert d[..1] == [1] && [1][..0] == [];
    assert Decimal.Value(d) == 10;
  }
}
