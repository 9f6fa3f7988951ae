/** Round trips of the type-directed serializer (src/contract_evidence_os/base.py). */
module SchemaLaws {
  import opened Prelude
  import opened Schema

  /** No instant and no model occurs in the value. */
  ghost predicate Plain(v: Value) {
    match v
    case Instant(_) => false
    case Model(_, _) => false
    case List(items) => forall i :: 0 <= i < |items| ==> Plain(items[i])
    case Dict(entries) => forall i :: 0 <= i < |entries| ==> Plain(entries[i].value)
    case _ => true
  }

  /** Encoding leaves exactly the plain values as they are. */
  lemma {:induction false} EncodeFixes(v: Value, iso: Iso)
    ensures Encode(v, iso) == v <==> Plain(v)
  {
    match v
    case List(items) =>
      forall i | 0 <= i < |items|
        ensures Encode(items[i], iso) == items[i] <==> Plain(items[i])
      {
        EncodeFixes(items[i], iso);
      }
      assert Encode(v, iso) == v <==> EncodeAll(items, iso) == items;
    case Dict(entries) =>
      forall i | 0 <= i < |entries|
        ensures Encode(entries[i].value, iso) == entries[i].value <==> Plain(entries[i].value)
      {
        EncodeFixes(entries[i].value, iso);
      }
      assert Encode(v, iso) == v <==> EncodeEntries(entries, iso) == entries;
    case _ =>
  }

  lemma {:induction false} EncodedIsPlain(v: Value, iso: Iso)
    ensures Plain(Encode(v, iso))
  {
    match v
    case List(items) =>
      forall i | 0 <= i < |items|
        ensures Plain(EncodeAll(items, iso)[i])
      {
        EncodedIsPlain(items[i], iso);
      }
    case Dict(entries) => EncodedEntriesPlain(entries, iso);
    case Model(_, fields) => EncodedEntriesPlain(fields, iso);
    case _ =>
  }

  lemma {:induction false} EncodedEntriesPlain(entries: seq<Entry>, iso: Iso)
    ensures forall i :: 0 <= i < |entries| ==> Plain(EncodeEntries(entries, iso)[i].value)
  {
    forall i | 0 <= i < |entries|
      ensures Plain(EncodeEntries(entries, iso)[i].value)
    {
      EncodedIsPlain(entries[i].value, iso);
    }
  }

  // ---------------------------------------------------------------------- well-typedness

  ghost predicate DistinctNames(fields: seq<Field>) {
    forall i, j :: 0 <= i < j < |fields| ==> fields[i].name != fields[j].name
  }

  ghost predicate DistinctClasses(classes: Classes) {
    forall c :: c in classes ==> DistinctNames(classes[c])
  }

  /** The value fits its annotation; None fits every annotation, and a union any value. */
  ghost predicate WellTyped(v: Value, ty: Type, classes: Classes)
    decreases v, ty
  {
    v.Null? ||
    match ty
    case Any => true
    case Union(_) => true
    case Str => v.Text?
    case Num => v.Number?
    case Bool => v.Truth?
    case DateTime => v.Instant?
    case ListOf(item) => v.List? && forall i :: 0 <= i < |v.items| ==> WellTyped(v.items[i], item, classes)
    case DictOf(value) => v.Dict? && forall i :: 0 <= i < |v.entries| ==> WellTyped(v.entries[i].value, value, classes)
    case Optional(of) => WellTyped(v, of, classes)
    case ModelOf(name) =>
      && v.Model? && v.cls == name && name in classes && |v.fields| == |classes[name]| && Versioned(v.fields)
      && (forall i :: 0 <= i < |v.fields| ==> v.fields[i].key == classes[name][i].name)
      && (forall i :: 0 <= i < |v.fields| ==> WellTyped(v.fields[i].value, classes[name][i].ty, classes))
  }

  /** No instant and no model stands where its annotation does not say so: under Any or a union. */
  ghost predicate Declared(v: Value, ty: Type, classes: Classes)
    requires WellTyped(v, ty, classes)
    decreases v, ty
  {
    v.Null? ||
    match ty
    case Any => Plain(v)
    case Union(_) => Plain(v)
    case ListOf(item) => forall i :: 0 <= i < |v.items| ==> Declared(v.items[i], item, classes)
    case DictOf(value) => forall i :: 0 <= i < |v.entries| ==> Declared(v.entries[i].value, value, classes)
    case Optional(of) => Declared(v, of, classes)
    case ModelOf(name) => forall i :: 0 <= i < |v.fields| ==> Declared(v.fields[i].value, classes[name][i].ty, classes)
    case _ => true
  }

  // ------------------------------------------------------------- decoding part by part

  lemma {:induction false} DecodeAllParts(items: seq<Value>, ty: Type, iso: Iso, classes: Classes)
    requires forall i :: 0 <= i < |items| ==> Decode(items[i], ty, iso, classes).Ok?
    ensures var r := DecodeAll(items, ty, iso, classes);
      && r.Ok? && |r.value| == |items|
      && forall i :: 0 <= i < |items| ==> r.value[i] == Decode(items[i], ty, iso, classes).value
  {
    if items != [] {
      DecodeAllParts(items[..|items| - 1], ty, iso, classes);
    }
  }

  lemma {:induction false} DecodeEntriesParts(entries: seq<Entry>, ty: Type, iso: Iso, classes: Classes)
    requires forall i :: 0 <= i < |entries| ==> Decode(entries[i].value, ty, iso, classes).Ok?
    ensures var r := DecodeEntries(entries, ty, iso, classes);
      && r.Ok? && |r.value| == |entries|
      && forall i :: 0 <= i < |entries| ==>
           r.value[i] == Entry(entries[i].key, Decode(entries[i].value, ty, iso, classes).value)
  {
    if entries != [] {
      DecodeEntriesParts(entries[..|entries| - 1], ty, iso, classes);
    }
  }

  /** A payload whose keys are the field names, in field order. */
  ghost predicate Named(payload: seq<Entry>, fields: seq<Field>) {
    |payload| == |fields| && forall i :: 0 <= i < |fields| ==> payload[i].key == fields[i].name
  }

  lemma {:induction false} FindNamed(payload: seq<Entry>, fields: seq<Field>, k: nat)
    requires Named(payload, fields) && DistinctNames(fields) && k < |fields|
    ensures Find(payload, fields[k].name) == Some(payload[k].value)
  {
    var found := Find(payload, fields[k].name);
    assert payload[k].key == fields[k].name;
    if found.Some? {
      var i :| 0 <= i < |payload| && payload[i] == Entry(fields[k].name, found.value);
      assert payload[i].key == fields[i].name;
    }
  }

  lemma {:induction false} DecodeFieldsParts(payload: seq<Entry>, fields: seq<Field>, n: nat, iso: Iso, classes: Classes)
    requires Named(payload, fields) && DistinctNames(fields) && n <= |fields|
    requires forall i :: 0 <= i < |fields| ==> Decode(payload[i].value, fields[i].ty, iso, classes).Ok?
    ensures var r := DecodeFields(fields[..n], payload, iso, classes);
      && r.Ok? && |r.value| == n
      && forall i :: 0 <= i < n ==>
           r.value[i] == Entry(fields[i].name, Decode(payload[i].value, fields[i].ty, iso, classes).value)
  {
    hide Decode, Find;
    if n > 0 {
      DecodeFieldsParts(payload, fields, n - 1, iso, classes);
      FindNamed(payload, fields, n - 1);
      assert fields[..n][..n - 1] == fields[..n - 1];
    }
  }

  // ------------------------------------------------------------------------ round trips

  /** What came back for a value encodes the same again, and is the value itself exactly when
      every instant and model in it is declared. */
  ghost predicate Came(v: Value, w: Value, ty: Type, iso: Iso, classes: Classes)
    requires WellTyped(v, ty, classes)
  {
    Encode(w, iso) == Encode(v, iso) && (w == v <==> Declared(v, ty, classes))
  }

  ghost predicate Trips(v: Value, ty: Type, iso: Iso, classes: Classes)
    requires WellTyped(v, ty, classes)
  {
    var r := Decode(Encode(v, iso), ty, iso, classes);
    r.Ok? && Came(v, r.value, ty, iso, classes)
  }

  lemma {:induction false} PassiveDecodes(v: Value, ty: Type, iso: Iso, classes: Classes)
    requires ty.Any? || ty.Union?
    ensures Decode(v, ty, iso, classes) == Ok(v)
  {
  }

  lemma {:induction false} EncodeTwice(v: Value, iso: Iso)
    ensures Encode(Encode(v, iso), iso) == Encode(v, iso)
  {
    EncodedIsPlain(v, iso);
    EncodeFixes(Encode(v, iso), iso);
  }

  lemma {:induction false} PassiveTrips(v: Value, ty: Type, iso: Iso, classes: Classes)
    requires ty.Any? || ty.Union?
    ensures Trips(v, ty, iso, classes)
  {
    PassiveDecodes(Encode(v, iso), ty, iso, classes);
    EncodeTwice(v, iso);
    EncodeFixes(v, iso);
  }

  lemma {:induction false} ListDecodes(items: seq<Value>, item: Type, iso: Iso, classes: Classes) returns (r: seq<Value>)
    requires forall i :: 0 <= i < |items| ==> Decode(Encode(items[i], iso), item, iso, classes).Ok?
    ensures Decode(Encode(List(items), iso), ListOf(item), iso, classes) == Ok(List(r)) && |r| == |items|
    ensures forall i :: 0 <= i < |items| ==> r[i] == Decode(Encode(items[i], iso), item, iso, classes).value
  {
    var encoded := EncodeAll(items, iso);
    DecodeAllParts(encoded, item, iso, classes);
    r := DecodeAll(encoded, item, iso, classes).value;
  }

  lemma {:induction false} SameItems(r: seq<Value>, items: seq<Value>, iso: Iso)
    requires |r| == |items| && forall i :: 0 <= i < |items| ==> Encode(r[i], iso) == Encode(items[i], iso)
    ensures Encode(List(r), iso) == Encode(List(items), iso)
  {
    assert EncodeAll(r, iso) == EncodeAll(items, iso);
  }

  lemma {:induction false} ListTrips(items: seq<Value>, item: Type, iso: Iso, classes: Classes)
    requires WellTyped(List(items), ListOf(item), classes)
    requires forall i :: 0 <= i < |items| ==> Trips(items[i], item, iso, classes)
    ensures Trips(List(items), ListOf(item), iso, classes)
  {
    var r := ListDecodes(items, item, iso, classes);
    SameItems(r, items, iso);
    assert r == items <==> forall i :: 0 <= i < |items| ==> r[i] == items[i];
  }

  lemma {:induction false} DictDecodes(entries: seq<Entry>, value: Type, iso: Iso, classes: Classes) returns (r: seq<Entry>)
    requires forall i :: 0 <= i < |entries| ==> Decode(Encode(entries[i].value, iso), value, iso, classes).Ok?
    ensures Decode(Encode(Dict(entries), iso), DictOf(value), iso, classes) == Ok(Dict(r)) && |r| == |entries|
    ensures forall i :: 0 <= i < |entries| ==>
      r[i] == Entry(entries[i].key, Decode(Encode(entries[i].value, iso), value, iso, classes).value)
  {
    var encoded := EncodeEntries(entries, iso);
    DecodeEntriesParts(encoded, value, iso, classes);
    r := DecodeEntries(encoded, value, iso, classes).value;
  }

  lemma {:induction false} SameEntries(r: seq<Entry>, entries: seq<Entry>, iso: Iso)
    requires |r| == |entries| && forall i :: 0 <= i < |entries| ==> r[i].key == entries[i].key
    requires forall i :: 0 <= i < |entries| ==> Encode(r[i].value, iso) == Encode(entries[i].value, iso)
    ensures EncodeEntries(r, iso) == EncodeEntries(entries, iso)
  {
  }

  lemma {:induction false} EqualEntries(r: seq<Entry>, entries: seq<Entry>)
    requires |r| == |entries| && forall i :: 0 <= i < |entries| ==> r[i].key == entries[i].key
    ensures r == entries <==> forall i :: 0 <= i < |entries| ==> r[i].value == entries[i].value
  {
  }

  lemma {:induction false} DictCame(entries: seq<Entry>, r: seq<Entry>, value: Type, iso: Iso, classes: Classes)
    requires WellTyped(Dict(entries), DictOf(value), classes)
    requires |r| == |entries| && forall i :: 0 <= i < |entries| ==> r[i].key == entries[i].key
    requires forall i :: 0 <= i < |entries| ==> Came(entries[i].value, r[i].value, value, iso, classes)
    ensures Came(Dict(entries), Dict(r), DictOf(value), iso, classes)
  {
    SameEntries(r, entries, iso);
    EqualEntries(r, entries);
  }

  lemma {:induction false} DictTrips(entries: seq<Entry>, value: Type, iso: Iso, classes: Classes)
    requires WellTyped(Dict(entries), DictOf(value), classes)
    requires forall i :: 0 <= i < |entries| ==> Trips(entries[i].value, value, iso, classes)
    ensures Trips(Dict(entries), DictOf(value), iso, classes)
  {
    var r := DictDecodes(entries, value, iso, classes);
    forall i | 0 <= i < |entries|
      ensures Came(entries[i].value, r[i].value, value, iso, classes)
    {
      assert Trips(entries[i].value, value, iso, classes);
    }
    DictCame(entries, r, value, iso, classes);
  }

  lemma {:induction false} TextTrips(s: string, ty: Type, iso: Iso, classes: Classes)
    requires WellTyped(Text(s), ty, classes)
    ensures Decode(Text(s), ty, iso, classes) == Ok(Text(s))
    decreases ty
  {
    if ty.Optional? {
      TextTrips(s, ty.of, iso, classes);
    }
  }

  lemma {:induction false} VersionKept(fields: seq<Entry>, values: seq<Entry>, iso: Iso)
    requires Versioned(fields) && |values| == |fields|
    requires forall i :: 0 <= i < |fields| ==> values[i].key == fields[i].key
    requires forall i :: 0 <= i < |fields| ==> fields[i].value.Text? ==> values[i].value == fields[i].value
    ensures Versioned(values)
    decreases |fields|
  {
    var n := |fields| - 1;
    if fields != [] && fields[n].key != "version" {
      VersionKept(fields[..n], values[..n], iso);
    }
  }

  lemma {:induction false} FieldsDecode(values: seq<Entry>, fields: seq<Field>, iso: Iso, classes: Classes) returns (r: seq<Entry>)
    requires Named(values, fields) && DistinctNames(fields)
    requires forall i :: 0 <= i < |fields| ==> Decode(Encode(values[i].value, iso), fields[i].ty, iso, classes).Ok?
    ensures DecodeFields(fields, EncodeEntries(values, iso), iso, classes) == Ok(r) && |r| == |values|
    ensures forall i :: 0 <= i < |fields| ==>
      r[i] == Entry(fields[i].name, Decode(Encode(values[i].value, iso), fields[i].ty, iso, classes).value)
  {
    var encoded := EncodeEntries(values, iso);
    DecodeFieldsParts(encoded, fields, |fields|, iso, classes);
    assert fields[..|fields|] == fields;
    r := DecodeFields(fields, encoded, iso, classes).value;
  }

  /** A version survives: a string comes back as it is under every annotation it fits. */
  lemma {:induction false} VersionDecoded(values: seq<Entry>, r: seq<Entry>, fields: seq<Field>, iso: Iso, classes: Classes)
    requires Named(values, fields) && Versioned(values) && |r| == |values|
    requires forall i :: 0 <= i < |fields| ==> WellTyped(values[i].value, fields[i].ty, classes)
    requires forall i :: 0 <= i < |fields| ==>
      Ok(r[i]) == Ok(Entry(fields[i].name, r[i].value))
      && Decode(Encode(values[i].value, iso), fields[i].ty, iso, classes) == Ok(r[i].value)
    ensures Versioned(r)
  {
    forall i | 0 <= i < |r| && values[i].value.Text?
      ensures r[i].value == values[i].value
    {
      TextTrips(values[i].value.s, fields[i].ty, iso, classes);
    }
    VersionKept(values, r, iso);
  }

  lemma {:induction false} ModelDecodes(v: Value, name: string, iso: Iso, classes: Classes) returns (r: seq<Entry>)
    requires WellTyped(v, ModelOf(name), classes) && v.Model? && DistinctNames(classes[name])
    requires forall i :: 0 <= i < |v.fields| ==> Decode(Encode(v.fields[i].value, iso), classes[name][i].ty, iso, classes).Ok?
    ensures Decode(Encode(v, iso), ModelOf(name), iso, classes) == Ok(Model(name, r)) && |r| == |v.fields|
    ensures forall i :: 0 <= i < |r| ==> r[i].key == v.fields[i].key
    ensures forall i :: 0 <= i < |r| ==>
      Decode(Encode(v.fields[i].value, iso), classes[name][i].ty, iso, classes) == Ok(r[i].value)
  {
    hide DecodeFields, Versioned;
    r := FieldsDecode(v.fields, classes[name], iso, classes);
    VersionDecoded(v.fields, r, classes[name], iso, classes);
  }

  lemma {:induction false} ModelCame(v: Value, r: seq<Entry>, name: string, iso: Iso, classes: Classes)
    requires WellTyped(v, ModelOf(name), classes) && v.Model?
    requires |r| == |v.fields| && forall i :: 0 <= i < |r| ==> r[i].key == v.fields[i].key
    requires forall i :: 0 <= i < |r| ==> Came(v.fields[i].value, r[i].value, classes[name][i].ty, iso, classes)
    ensures Came(v, Model(name, r), ModelOf(name), iso, classes)
  {
    SameEntries(r, v.fields, iso);
    EqualEntries(r, v.fields);
  }

  lemma {:induction false} ModelTrips(v: Value, name: string, iso: Iso, classes: Classes)
    requires WellTyped(v, ModelOf(name), classes) && v.Model? && DistinctNames(classes[name])
    requires forall i :: 0 <= i < |v.fields| ==> Trips(v.fields[i].value, classes[name][i].ty, iso, classes)
    ensures Trips(v, ModelOf(name), iso, classes)
  {
    var r := ModelDecodes(v, name, iso, classes);
    forall i | 0 <= i < |r|
      ensures Came(v.fields[i].value, r[i].value, classes[name][i].ty, iso, classes)
    {
      assert Trips(v.fields[i].value, classes[name][i].ty, iso, classes);
    }
    ModelCame(v, r, name, iso, classes);
  }

  /** Schema round trip: for every well-typed value, from_dict of to_dict succeeds, encodes to the
      same dictionary again, and gives the value back exactly when no instant or model hides
      under Any or a multi-way union. */
  lemma {:induction false} RoundTrip(v: Value, ty: Type, iso: Iso, classes: Classes)
    requires Inverse(iso) && DistinctClasses(classes) && WellTyped(v, ty, classes)
    ensures Trips(v, ty, iso, classes)
    decreases v, ty, 1
  {
    if v.Null? {
    } else {
      match ty
      case Any => PassiveTrips(v, ty, iso, classes);
      case Union(_) => PassiveTrips(v, ty, iso, classes);
      case ListOf(item) =>
        forall i | 0 <= i < |v.items|
          ensures Trips(v.items[i], item, iso, classes)
        {
          RoundTrip(v.items[i], item, iso, classes);
        }
        ListTrips(v.items, item, iso, classes);
      case DictOf(value) =>
        forall i | 0 <= i < |v.entries|
          ensures Trips(v.entries[i].value, value, iso, classes)
        {
          RoundTrip(v.entries[i].value, value, iso, classes);
        }
        DictTrips(v.entries, value, iso, classes);
      case Optional(of) => OptionalTrips(v, of, iso, classes);
      case ModelOf(name) =>
        forall i | 0 <= i < |v.fields|
          ensures Trips(v.fields[i].value, classes[name][i].ty, iso, classes)
        {
          RoundTrip(v.fields[i].value, classes[name][i].ty, iso, classes);
        }
        ModelTrips(v, name, iso, classes);
      case _ =>
    }
  }

  lemma {:induction false} OptionalTrips(v: Value, of: Type, iso: Iso, classes: Classes)
    requires Inverse(iso) && DistinctClasses(classes) && WellTyped(v, Optional(of), classes) && !v.Null?
    ensures Trips(v, Optional(of), iso, classes)
    decreases v, of, 2
  {
    RoundTrip(v, of, iso, classes);
    assert !Encode(v, iso).Null?;
  }

  /** from_dict inverts to_dict on a model exactly when its instants and models are declared. */
  lemma {:induction false} FromDictInvertsIff(v: Value, iso: Iso, classes: Classes)
    requires Inverse(iso) && DistinctClasses(classes) && v.Model? && WellTyped(v, ModelOf(v.cls), classes)
    ensures var r := FromDict(v.cls, EncodeEntries(v.fields, iso), iso, classes);
      && r.Ok? && Encode(r.value, iso) == Encode(v, iso)
      && (r.value == v <==> Declared(v, ModelOf(v.cls), classes))
  {
    RoundTrip(v, ModelOf(v.cls), iso, classes);
    assert Encode(v, iso) == Dict(EncodeEntries(v.fields, iso));
  }

  const NOTE: Classes := map["Note" := [Field("version", Str, None), Field("at", Any, None)]]

  /** An instant under Any comes back as its text. */
  lemma {:induction false} InstantUnderAny(t: Time, iso: Iso)
    requires Inverse(iso)
    ensures var v := Model("Note", [Entry("version", Text("1.0")), Entry("at", Instant(t))]);
      && WellTyped(v, ModelOf("Note"), NOTE)
      && FromDict("Note", EncodeEntries(v.fields, iso), iso, NOTE) != Ok(v)
  {
    var v := Model("Note", [Entry("version", Text("1.0")), Entry("at", Instant(t))]);
    NoteTyped(v, t);
    FromDictInvertsIff(v, iso, NOTE);
    assert !Declared(v.fields[1].value, Any, NOTE);
  }

  lemma {:induction false} NoteTyped(v: Value, t: Time)
    requires v == Model("Note", [Entry("version", Text("1.0")), Entry("at", Instant(t))])
    ensures WellTyped(v, ModelOf("Note"), NOTE) && DistinctClasses(NOTE)
  {
    assert v.fields[..1] == [Entry("version", Text("1.0"))];
    assert Find(v.fields[..1], "version") == Some(Text("1.0"));
    assert Versioned(v.fields);
  }

  // ----------------------------------------------------------- payloads from elsewhere

  /** Keys of the payload that name no field do not matter. */
  lemma {:induction false} UnknownKeysIgnored(name: string, payload: seq<Entry>, other: seq<Entry>, iso: Iso, classes: Classes)
    requires name in classes
    requires forall k :: 0 <= k < |classes[name]| ==>
      Find(payload, classes[name][k].name) == Find(other, classes[name][k].name)
    ensures FromDict(name, payload, iso, classes) == FromDict(name, other, iso, classes)
  {
    SameFields(classes[name], payload, other, iso, classes);
  }

  lemma {:induction false} SameFields(fields: seq<Field>, payload: seq<Entry>, other: seq<Entry>, iso: Iso, classes: Classes)
    requires forall k :: 0 <= k < |fields| ==> Find(payload, fields[k].name) == Find(other, fields[k].name)
    ensures DecodeFields(fields, payload, iso, classes) == DecodeFields(fields, other, iso, classes)
    decreases |fields|
  {
    if fields != [] {
      SameFields(fields[..|fields| - 1], payload, other, iso, classes);
    }
  }

  predicate Supplied(payload: seq<Entry>, f: Field) {
    Find(payload, f.name).Some? || f.default.Some?
  }

  lemma {:induction false} ValuesCount(fields: seq<Field>, payload: seq<Entry>, iso: Iso, classes: Classes)
    requires DecodeFields(fields, payload, iso, classes).Ok?
    ensures var values := DecodeFields(fields, payload, iso, classes).value;
      && |values| <= |fields|
      && (|values| == |fields| <==> forall k :: 0 <= k < |fields| ==> Supplied(payload, fields[k]))
    decreases |fields|
  {
    if fields != [] {
      var n := |fields| - 1;
      ValuesCount(fields[..n], payload, iso, classes);
      assert (forall k :: 0 <= k < |fields| ==> Supplied(payload, fields[k]))
        <==> (forall k :: 0 <= k < n ==> Supplied(payload, fields[..n][k])) && Supplied(payload, fields[n]);
    }
  }

  /** A payload whose parts decode makes a model exactly when it or a default supplies every field
      and the version is a non-empty string; a missing field is a TypeError, an empty version a
      ValueError. */
  lemma {:induction false} FromDictSucceedsIff(name: string, payload: seq<Entry>, iso: Iso, classes: Classes)
    requires name in classes && DecodeFields(classes[name], payload, iso, classes).Ok?
    ensures var all := forall k :: 0 <= k < |classes[name]| ==> Supplied(payload, classes[name][k]);
      var values := DecodeFields(classes[name], payload, iso, classes).value;
      var versioned := exists version: string :: |version| > 0 && Find(values, "version") == Some(Text(version));
      && (FromDict(name, payload, iso, classes).Ok? <==> all && versioned)
      && (!all ==> FromDict(name, payload, iso, classes) == Err(TypeError))
      && (all && !versioned ==> FromDict(name, payload, iso, classes) == Err(ValueError))
  {
    ValuesCount(classes[name], payload, iso, classes);
  }

  lemma {:induction false} FieldsDecide(fields: seq<Field>, payload: seq<Entry>, iso: Iso, classes: Classes, k: nat)
    requires DecodeFields(fields, payload, iso, classes).Ok?
    requires |DecodeFields(fields, payload, iso, classes).value| == |fields| && k < |fields|
    ensures var r, found := DecodeFields(fields, payload, iso, classes).value[k], Find(payload, fields[k].name);
      && r.key == fields[k].name
      && (found.Some? ==> Decode(found.value, fields[k].ty, iso, classes) == Ok(r.value))
      && (found.None? ==> fields[k].default == Some(r.value))
    decreases |fields|
  {
    hide Decode, Find;
    var n := |fields| - 1;
    ValuesCount(fields[..n], payload, iso, classes);
    if k < n {
      FieldsDecide(fields[..n], payload, iso, classes, k);
    }
  }

  /** What from_dict builds: each field in the order of the class, from the payload where it names the
      field, and otherwise with the value of its default. */
  lemma {:induction false} FromDictBuilds(name: string, payload: seq<Entry>, iso: Iso, classes: Classes, k: nat)
    requires name in classes && FromDict(name, payload, iso, classes).Ok? && k < |classes[name]|
    ensures var r, f := FromDict(name, payload, iso, classes).value, classes[name][k];
      && r.Model? && r.cls == name && |r.fields| == |classes[name]|
      && r.fields[k].key == f.name
      && (Find(payload, f.name).Some? ==> Decode(Find(payload, f.name).value, f.ty, iso, classes) == Ok(r.fields[k].value))
      && (Find(payload, f.name).None? ==> f.default == Some(r.fields[k].value))
  {
    hide DecodeFields, Decode, Find;
    FieldsDecide(classes[name], payload, iso, classes, k);
  }

  // ------------------------------------------------------- values under another annotation

  function AsTexts(texts: seq<string>): (r: seq<Value>)
    ensures |r| == |texts| && forall i :: 0 <= i < |texts| ==> r[i] == Text(texts[i])
  {
    seq(|texts|, i requires 0 <= i < |texts| => Text(texts[i]))
  }

  lemma {:induction false} TextsUnderStr(texts: seq<string>, iso: Iso)
    ensures DecodeTexts(texts, Str, iso) == Ok(AsTexts(texts))
  {
    if texts != [] {
      var n := |texts| - 1;
      TextsUnderStr(texts[..n], iso);
      assert AsTexts(texts) == AsTexts(texts[..n]) + [Text(texts[n])];
    }
  }

  /** A string under a list of strings comes back as the list of its characters, and a dictionary as the
      list of its keys. */
  lemma {:induction false} IteratedUnderList(s: string, entries: seq<Entry>, iso: Iso, classes: Classes)
    ensures var r := Decode(Text(s), ListOf(Str), iso, classes);
      && r.Ok? && r.value.List? && |r.value.items| == |s|
      && forall i :: 0 <= i < |s| ==> r.value.items[i] == Text([s[i]])
    ensures var r := Decode(Dict(entries), ListOf(Str), iso, classes);
      && r.Ok? && r.value.List? && |r.value.items| == |entries|
      && forall i :: 0 <= i < |entries| ==> r.value.items[i] == Text(entries[i].key)
  {
    TextsUnderStr(seq(|s|, i requires 0 <= i < |s| => [s[i]]), iso);
    TextsUnderStr(KeysOf(entries), iso);
  }

  /** What raises, and how: a number or truth value under a list, dictionary, instant or model, and a
      list under a dictionary, an instant or a model, are type errors; a text that is no instant under
      an instant is a value error, and under a dictionary or a model a type error; None passes always. */
  lemma {:induction false} MismatchesRaise(v: Value, s: string, of: Type, name: string, iso: Iso, classes: Classes)
    requires v.Number? || v.Truth?
    ensures Decode(v, ListOf(of), iso, classes) == Decode(v, DictOf(of), iso, classes) == Err(TypeError)
    ensures Decode(v, DateTime, iso, classes) == Decode(v, ModelOf(name), iso, classes) == Err(TypeError)
    ensures Decode(List([v]), DictOf(of), iso, classes) == Decode(List([v]), DateTime, iso, classes) == Err(TypeError)
    ensures Decode(List([v]), ModelOf(name), iso, classes) == Err(TypeError)
    ensures Decode(Text(s), DictOf(of), iso, classes) == Decode(Text(s), ModelOf(name), iso, classes) == Err(TypeError)
    ensures iso.parse(s).None? ==> Decode(Text(s), DateTime, iso, classes) == Err(ValueError)
    ensures Decode(Null, of, iso, classes) == Ok(Null)
  {
  }
}
