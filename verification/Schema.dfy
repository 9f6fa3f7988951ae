/** The type-directed serializer: models become dictionaries of JSON-safe values and come back
    through their field annotations (src/contract_evidence_os/base.py). The text form of instants
    is a parameter: a printer and a parser that inverts it. */
module Schema {
  import opened Prelude

  // ------------------------------------------------------------------ values and types

  datatype Value =
    | Null | Text(s: string) | Number(x: real) | Truth(b: bool) | Instant(t: Time)
    | List(items: seq<Value>) | Dict(entries: seq<Entry>) | Model(cls: string, fields: seq<Entry>)

  datatype Entry = Entry(key: string, value: Value)

  /** Annotations. `Optional` is a union with one alternative beside None, `Union` one with more. */
  datatype Type =
    | Any | Str | Num | Bool | DateTime | ListOf(item: Type) | DictOf(value: Type)
    | Optional(of: Type) | Union(alternatives: seq<Type>) | ModelOf(name: string)

  /** A field without a default is required; a default factory is the value it makes. */
  datatype Field = Field(name: string, ty: Type, default: Option<Value>)

  type Classes = map<string, seq<Field>>

  datatype Error = TypeError | ValueError

  datatype Result<+T> = Ok(value: T) | Err(error: Error)

  /** isoformat and fromisoformat. */
  datatype Iso = Iso(format: Time -> string, parse: string -> Option<Time>)

  ghost predicate Inverse(iso: Iso) {
    forall t :: iso.parse(iso.format(t)) == Some(t)
  }

  // ---------------------------------------------------------------------- encoding

  /** _serialize, with to_dict for models */
  function Encode(v: Value, iso: Iso): Value {
    match v
    case Instant(t) => Text(iso.format(t))
    case Model(_, fields) => Dict(EncodeEntries(fields, iso))
    case List(items) => List(EncodeAll(items, iso))
    case Dict(entries) => Dict(EncodeEntries(entries, iso))
    case _ => v
  }

  function EncodeAll(items: seq<Value>, iso: Iso): (r: seq<Value>)
    ensures |r| == |items|
    ensures forall i :: 0 <= i < |items| ==> r[i] == Encode(items[i], iso)
  {
    if items == [] then [] else EncodeAll(items[..|items| - 1], iso) + [Encode(items[|items| - 1], iso)]
  }

  function EncodeEntries(entries: seq<Entry>, iso: Iso): (r: seq<Entry>)
    ensures |r| == |entries|
    ensures forall i :: 0 <= i < |entries| ==> r[i] == Entry(entries[i].key, Encode(entries[i].value, iso))
  {
    if entries == [] then []
    else
      var last := entries[|entries| - 1];
      EncodeEntries(entries[..|entries| - 1], iso) + [Entry(last.key, Encode(last.value, iso))]
  }

  // ---------------------------------------------------------------------- decoding

  function Find(entries: seq<Entry>, key: string): (r: Option<Value>)
    ensures r.Some? ==> exists i :: 0 <= i < |entries| && entries[i] == Entry(key, r.value)
    ensures r.None? ==> forall i :: 0 <= i < |entries| ==> entries[i].key != key
  {
    if entries == [] then None
    else if entries[|entries| - 1].key == key then
      assert entries[|entries| - 1] == Entry(key, entries[|entries| - 1].value);
      Some(entries[|entries| - 1].value)
    else Find(entries[..|entries| - 1], key)
  }

  /** validate: the version is a non-empty string. */
  predicate Versioned(fields: seq<Entry>) {
    match Find(fields, "version")
    case Some(Text(s)) => s != ""
    case _ => false
  }

  /** _deserialize on a string. A string under a list annotation is iterated by character. */
  function DecodeText(s: string, ty: Type, iso: Iso): Result<Value>
    decreases ty, 0
  {
    match ty
    case DateTime => (match iso.parse(s) case Some(t) => Ok(Instant(t)) case None => Err(ValueError))
    case ListOf(item) => (match DecodeTexts(seq(|s|, i requires 0 <= i < |s| => [s[i]]), item, iso)
                          case Ok(items) => Ok(List(items)) case Err(e) => Err(e))
    case Optional(of) => DecodeText(s, of, iso)
    case DictOf(_) => Err(TypeError)
    case ModelOf(_) => Err(TypeError)
    case _ => Ok(Text(s))
  }

  function DecodeTexts(texts: seq<string>, ty: Type, iso: Iso): Result<seq<Value>>
    decreases ty, |texts|
  {
    if texts == [] then Ok([])
    else
      var n := |texts| - 1;
      match DecodeTexts(texts[..n], ty, iso)
      case Err(e) => Err(e)
      case Ok(front) => (match DecodeText(texts[n], ty, iso) case Ok(v) => Ok(front + [v]) case Err(e) => Err(e))
  }

  function KeysOf(entries: seq<Entry>): seq<string> {
    seq(|entries|, i requires 0 <= i < |entries| => entries[i].key)
  }

  /** _deserialize */
  function Decode(v: Value, ty: Type, iso: Iso, classes: Classes): Result<Value>
    decreases v, ty
  {
    if v.Null? then Ok(Null)
    else if v.Text? then DecodeText(v.s, ty, iso)
    else
      match ty
      case ListOf(item) =>
        (match v
         case List(items) => (match DecodeAll(items, item, iso, classes)
                              case Ok(r) => Ok(List(r)) case Err(e) => Err(e))
         case Dict(entries) => (match DecodeTexts(KeysOf(entries), item, iso)
                                case Ok(r) => Ok(List(r)) case Err(e) => Err(e))
         case _ => Err(TypeError))
      case DictOf(value) =>
        (match v
         case Dict(entries) => (match DecodeEntries(entries, value, iso, classes)
                                case Ok(r) => Ok(Dict(r)) case Err(e) => Err(e))
         case _ => Err(TypeError))
      case Optional(of) => Decode(v, of, iso, classes)
      case DateTime => Err(TypeError)
      case ModelOf(name) => if v.Dict? && name in classes then FromDict(name, v.entries, iso, classes) else Err(TypeError)
      case _ => Ok(v)
  }

  function DecodeAll(items: seq<Value>, ty: Type, iso: Iso, classes: Classes): Result<seq<Value>>
    decreases items, ty
  {
    if items == [] then Ok([])
    else
      var n := |items| - 1;
      match DecodeAll(items[..n], ty, iso, classes)
      case Err(e) => Err(e)
      case Ok(front) => (match Decode(items[n], ty, iso, classes) case Ok(v) => Ok(front + [v]) case Err(e) => Err(e))
  }

  function DecodeEntries(entries: seq<Entry>, ty: Type, iso: Iso, classes: Classes): Result<seq<Entry>>
    decreases entries, ty
  {
    if entries == [] then Ok([])
    else
      var n := |entries| - 1;
      match DecodeEntries(entries[..n], ty, iso, classes)
      case Err(e) => Err(e)
      case Ok(front) =>
        (match Decode(entries[n].value, ty, iso, classes)
         case Ok(v) => Ok(front + [Entry(entries[n].key, v)])
         case Err(e) => Err(e))
  }

  /** The fields from_dict sets: from the payload, else from the default, else not at all. */
  function DecodeFields(fields: seq<Field>, payload: seq<Entry>, iso: Iso, classes: Classes): Result<seq<Entry>>
    decreases payload, |fields|
  {
    if fields == [] then Ok([])
    else
      var n := |fields| - 1;
      match DecodeFields(fields[..n], payload, iso, classes)
      case Err(e) => Err(e)
      case Ok(front) =>
        (match Find(payload, fields[n].name)
         case Some(v) =>
           (match Decode(v, fields[n].ty, iso, classes)
            case Ok(w) => Ok(front + [Entry(fields[n].name, w)])
            case Err(e) => Err(e))
         case None => Ok(if fields[n].default.Some? then front + [Entry(fields[n].name, fields[n].default.value)] else front))
  }

  /** The constructor: every field is set, and the version is not empty. */
  function Construct(name: string, fields: seq<Field>, values: seq<Entry>): Result<Value> {
    if |values| != |fields| then Err(TypeError)
    else if !Versioned(values) then Err(ValueError)
    else Ok(Model(name, values))
  }

  /** from_dict */
  function FromDict(name: string, payload: seq<Entry>, iso: Iso, classes: Classes): Result<Value>
    requires name in classes
    decreases payload, |classes[name]| + 1
  {
    match DecodeFields(classes[name], payload, iso, classes)
    case Err(e) => Err(e)
    case Ok(values) => Construct(name, classes[name], values)
  }

  /** from_dict, filling the values field by field. */
  method BuildModel(name: string, payload: seq<Entry>, iso: Iso, classes: Classes) returns (r: Result<Value>)
    requires name in classes
    ensures r == FromDict(name, payload, iso, classes)
  {
    var fields := classes[name];
    var values: seq<Entry> := [];
    for i := 0 to |fields|
      invariant DecodeFields(fields[..i], payload, iso, classes) == Ok(values)
    {
      assert fields[..i + 1][..i] == fields[..i];
      var found := Find(payload, fields[i].name);
      if found.Some? {
        var decoded := Decode(found.value, fields[i].ty, iso, classes);
        if decoded.Err? {
          FailsAt(fields, i, payload, iso, classes);
          return Err(decoded.error);
        }
        values := values + [Entry(fields[i].name, decoded.value)];
      } else if fields[i].default.Some? {
        values := values + [Entry(fields[i].name, fields[i].default.value)];
      }
    }
    assert fields[..|fields|] == fields;
    r := Construct(name, fields, values);
  }

  /** The first field that fails to decode decides the error. */
  lemma {:induction false} FailsAt(fields: seq<Field>, i: nat, payload: seq<Entry>, iso: Iso, classes: Classes)
    requires i < |fields| && DecodeFields(fields[..i], payload, iso, classes).Ok?
    requires Find(payload, fields[i].name).Some?
    requires Decode(Find(payload, fields[i].name).value, fields[i].ty, iso, classes).Err?
    ensures DecodeFields(fields, payload, iso, classes)
         == Err(Decode(Find(payload, fields[i].name).value, fields[i].ty, iso, classes).error)
    decreases |fields|
  {
    var n := |fields| - 1;
    if i < n {
      assert fields[..n][..i] == fields[..i];
      FailsAt(fields[..n], i, payload, iso, classes);
    }
  }
}
