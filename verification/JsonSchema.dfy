/**
 JSON values, and the fragment of JSON Schema Draft 2020-12 that the Tool Lab emits.

 A schema is one of the dictionary shapes the generator can build; the comment beside a
 constructor is that dictionary.  `Accepts` follows the published meaning of its keywords
 (Validation sections 6.1.1, 6.1.2, 6.4.3, 6.5.3; Core sections 10.2.1.2, 10.3.1.2, 10.3.2).
 */
module JsonSchema {
  // Numbers carry no int/float distinction: 1 and 1.0 are the same JSON value.
  // `Alien` stands for a Python object the validator assigns no JSON type, such as a tuple.
  datatype Json =
    | Null
    | Bool(b: bool)
    | Num(n: real)
    | Str(s: string)
    | Arr(elems: seq<Json>)
    | Obj(fields: map<string, Json>)
    | Alien

  // A value that can be written as JSON text.
  predicate IsJson(v: Json) {
    match v
    case Arr(elems) => forall i :: 0 <= i < |elems| ==> IsJson(elems[i])
    case Obj(fields) => forall k :: k in fields ==> IsJson(fields[k])
    case Alien => false
    case _ => true
  }

  datatype TypeName = NullT | BooleanT | IntegerT | NumberT | StringT | ArrayT | ObjectT

  datatype Schema =
    | Anything                                // {}
    | Type(t: TypeName)                       // {"type": t}
    | Types(ts: seq<TypeName>)                // {"type": [t, ...]}
    | Base64                                  // {"type": "string", "contentEncoding": "base64"}
    | Enum(values: seq<Json>)                 // {"enum": [v, ...]}
    | Items(items: Schema, unique: bool)      // {"type": "array", "items": s} and, if unique, "uniqueItems": true
    | Fixed(prefix: seq<Schema>)              // {"type": "array", "items": [s, ...], "minItems": n, "maxItems": n}
    | Values(of: Schema)                      // {"type": "object", "additionalProperties": s}
    | Record(props: map<string, Schema>, required: seq<string>, closed: bool)
                                              // {"type": "object", "properties": ..., "required": ...} and,
                                              // if closed, "additionalProperties": false
    | AnyOf(members: seq<Schema>)             // {"anyOf": [s, ...]}

  // What `schema.get("type")` yields.
  datatype TypeKeyword = Absent | One(t: TypeName) | Many(ts: seq<TypeName>)

  function TypeOf(s: Schema): TypeKeyword {
    match s
    case Type(t) => One(t)
    case Types(ts) => Many(ts)
    case Base64 => One(StringT)
    case Items(_, _) => One(ArrayT)
    case Fixed(_) => One(ArrayT)
    case Values(_) => One(ObjectT)
    case Record(_, _, _) => One(ObjectT)
    case _ => Absent
  }

  predicate Integral(r: real) {
    r.Floor as real == r
  }

  predicate HasType(t: TypeName, v: Json) {
    match t
    case NullT => v.Null?
    case BooleanT => v.Bool?
    case IntegerT => v.Num? && Integral(v.n)
    case NumberT => v.Num?
    case StringT => v.Str?
    case ArrayT => v.Arr?
    case ObjectT => v.Obj?
  }

  predicate Distinct<T(==)>(xs: seq<T>) {
    forall i, j :: 0 <= i < j < |xs| ==> xs[i] != xs[j]
  }

  predicate Accepts(s: Schema, v: Json) {
    match s
    case Anything => true
    case Type(t) => HasType(t, v)
    case Types(ts) => exists i :: 0 <= i < |ts| && HasType(ts[i], v)
    case Base64 => v.Str?
    case Enum(vs) => v in vs
    case Items(item, unique) =>
      && v.Arr?
      && (forall i :: 0 <= i < |v.elems| ==> Accepts(item, v.elems[i]))
      && (unique ==> Distinct(v.elems))
    // A list under "items" is no schema in Draft 2020-12.
    case Fixed(_) => false
    case Values(of) => v.Obj? && forall k :: k in v.fields ==> Accepts(of, v.fields[k])
    case Record(props, required, closed) =>
      && v.Obj?
      && (forall k :: k in props && k in v.fields ==> Accepts(props[k], v.fields[k]))
      && (forall k :: k in required ==> k in v.fields)
      && (closed ==> v.fields.Keys <= props.Keys)
    case AnyOf(ms) => exists i :: 0 <= i < |ms| && Accepts(ms[i], v)
  }

  // Whether the dictionary is a schema at all: "type" and "required" list nothing twice, "anyOf" and
  // "type" list something, and "items" is a schema and no list.
  predicate ValidDocument(s: Schema) {
    match s
    case Types(ts) => ts != [] && Distinct(ts)
    case Items(of, _) => ValidDocument(of)
    case Fixed(_) => false
    case Values(of) => ValidDocument(of)
    case Record(props, required, _) => Distinct(required) && forall k :: k in props ==> ValidDocument(props[k])
    case AnyOf(ms) => ms != [] && forall i :: 0 <= i < |ms| ==> ValidDocument(ms[i])
    case _ => true
  }

  // The validator looks at the schema first, and refuses every value when that is no valid document.
  predicate Validates(s: Schema, v: Json) {
    ValidDocument(s) && Accepts(s, v)
  }

  // A schema whose "type" is one name accepts only values of that type.
  lemma {:induction false} TypedValues(s: Schema, v: Json)
    requires Accepts(s, v) && TypeOf(s).One?
    ensures HasType(TypeOf(s).t, v)
  {
  }
}
