/**
 Two questions about a schema that a caller can answer by looking at it, without trying values:
 whether any JSON value is accepted, and whether every JSON value is.
 */
module SchemaTheorems {
  import opened JsonSchema

  // ------------------------------------------------------------------ is anything accepted?

  predicate Fulfillable(s: Schema) {
    match s
    case Types(ts) => ts != []
    case Enum(vs) => exists i :: 0 <= i < |vs| && IsJson(vs[i])
    case Fixed(_) => false
    case Record(props, required, closed) =>
      forall k :: k in required ==> if k in props then Fulfillable(props[k]) else !closed
    case AnyOf(ms) => exists i :: 0 <= i < |ms| && Fulfillable(ms[i])
    case _ => true
  }

  function Sample(t: TypeName): (v: Json)
    ensures IsJson(v) && HasType(t, v)
  {
    match t
    case NullT => Null
    case BooleanT => Bool(true)
    case IntegerT => assert 0.0.Floor == 0; Num(0.0)
    case NumberT => Num(0.0)
    case StringT => Str("")
    case ArrayT => Arr([])
    case ObjectT => Obj(map[])
  }

  ghost function Witness(s: Schema): (v: Json)
    requires Fulfillable(s)
    ensures IsJson(v) && Accepts(s, v)
  {
    match s
    case Anything => Null
    case Type(t) => Sample(t)
    case Types(ts) => Sample(ts[0])
    case Base64 => Str("")
    case Enum(vs) => var i :| 0 <= i < |vs| && IsJson(vs[i]); vs[i]
    case Items(_, _) => Arr([])
    case Values(_) => Obj(map[])
    case Record(props, required, _) => Obj(map k | k in required :: if k in props then Witness(props[k]) else Null)
    case AnyOf(ms) => var i :| 0 <= i < |ms| && Fulfillable(ms[i]); Witness(ms[i])
  }

  lemma {:induction false} AcceptedFulfils(s: Schema, v: Json)
    requires IsJson(v) && Accepts(s, v)
    ensures Fulfillable(s)
  {
    match s
    case Enum(vs) => var i :| 0 <= i < |vs| && vs[i] == v;
    case Record(props, required, _) =>
      forall k | k in required && k in props ensures Fulfillable(props[k]) { AcceptedFulfils(props[k], v.fields[k]); }
    case AnyOf(ms) =>
      var i :| 0 <= i < |ms| && Accepts(ms[i], v);
      AcceptedFulfils(ms[i], v);
    case _ =>
  }

  lemma FulfillableIff(s: Schema)
    ensures Fulfillable(s) <==> exists v :: IsJson(v) && Accepts(s, v)
  {
    if Fulfillable(s) { assert IsJson(Witness(s)) && Accepts(s, Witness(s)); }
    if v :| IsJson(v) && Accepts(s, v) { AcceptedFulfils(s, v); }
  }

  // ------------------------------------------------------------------ is everything accepted?

  // The schemas annotations compile to: no Record inside.
  predicate RecordFree(s: Schema) {
    match s
    case Record(_, _, _) => false
    case Items(of, _) => RecordFree(of)
    case Values(of) => RecordFree(of)
    case AnyOf(ms) => forall i :: 0 <= i < |ms| ==> RecordFree(ms[i])
    case _ => true
  }

  // Whether one "type" entry, or one anyOf alternative, takes every number, string, array, object.
  predicate AllOfType(s: Schema, t: TypeName)
    decreases s, 0
  {
    match s
    case Anything => true
    case Type(u) => u == t
    case Types(ts) => t in ts
    case Base64 => t.StringT?
    case Items(of, unique) => t.ArrayT? && !unique && Universal(of)
    case Values(of) => t.ObjectT? && Universal(of)
    case AnyOf(ms) => exists i :: 0 <= i < |ms| && AllOfType(ms[i], t)
    case _ => false
  }

  predicate Universal(s: Schema)
    decreases s, 1
  {
    && Accepts(s, Null) && Accepts(s, Bool(true)) && Accepts(s, Bool(false))
    && AllOfType(s, NumberT) && AllOfType(s, StringT) && AllOfType(s, ArrayT) && AllOfType(s, ObjectT)
  }

  lemma {:induction false} AllOfTypeAccepts(s: Schema, t: TypeName, v: Json)
    requires AllOfType(s, t) && HasType(t, v) && IsJson(v)
    ensures Accepts(s, v)
    decreases s, 0
  {
    match s
    case Types(ts) => var i :| 0 <= i < |ts| && ts[i] == t;
    case Items(of, _) =>
      forall i | 0 <= i < |v.elems| ensures Accepts(of, v.elems[i]) { UniversalAccepts(of, v.elems[i]); }
    case Values(of) =>
      forall k | k in v.fields ensures Accepts(of, v.fields[k]) { UniversalAccepts(of, v.fields[k]); }
    case AnyOf(ms) =>
      var i :| 0 <= i < |ms| && AllOfType(ms[i], t);
      AllOfTypeAccepts(ms[i], t, v);
    case _ =>
  }

  lemma {:induction false} UniversalAccepts(s: Schema, v: Json)
    requires Universal(s) && IsJson(v)
    ensures Accepts(s, v)
    decreases s, 1
  {
    match v
    case Bool(b) => assert v == Bool(true) || v == Bool(false);
    case Num(_) => AllOfTypeAccepts(s, NumberT, v);
    case Str(_) => AllOfTypeAccepts(s, StringT, v);
    case Arr(_) => AllOfTypeAccepts(s, ArrayT, v);
    case Obj(_) => AllOfTypeAccepts(s, ObjectT, v);
    case _ =>
  }

  // ------------------------------------------------------------------ a value that is missed

  // A size beyond that of every listed constant.
  function Size(v: Json): nat {
    match v
    case Num(n) => if n.Floor >= 0 then n.Floor else 0
    case Str(s) => |s|
    case Arr(elems) => |elems|
    case Obj(fields) => |fields|
    case _ => 0
  }

  function SizeBound(vs: seq<Json>): (n: nat)
    ensures forall i :: 0 <= i < |vs| ==> Size(vs[i]) < n
  {
    if vs == [] then 1
    else
      var rest := SizeBound(vs[1..]);
      assert forall i :: 0 < i < |vs| ==> vs[i] == vs[1..][i - 1];
      if Size(vs[0]) < rest then rest else Size(vs[0]) + 1
  }

  function Bound(s: Schema): nat {
    match s
    case Enum(vs) => SizeBound(vs)
    case AnyOf(ms) => BoundAll(ms)
    case _ => 0
  }

  function BoundAll(ms: seq<Schema>): (n: nat)
    ensures forall i :: 0 <= i < |ms| ==> Bound(ms[i]) <= n
  {
    if ms == [] then 0
    else
      var rest := BoundAll(ms[1..]);
      assert forall i :: 0 < i < |ms| ==> ms[i] == ms[1..][i - 1];
      if Bound(ms[0]) <= rest then rest else Bound(ms[0])
  }

  predicate Fraction(v: Json) {
    v.Num? && !Integral(v.n)
  }

  // A fraction, or a string, that is larger than the listed ones is taken only by its type.
  lemma {:induction false} LargeScalarMissed(s: Schema, v: Json)
    requires Fraction(v) || v.Str?
    requires !AllOfType(s, if v.Str? then StringT else NumberT) && Size(v) >= Bound(s)
    ensures !Accepts(s, v)
  {
    match s
    case AnyOf(ms) =>
      forall i | 0 <= i < |ms| ensures !Accepts(ms[i], v) { LargeScalarMissed(ms[i], v); }
    case _ =>
  }

  predicate Includes(xs: seq<Json>, ys: seq<Json>) {
    forall x :: x in xs ==> x in ys
  }

  // Elements that no array, however long, can hold beside a repetition and be accepted.
  ghost function BadElements(s: Schema): (xs: seq<Json>)
    requires RecordFree(s) && !AllOfType(s, ArrayT)
    ensures forall x :: x in xs ==> IsJson(x)
    ensures forall ys :: Includes(xs, ys) && |ys| >= Bound(s) && !Distinct(ys) ==> !Accepts(s, Arr(ys))
    decreases s, 1, 0
  {
    match s
    case Items(of, unique) =>
      if unique then []
      else
        var x := Missed(of);
        assert forall ys :: Includes([x], ys) ==> x in ys by { assert x in [x]; }
        [x]
    case AnyOf(ms) => BadElementsAll(s, ms)
    case _ => []
  }

  ghost function BadElementsAll(s: Schema, ms: seq<Schema>): (xs: seq<Json>)
    requires forall i :: 0 <= i < |ms| ==> ms[i] < s && RecordFree(ms[i]) && !AllOfType(ms[i], ArrayT)
    ensures forall x :: x in xs ==> IsJson(x)
    ensures forall ys, i :: 0 <= i < |ms| && Includes(xs, ys) && |ys| >= Bound(ms[i]) && !Distinct(ys) ==>
              !Accepts(ms[i], Arr(ys))
    decreases s, 0, |ms|
  {
    if ms == [] then []
    else
      assert forall i :: 0 < i < |ms| ==> ms[i] == ms[1..][i - 1];
      BadElements(ms[0]) + BadElementsAll(s, ms[1..])
  }

  predicate Holds(m: map<string, Json>, xs: seq<Json>) {
    forall x :: x in xs ==> x in m.Values
  }

  // Values that no object, however large, can hold and be accepted.
  ghost function BadFields(s: Schema): (xs: seq<Json>)
    requires RecordFree(s) && !AllOfType(s, ObjectT)
    ensures forall x :: x in xs ==> IsJson(x)
    ensures forall m: map<string, Json> :: Holds(m, xs) && |m| >= Bound(s) ==> !Accepts(s, Obj(m))
    decreases s, 1, 0
  {
    match s
    case Values(of) =>
      var x := Missed(of);
      assert x in [x];
      [x]
    case AnyOf(ms) => BadFieldsAll(s, ms)
    case _ => []
  }

  ghost function BadFieldsAll(s: Schema, ms: seq<Schema>): (xs: seq<Json>)
    requires forall i :: 0 <= i < |ms| ==> ms[i] < s && RecordFree(ms[i]) && !AllOfType(ms[i], ObjectT)
    ensures forall x :: x in xs ==> IsJson(x)
    ensures forall m: map<string, Json>, i :: 0 <= i < |ms| && Holds(m, xs) && |m| >= Bound(ms[i]) ==>
              !Accepts(ms[i], Obj(m))
    decreases s, 0, |ms|
  {
    if ms == [] then []
    else
      assert forall i :: 0 < i < |ms| ==> ms[i] == ms[1..][i - 1];
      BadFields(ms[0]) + BadFieldsAll(s, ms[1..])
  }

  function Filler(n: nat): (xs: seq<Json>)
    ensures |xs| == n && forall x :: x in xs ==> x == Null
  {
    seq(n, _ => Null)
  }

  // An object with those values, under keys of different lengths.
  function Tabulate(xs: seq<Json>): (m: map<string, Json>)
    ensures |m| == |xs| && (forall x :: x in m.Values <==> x in xs)
    ensures forall k :: k in m ==> |k| < |xs|
  {
    if xs == [] then map[]
    else
      var n := |xs| - 1;
      var rest := Tabulate(xs[..n]);
      var key := seq(n, _ => 'k');
      assert xs == xs[..n] + [xs[n]];
      assert key !in rest && rest[key := xs[n]].Keys == rest.Keys + {key};
      assert rest[key := xs[n]].Values == rest.Values + {xs[n]};
      rest[key := xs[n]]
  }

  // A JSON value that a schema misses.
  ghost function Missed(s: Schema): (v: Json)
    requires RecordFree(s) && !Universal(s)
    ensures IsJson(v) && !Accepts(s, v)
    decreases s, 2, 0
  {
    if !Accepts(s, Null) then Null
    else if !Accepts(s, Bool(true)) then Bool(true)
    else if !Accepts(s, Bool(false)) then Bool(false)
    else if !AllOfType(s, NumberT) then
      var v := Num(Bound(s) as real + 0.5);
      assert v.n.Floor == Bound(s);
      LargeScalarMissed(s, v);
      v
    else if !AllOfType(s, StringT) then
      var v := Str(seq(Bound(s), _ => 'k'));
      LargeScalarMissed(s, v);
      v
    else if !AllOfType(s, ArrayT) then
      var ys := BadElements(s) + Filler(Bound(s) + 2);
      assert ys[|ys| - 1] == Null && ys[|ys| - 2] == Null;
      Arr(ys)
    else
      var m := Tabulate(BadFields(s) + Filler(Bound(s)));
      assert forall k :: k in m ==> m[k] in m.Values;
      Obj(m)
  }

  // A record-free schema accepts every JSON value exactly when it has null and both booleans, and
  // for each other type one alternative that takes all of that type.
  lemma {:induction false} UniversalIff(s: Schema)
    requires RecordFree(s)
    ensures Universal(s) <==> forall v :: IsJson(v) ==> Accepts(s, v)
  {
    if Universal(s) {
      forall v | IsJson(v) ensures Accepts(s, v) { UniversalAccepts(s, v); }
    } else {
      assert IsJson(Missed(s)) && !Accepts(s, Missed(s));
    }
  }

  // ------------------------------------------------------------------ does one include another?

  // The type t is one of those that the schema takes all of.
  predicate TypeWithin(t: TypeName, wide: Schema) {
    match wide
    case Anything => true
    case Type(u) => u == t || (u.NumberT? && t.IntegerT?)
    case Types(us) => t in us || (NumberT in us && t.IntegerT?)
    case _ => false
  }

  // A check that `wide` takes whatever `narrow` takes.
  predicate Subsumes(wide: Schema, narrow: Schema)
    decreases narrow, wide
  {
    || wide.Anything?
    || (wide.AnyOf? && exists i :: 0 <= i < |wide.members| && Subsumes(wide.members[i], narrow))
    || match narrow
       case Anything => false
       case Type(t) => TypeWithin(t, wide)
       case Types(ts) => forall i :: 0 <= i < |ts| ==> TypeWithin(ts[i], wide)
       case Base64 => wide.Base64? || TypeWithin(StringT, wide)
       case Enum(vs) => forall i :: 0 <= i < |vs| ==> Accepts(wide, vs[i])
       case Items(of, unique) =>
         TypeWithin(ArrayT, wide) || (wide.Items? && (wide.unique ==> unique) && Subsumes(wide.items, of))
       case Fixed(_) => true
       case Values(of) => TypeWithin(ObjectT, wide) || (wide.Values? && Subsumes(wide.of, of))
       case Record(props, required, closed) =>
         || TypeWithin(ObjectT, wide)
         || (wide.Values? && closed && forall k :: k in props ==> Subsumes(wide.of, props[k]))
         || (wide.Record? && (wide.closed ==> closed && props.Keys <= wide.props.Keys)
             && (forall k :: k in wide.required ==> k in required)
             && (forall k :: k in wide.props ==> if k in props then Subsumes(wide.props[k], props[k]) else closed))
       case AnyOf(ms) => forall i :: 0 <= i < |ms| ==> Subsumes(wide, ms[i])
  }

  lemma {:induction false} TypeWithinAccepts(t: TypeName, wide: Schema, v: Json)
    requires TypeWithin(t, wide) && HasType(t, v)
    ensures Accepts(wide, v)
  {
    if wide.Types? {
      var u := if t in wide.ts then t else NumberT;
      var i :| 0 <= i < |wide.ts| && wide.ts[i] == u;
    }
  }

  lemma {:induction false} SubsumesAccepts(wide: Schema, narrow: Schema, v: Json)
    requires Subsumes(wide, narrow) && Accepts(narrow, v)
    ensures Accepts(wide, v)
    decreases narrow, wide
  {
    if wide.Anything? {
    } else if wide.AnyOf? && exists i :: 0 <= i < |wide.members| && Subsumes(wide.members[i], narrow) {
      var i :| 0 <= i < |wide.members| && Subsumes(wide.members[i], narrow);
      SubsumesAccepts(wide.members[i], narrow, v);
    } else {
      match narrow
      case Type(t) => TypeWithinAccepts(t, wide, v);
      case Types(ts) =>
        var i :| 0 <= i < |ts| && HasType(ts[i], v);
        TypeWithinAccepts(ts[i], wide, v);
      case Base64 => if !wide.Base64? { TypeWithinAccepts(StringT, wide, v); }
      case Enum(vs) => var i :| 0 <= i < |vs| && vs[i] == v;
      case Items(of, _) =>
        if TypeWithin(ArrayT, wide) { TypeWithinAccepts(ArrayT, wide, v); } else {
          forall i | 0 <= i < |v.elems| ensures Accepts(wide.items, v.elems[i]) {
            SubsumesAccepts(wide.items, of, v.elems[i]);
          }
        }
      case Values(of) =>
        if TypeWithin(ObjectT, wide) { TypeWithinAccepts(ObjectT, wide, v); } else {
          forall k | k in v.fields ensures Accepts(wide.of, v.fields[k]) { SubsumesAccepts(wide.of, of, v.fields[k]); }
        }
      case Record(_, _, _) =>
        if TypeWithin(ObjectT, wide) { TypeWithinAccepts(ObjectT, wide, v); } else { RecordSubsumes(wide, narrow, v); }
      case AnyOf(ms) =>
        var i :| 0 <= i < |ms| && Accepts(ms[i], v);
        SubsumesAccepts(wide, ms[i], v);
      case _ =>
    }
  }

  lemma {:induction false} RecordSubsumes(wide: Schema, narrow: Schema, v: Json)
    requires narrow.Record? && Subsumes(wide, narrow) && Accepts(narrow, v)
    requires !TypeWithin(ObjectT, wide) && !wide.Anything? && !wide.AnyOf?
    ensures Accepts(wide, v)
    decreases narrow, wide, 0
  {
    if wide.Values? {
      forall k | k in v.fields ensures Accepts(wide.of, v.fields[k]) {
        SubsumesAccepts(wide.of, narrow.props[k], v.fields[k]);
      }
    } else {
      forall k | k in wide.props && k in v.fields ensures Accepts(wide.props[k], v.fields[k]) {
        SubsumesAccepts(wide.props[k], narrow.props[k], v.fields[k]);
      }
    }
  }

  lemma {:induction false} SubsumesItself(s: Schema)
    ensures Subsumes(s, s)
  {
    match s
    case Items(of, _) => SubsumesItself(of);
    case Values(of) => SubsumesItself(of);
    case Record(props, _, _) => forall k | k in props ensures Subsumes(props[k], props[k]) { SubsumesItself(props[k]); }
    case AnyOf(ms) =>
      forall i | 0 <= i < |ms| ensures Subsumes(s, ms[i]) { SubsumesItself(ms[i]); }
    case _ =>
  }
}
