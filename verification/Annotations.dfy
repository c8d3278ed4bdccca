/**
 libs/toollab/codegen.py, first half: a Python type annotation compiled to a JSON Schema.

 `Compile` follows the source branch by branch.  `Inhabits` is written without it: it says
 which JSON values a reader of the annotation would call values of that type.
 */
module Annotations {
  import opened Wrappers
  import opened JsonSchema

  // The identifiers the compiler looks for; every other one is `Unknown`.
  datatype Id =
    | Int | Float | StrId | BoolId | Bytes | NoneId | NoneType | AnyId | Object
    | LowerList | UpperList | Sequence | Iterable
    | LowerTuple | UpperTuple
    | LowerDict | UpperDict | Mapping
    | LowerSet | UpperSet | LowerFrozenset | UpperFrozenset
    | Optional | Union | Literal
    | Unknown(name: string)

  // The syntax tree of an annotation, as Python's own parser delivers it.
  datatype Ann =
    | Name(id: Id)
    | Attribute(attr: Id)                             // typing.X: only the last component is looked at
    | Constant(value: Json)                           // None, a boolean or a number
    | Text(text: string, parsed: Option<Ann>)         // a string, with its own parse (None: a syntax error)
    | Negated(n: real)                                // -n, an expression and not a constant
    | Ellipsis
    | Subscript(outer: Ann, slice: Ann)
    | TupleExpr(elts: seq<Ann>)
    | BitOr(left: Ann, right: Ann)
    | Other                                           // any other expression

  datatype Generic = OptionalG | UnionG | LiteralG | ListG | TupleG | DictG | SetG | UnknownG

  function GenericOf(id: Id): Generic {
    if id.Optional? then OptionalG
    else if id.Union? then UnionG
    else if id.Literal? then LiteralG
    else if id.LowerList? || id.UpperList? || id.Sequence? || id.Iterable? then ListG
    else if id.LowerTuple? || id.UpperTuple? then TupleG
    else if id.LowerDict? || id.UpperDict? || id.Mapping? then DictG
    else if id.LowerSet? || id.UpperSet? || id.LowerFrozenset? || id.UpperFrozenset? then SetG
    else UnknownG
  }

  // The generic named by the expression before the brackets.
  function Head(outer: Ann): Generic {
    if outer.Name? then GenericOf(outer.id)
    else if outer.Attribute? then GenericOf(outer.attr)
    else UnknownG
  }

  // The names of typing that stand for each generic, and no others.
  lemma GenericNames(id: Id)
    ensures GenericOf(id) == OptionalG <==> id == Optional
    ensures GenericOf(id) == UnionG <==> id == Union
    ensures GenericOf(id) == LiteralG <==> id == Literal
    ensures GenericOf(id) == ListG <==> id in {LowerList, UpperList, Sequence, Iterable}
    ensures GenericOf(id) == TupleG <==> id in {LowerTuple, UpperTuple}
    ensures GenericOf(id) == DictG <==> id in {LowerDict, UpperDict, Mapping}
    ensures GenericOf(id) == SetG <==> id in {LowerSet, UpperSet, LowerFrozenset, UpperFrozenset}
  {
  }

  // ------------------------------------------------------------------ the compiler

  function CompileName(id: Id): Schema {
    if id.Int? then Type(IntegerT)
    else if id.Float? then Type(NumberT)
    else if id.StrId? then Type(StringT)
    else if id.BoolId? then Type(BooleanT)
    else if id.Bytes? then Base64
    else if id.NoneId? || id.NoneType? then Type(NullT)
    else if id.LowerList? || id.LowerTuple? then Type(ArrayT)
    else if id.LowerDict? then Type(ObjectT)
    else Anything   // Any, object, and every name the compiler does not know
  }

  function Compile(a: Ann): Schema
    decreases a, 0
  {
    match a
    case Name(id) => CompileName(id)
    case Attribute(attr) => CompileName(attr)
    case Constant(c) => if c.Null? then Type(NullT) else Anything
    case Text(_, parsed) => (match parsed case Some(p) => Compile(p) case None => Anything)
    case BitOr(l, r) => UnionOf(Flatten(l) + Flatten(r))
    case Subscript(outer, slice) =>
      (match Head(outer)
       case OptionalG => WithNull(Compile(slice))
       case UnionG => UnionOf(if slice.TupleExpr? then CompileAll(slice.elts) else [Compile(slice)])
       case LiteralG =>
         var values := LiteralConstants(LiteralArgs(slice));
         if values == [] then Anything else Enum(values)
       case ListG => Items(Compile(slice), false)
       case TupleG =>
         if slice.TupleExpr? && slice.elts != [] then Fixed(CompileItems(slice.elts))
         else Items(Compile(slice), false)
       case DictG =>
         if slice.TupleExpr? && |slice.elts| == 2 then
           var v := Compile(slice.elts[1]);
           if v.Anything? then Type(ObjectT) else Values(v)
         else Type(ObjectT)
       case SetG => Items(Compile(slice), true)
       case UnknownG => Anything)
    case _ => Anything
  }

  function CompileAll(elts: seq<Ann>): (ms: seq<Schema>)
    ensures |ms| == |elts|
    ensures forall i :: 0 <= i < |elts| ==> ms[i] == Compile(elts[i])
    decreases elts, 0
  {
    if elts == [] then [] else [Compile(elts[0])] + CompileAll(elts[1..])
  }

  function CompileItems(elts: seq<Ann>): seq<Schema>
    decreases elts, 0
  {
    if elts == [] then []
    else (if elts[0].Ellipsis? then [] else [Compile(elts[0])]) + CompileItems(elts[1..])
  }

  function Flatten(a: Ann): seq<Schema>
    decreases a, 1
  {
    if a.BitOr? then Flatten(a.left) + Flatten(a.right) else [Compile(a)]
  }

  function LiteralArgs(slice: Ann): seq<Ann> {
    if slice.TupleExpr? then slice.elts else [slice]
  }

  function ConstantOf(arg: Ann): seq<Json> {
    match arg
    case Constant(c) => [c]
    case Text(t, _) => [Str(t)]
    case _ => []
  }

  function LiteralConstants(args: seq<Ann>): seq<Json> {
    if args == [] then [] else ConstantOf(args[0]) + LiteralConstants(args[1..])
  }

  function NonEmpty(ms: seq<Schema>): seq<Schema> {
    if ms == [] then [] else (if ms[0].Anything? then [] else [ms[0]]) + NonEmpty(ms[1..])
  }

  function NonNull(ms: seq<Schema>): seq<Schema> {
    if ms == [] then [] else (if ms[0] == Type(NullT) then [] else [ms[0]]) + NonNull(ms[1..])
  }

  function UnionOf(members: seq<Schema>): Schema {
    var cleaned := NonEmpty(members);
    if cleaned == [] then Anything
    else if |cleaned| == 1 then cleaned[0]
    else
      var others := NonNull(cleaned);
      if Type(NullT) in cleaned && |others| == 1 && others[0].Type? then Types([others[0].t, NullT])
      else AnyOf(cleaned)
  }

  function WithNull(inner: Schema): Schema {
    if inner.Anything? then Types([NullT])
    else if inner.Type? then Types([inner.t, NullT])
    else AnyOf([inner, Type(NullT)])
  }

  // ------------------------------------------------------------------ the types

  // Unknown names are read as `Any`; a bare container name is a container of anything.
  predicate NameInhabits(id: Id, v: Json) {
    if id.Int? then HasType(IntegerT, v)
    else if id.Float? then HasType(NumberT, v)
    else if id.StrId? || id.Bytes? then v.Str?
    else if id.BoolId? then v.Bool?
    else if id.NoneId? || id.NoneType? then v.Null?
    else if GenericOf(id).ListG? || GenericOf(id).TupleG? then v.Arr?
    else if GenericOf(id).DictG? then v.Obj?
    else if GenericOf(id).SetG? then v.Arr? && Distinct(v.elems)
    else true
  }

  // The value a Literal argument stands for.
  predicate Denotes(arg: Ann, v: Json) {
    match arg
    case Constant(c) => v == c
    case Text(t, _) => v == Str(t)
    case Negated(n) => v == Num(-n)
    case _ => false
  }

  predicate LiteralInhabits(args: seq<Ann>, v: Json) {
    args != [] && (Denotes(args[0], v) || LiteralInhabits(args[1..], v))
  }

  ghost predicate Inhabits(a: Ann, v: Json)
    decreases a
  {
    match a
    case Name(id) => NameInhabits(id, v)
    case Attribute(attr) => NameInhabits(attr, v)
    case Constant(c) => c.Null? ==> v.Null?
    case Text(_, parsed) => parsed.Some? ==> Inhabits(parsed.value, v)
    case BitOr(l, r) => Inhabits(l, v) || Inhabits(r, v)
    case Subscript(outer, slice) =>
      (match Head(outer)
       case OptionalG => v.Null? || Inhabits(slice, v)
       case UnionG =>
         if slice.TupleExpr? then exists i :: 0 <= i < |slice.elts| && Inhabits(slice.elts[i], v)
         else Inhabits(slice, v)
       case LiteralG => LiteralInhabits(LiteralArgs(slice), v)
       case ListG => v.Arr? && forall i :: 0 <= i < |v.elems| ==> Inhabits(slice, v.elems[i])
       case TupleG =>
         && v.Arr?
         && if !slice.TupleExpr? then |v.elems| == 1 && Inhabits(slice, v.elems[0])
            else if |slice.elts| == 2 && slice.elts[1].Ellipsis? then
              forall i :: 0 <= i < |v.elems| ==> Inhabits(slice.elts[0], v.elems[i])
            else
              && |v.elems| == |slice.elts|
              && forall i :: 0 <= i < |v.elems| ==> Inhabits(slice.elts[i], v.elems[i])
       // JSON keys are strings, so only the value type of a dict constrains anything.
       case DictG =>
         && v.Obj?
         && (slice.TupleExpr? && |slice.elts| == 2 ==>
               forall k :: k in v.fields ==> Inhabits(slice.elts[1], v.fields[k]))
       case SetG =>
         && v.Arr?
         && (forall i :: 0 <= i < |v.elems| ==> Inhabits(slice, v.elems[i]))
         && Distinct(v.elems)
       case UnknownG => true)
    case _ => true
  }

  // ------------------------------------------------------------------ unions

  ghost predicate SomeAccepts(ms: seq<Schema>, v: Json) {
    exists m :: m in ms && Accepts(m, v)
  }

  lemma {:induction false} NonEmptyMembers(ms: seq<Schema>)
    ensures forall m :: m in NonEmpty(ms) <==> m in ms && !m.Anything?
  {
    if ms != [] { NonEmptyMembers(ms[1..]); }
  }

  lemma {:induction false} NonNullMembers(ms: seq<Schema>)
    ensures forall m :: m in NonNull(ms) <==> m in ms && m != Type(NullT)
  {
    if ms != [] { NonNullMembers(ms[1..]); }
  }

  lemma AnyOfMeaning(ms: seq<Schema>, v: Json)
    ensures Accepts(AnyOf(ms), v) <==> SomeAccepts(ms, v)
  {
    if m :| m in ms && Accepts(m, v) {
      var i :| 0 <= i < |ms| && ms[i] == m;
    }
  }

  lemma PairMeaning(t: TypeName, v: Json)
    ensures Accepts(Types([t, NullT]), v) <==> HasType(t, v) || v.Null?
  {
    var ts := [t, NullT];
    assert ts[0] == t && ts[1] == NullT;
  }

  // When only null and one plain type remain, the merged "type" list means the same.
  lemma {:induction false} MergedMeaning(cleaned: seq<Schema>, v: Json)
    requires Type(NullT) in cleaned && |NonNull(cleaned)| == 1 && NonNull(cleaned)[0].Type?
    ensures Accepts(Types([NonNull(cleaned)[0].t, NullT]), v) <==> SomeAccepts(cleaned, v)
  {
    var other := NonNull(cleaned)[0];
    NonNullMembers(cleaned);
    PairMeaning(other.t, v);
    assert other in NonNull(cleaned);
    assert forall m :: m in cleaned ==> m == Type(NullT) || m in NonNull(cleaned);
    assert forall m :: m in cleaned <==> m == Type(NullT) || m == other;
    assert Accepts(other, v) <==> HasType(other.t, v);
    assert Accepts(Type(NullT), v) <==> v.Null?;
  }

  // However a union is simplified, it accepts what one of its non-empty members accepts.
  lemma UnionMeaning(ms: seq<Schema>, v: Json)
    ensures UnionOf(ms).Anything? <==> NonEmpty(ms) == []
    ensures NonEmpty(ms) != [] ==> (Accepts(UnionOf(ms), v) <==> SomeAccepts(NonEmpty(ms), v))
  {
    var cleaned := NonEmpty(ms);
    NonEmptyMembers(ms);
    if cleaned == [] {
    } else if |cleaned| == 1 {
      assert cleaned[0] in cleaned;
      assert forall m :: m in cleaned ==> m == cleaned[0];
    } else {
      AnyOfMeaning(cleaned, v);
      var others := NonNull(cleaned);
      if Type(NullT) in cleaned && |others| == 1 && others[0].Type? {
        MergedMeaning(cleaned, v);
      }
    }
  }

  lemma {:induction false} NonEmptyConcat(xs: seq<Schema>, ys: seq<Schema>)
    ensures NonEmpty(xs + ys) == NonEmpty(xs) + NonEmpty(ys)
  {
    if xs == [] {
      assert xs + ys == ys;
    } else {
      var head := if xs[0].Anything? then [] else [xs[0]];
      NonEmptyConcat(xs[1..], ys);
      assert (xs + ys)[0] == xs[0] && (xs + ys)[1..] == xs[1..] + ys;
      Reassociate(head, NonEmpty(xs[1..]), NonEmpty(ys));
    }
  }

  // Compiling a `|` chain and flattening it are the same thing, at every node.
  lemma FlattenMeaning(a: Ann)
    ensures Compile(a) == UnionOf(Flatten(a))
  {
    if !a.BitOr? {
      var s := Compile(a);
      assert [s][1..] == [];
      assert NonEmpty([s]) == if s.Anything? then [] else [s];
    }
  }

  lemma WithNullMeaning(s: Schema, v: Json)
    ensures Accepts(WithNull(s), v) <==> v.Null? || (!s.Anything? && Accepts(s, v))
  {
    if s.Type? {
      PairMeaning(s.t, v);
    } else if s.Anything? {
      assert [NullT][0] == NullT;
    } else {
      var ms := [s, Type(NullT)];
      AnyOfMeaning(ms, v);
      assert ms[0] == s && ms[1] == Type(NullT);
    }
  }
}
