/**
 What annotation compilation promises: the schema accepts no value outside the type (soundness),
 accepts exactly the type on a fragment a caller can check (exactness), and does not depend on
 how a union is spelled.
 */
module AnnotationTheorems {
  import opened JsonSchema
  import opened SchemaTheorems
  import opened Annotations
  import opened DocumentTheorems

  // ------------------------------------------------------------------ soundness

  // The bare generic names that mean a container to Python but are unknown to the compiler.
  predicate UnknownContainer(id: Id) {
    var g := GenericOf(id);
    (g.ListG? || g.TupleG? || g.DictG? || g.SetG?) && CompileName(id).Anything?
  }

  // The annotations whose every constraint survives in the schema, or is replaced by a tighter one.
  // What an Optional or a union drops does not matter, as long as something is left.
  predicate Recognised(a: Ann) {
    match a
    case Name(id) => !UnknownContainer(id)
    case Attribute(attr) => !UnknownContainer(attr)
    case Text(_, parsed) => parsed.Some? ==> Recognised(parsed.value)
    case BitOr(l, r) =>
      if Compile(l).Anything? && Compile(r).Anything? then Recognised(l) || Recognised(r)
      else (Compile(l).Anything? || Recognised(l)) && (Compile(r).Anything? || Recognised(r))
    case Subscript(outer, slice) =>
      (match Head(outer)
       case OptionalG => Compile(slice).Anything? || Recognised(slice)
       case UnionG =>
         if !slice.TupleExpr? then Recognised(slice)
         else if AllEmpty(slice.elts) then exists i :: 0 <= i < |slice.elts| && Recognised(slice.elts[i])
         else forall i :: 0 <= i < |slice.elts| ==> Compile(slice.elts[i]).Anything? || Recognised(slice.elts[i])
       case LiteralG => LiteralConstants(LiteralArgs(slice)) != []
       case ListG => Recognised(slice)
       case SetG => Recognised(slice)
       case TupleG => slice.TupleExpr? && slice.elts != []   // a schema that accepts nothing
       case DictG => slice.TupleExpr? && |slice.elts| == 2 ==> Recognised(slice.elts[1])
       case UnknownG => true)
    case _ => true
  }

  predicate AllEmpty(elts: seq<Ann>) {
    forall i :: 0 <= i < |elts| ==> Compile(elts[i]).Anything?
  }

  lemma AllEmptyIff(elts: seq<Ann>)
    ensures AllEmpty(elts) <==> NonEmpty(CompileAll(elts)) == []
  {
    var ms := CompileAll(elts);
    NonEmptyMembers(ms);
    if i :| 0 <= i < |elts| && !Compile(elts[i]).Anything? { assert ms[i] in NonEmpty(ms); }
    if NonEmpty(ms) != [] { assert NonEmpty(ms)[0] in NonEmpty(ms); }
  }

  predicate AllConstants(args: seq<Ann>) {
    forall i :: 0 <= i < |args| ==> args[i].Constant? || args[i].Text?
  }

  lemma {:induction false} LiteralConstantsDenote(args: seq<Ann>, v: Json)
    ensures v in LiteralConstants(args) ==> LiteralInhabits(args, v)
    ensures AllConstants(args) && LiteralInhabits(args, v) ==> v in LiteralConstants(args)
  {
    if args != [] { LiteralConstantsDenote(args[1..], v); }
  }

  // The schema `{}` is only ever emitted for a type that everything inhabits.
  lemma {:induction false} EmptyMeansAny(a: Ann, v: Json)
    requires Recognised(a) && Compile(a).Anything?
    ensures Inhabits(a, v)
    decreases a
  {
    match a
    case Text(_, parsed) =>
      if parsed.Some? { EmptyMeansAny(parsed.value, v); }
    case BitOr(l, r) =>
      UnionMeaning(Flatten(l) + Flatten(r), v);
      NonEmptyConcat(Flatten(l), Flatten(r));
      UnionMeaning(Flatten(l), v);
      UnionMeaning(Flatten(r), v);
      FlattenMeaning(l);
      FlattenMeaning(r);
      EmptyMeansAny(if Recognised(l) then l else r, v);
    case Subscript(outer, slice) =>
      if Head(outer) == UnionG {
        var ms := if slice.TupleExpr? then CompileAll(slice.elts) else [Compile(slice)];
        UnionMeaning(ms, v);
        if slice.TupleExpr? {
          AllEmptyIff(slice.elts);
          var i :| 0 <= i < |slice.elts| && Recognised(slice.elts[i]);
          EmptyMeansAny(slice.elts[i], v);
        } else {
          assert ms[0] in ms;
          EmptyMeansAny(slice, v);
        }
      }
    case _ =>
  }

  // Every value the compiled schema accepts inhabits the annotated type, at any nesting depth.
  lemma {:induction false} CompileSound(a: Ann, v: Json)
    requires Recognised(a) && Accepts(Compile(a), v)
    ensures Inhabits(a, v)
    decreases a
  {
    if Compile(a).Anything? {
      EmptyMeansAny(a, v);
    } else {
      match a
      case Text(_, parsed) => CompileSound(parsed.value, v);
      case BitOr(l, r) =>
        UnionMeaning(Flatten(l) + Flatten(r), v);
        NonEmptyConcat(Flatten(l), Flatten(r));
        UnionMeaning(Flatten(l), v);
        UnionMeaning(Flatten(r), v);
        FlattenMeaning(l);
        FlattenMeaning(r);
        var m :| m in NonEmpty(Flatten(l) + Flatten(r)) && Accepts(m, v);
        if m in NonEmpty(Flatten(l)) { CompileSound(l, v); } else { CompileSound(r, v); }
      case Subscript(outer, slice) => SubscriptSound(a, outer, slice, v);
      case _ =>
    }
  }

  lemma {:induction false} SubscriptSound(a: Ann, outer: Ann, slice: Ann, v: Json)
    requires a == Subscript(outer, slice) && Recognised(a) && Accepts(Compile(a), v) && !Compile(a).Anything?
    ensures Inhabits(a, v)
    decreases a, 0
  {
    var g := Head(outer);
    if g.OptionalG? {
      WithNullMeaning(Compile(slice), v);
      if !v.Null? { CompileSound(slice, v); }
    } else if g.UnionG? {
      var ms := if slice.TupleExpr? then CompileAll(slice.elts) else [Compile(slice)];
      UnionMeaning(ms, v);
      NonEmptyMembers(ms);
      if slice.TupleExpr? { AllEmptyIff(slice.elts); }
      var m :| m in NonEmpty(ms) && Accepts(m, v);
      var i :| 0 <= i < |ms| && ms[i] == m;
      CompileSound(if slice.TupleExpr? then slice.elts[i] else slice, v);
    } else if g.LiteralG? {
      LiteralConstantsDenote(LiteralArgs(slice), v);
    } else if g.DictG? {
      if slice.TupleExpr? && |slice.elts| == 2 {
        forall k | k in v.fields ensures Inhabits(slice.elts[1], v.fields[k]) {
          CompileSound(slice.elts[1], v.fields[k]);
        }
      }
    } else if g.ListG? || g.SetG? {
      forall i | 0 <= i < |v.elems| ensures Inhabits(slice, v.elems[i]) { CompileSound(slice, v.elems[i]); }
    }
  }

  // ------------------------------------------------------------------ when soundness fails

  ghost predicate Sound(a: Ann) {
    forall v :: IsJson(v) && Validates(Compile(a), v) ==> Inhabits(a, v)
  }

  // No union inside keeps a member: one member of such a union may make up for what another lets in.
  predicate UnionFree(a: Ann) {
    match a
    case Text(_, parsed) => parsed.Some? ==> UnionFree(parsed.value)
    case BitOr(l, r) => AllEmpty([l, r]) && UnionFree(l) && UnionFree(r)
    case Subscript(outer, slice) =>
      (match Head(outer)
       case OptionalG => UnionFree(slice)
       case UnionG =>
         if slice.TupleExpr? then
           AllEmpty(slice.elts) && forall i :: 0 <= i < |slice.elts| ==> UnionFree(slice.elts[i])
         else UnionFree(slice)
       case ListG => UnionFree(slice)
       case SetG => UnionFree(slice)
       case DictG => slice.TupleExpr? && |slice.elts| == 2 ==> UnionFree(slice.elts[1])
       case _ => true)
    case _ => true
  }

  // A value that the schema lets in and the type does not have; null where the schema is `{}`.
  predicate LetIn(v: Json, s: Schema) {
    IsJson(v) && Accepts(s, v) && (s.Anything? <==> v.Null?)
  }

  lemma {:induction false} Intruder(a: Ann) returns (v: Json)
    requires UnionFree(a) && !Recognised(a)
    ensures LetIn(v, Compile(a)) && !Inhabits(a, v)
    decreases a, 1
  {
    match a
    case Text(_, parsed) => v := Intruder(parsed.value);
    case BitOr(l, r) => v := BarIntruder(l, r);
    case Subscript(outer, slice) => v := SubscriptIntruder(a, outer, slice);
    case _ => v := Null;
  }

  lemma {:induction false} BarIntruder(l: Ann, r: Ann) returns (v: Json)
    requires UnionFree(BitOr(l, r)) && !Recognised(BitOr(l, r))
    ensures LetIn(v, Compile(BitOr(l, r))) && !Inhabits(BitOr(l, r), v)
    decreases BitOr(l, r), 0
  {
    assert [l, r][0] == l && [l, r][1] == r;
    v := Null;
    var ofL := Intruder(l);
    var ofR := Intruder(r);
    NonEmptyConcat(Flatten(l), Flatten(r));
    FlattenMeaning(l);
    FlattenMeaning(r);
    UnionMeaning(Flatten(l), v);
    UnionMeaning(Flatten(r), v);
  }

  lemma {:induction false} SubscriptIntruder(a: Ann, outer: Ann, slice: Ann) returns (v: Json)
    requires a == Subscript(outer, slice) && UnionFree(a) && !Recognised(a)
    ensures LetIn(v, Compile(a)) && !Inhabits(a, v)
    decreases a, 0
  {
    var g := Head(outer);
    if g.OptionalG? {
      v := Intruder(slice);
      WithNullMeaning(Compile(slice), v);
    } else if g.UnionG? {
      v := UnionIntruder(a, outer, slice);
    } else if g.LiteralG? {
      v := Null;
      NoConstantsNoNull(LiteralArgs(slice));
    } else if g.TupleG? {
      v := if slice.TupleExpr? then Arr([Null]) else Arr([]);
    } else {
      v := ContainerIntruder(a, outer, slice);
    }
  }

  lemma {:induction false} ContainerIntruder(a: Ann, outer: Ann, slice: Ann) returns (v: Json)
    requires a == Subscript(outer, slice) && UnionFree(a) && !Recognised(a)
    requires Head(outer).DictG? || Head(outer).ListG? || Head(outer).SetG?
    ensures LetIn(v, Compile(a)) && !Inhabits(a, v)
    decreases a, 0, 0
  {
    if Head(outer).DictG? {
      var w := Intruder(slice.elts[1]);
      v := Obj(map["k" := w]);
      assert v.fields["k"] == w;
    } else {
      var w := Intruder(slice);
      v := Arr([w]);
      assert v.elems[0] == w;
    }
  }

  lemma {:induction false} UnionIntruder(a: Ann, outer: Ann, slice: Ann) returns (v: Json)
    requires a == Subscript(outer, slice) && Head(outer).UnionG? && UnionFree(a) && !Recognised(a)
    ensures LetIn(v, Compile(a)) && !Inhabits(a, v)
    decreases a, 0, 0
  {
    if slice.TupleExpr? {
      v := Null;
      AllEmptyIff(slice.elts);
      forall i | 0 <= i < |slice.elts| ensures !Inhabits(slice.elts[i], Null) {
        var w := Intruder(slice.elts[i]);
      }
    } else {
      v := Intruder(slice);
      UnionMeaning([Compile(slice)], v);
      OneMember(Compile(slice));
    }
  }

  lemma OneMember(s: Schema)
    ensures NonEmpty([s]) == (if s.Anything? then [] else [s]) && UnionOf([s]) == s
  {
    assert [s][1..] == [];
  }

  lemma {:induction false} NoConstantsNoNull(args: seq<Ann>)
    requires LiteralConstants(args) == []
    ensures !LiteralInhabits(args, Null)
  {
    if args != [] { NoConstantsNoNull(args[1..]); }
  }

  // Where no union keeps a member, compilation is sound exactly on the recognised annotations, and
  // on those whose schema is no valid document and so lets nothing in.
  lemma {:induction false} SoundIff(a: Ann)
    requires UnionFree(a)
    ensures Sound(a) <==> Recognised(a) || !Documented(a)
  {
    DocumentIff(a);
    if Recognised(a) {
      forall v | Accepts(Compile(a), v) ensures Inhabits(a, v) { CompileSound(a, v); }
    } else if Documented(a) {
      var v := Intruder(a);
    }
  }

  // So a bare name is compiled soundly unless it is an unknown container, a Literal exactly when
  // one of its arguments is a constant, and a subscripted tuple exactly when its schema is no valid
  // document, as when it lists its members.
  lemma SoundBoundaries(id: Id, slice: Ann)
    ensures Sound(Name(id)) <==> !UnknownContainer(id)
    ensures Sound(Subscript(Name(Literal), slice)) <==> LiteralConstants(LiteralArgs(slice)) != []
    ensures Sound(Subscript(Name(LowerTuple), slice)) <==> (slice.TupleExpr? && slice.elts != []) || !Documented(slice)
  {
    SoundIff(Name(id));
    LiteralBoundary(slice);
    TupleBoundary(slice);
  }

  lemma LiteralBoundary(slice: Ann)
    ensures Sound(Subscript(Name(Literal), slice)) <==> LiteralConstants(LiteralArgs(slice)) != []
  {
    SoundIff(Subscript(Name(Literal), slice));
  }

  lemma TupleBoundary(slice: Ann)
    ensures Sound(Subscript(Name(LowerTuple), slice)) <==> (slice.TupleExpr? && slice.elts != []) || !Documented(slice)
  {
    SoundIff(Subscript(Name(LowerTuple), slice));
  }

  // One annotation beyond each boundary, and a value it lets in.
  lemma UnrecognisedIsUnsound()
    ensures var bareSet := Name(LowerSet);
            Accepts(Compile(bareSet), Null) && !Inhabits(bareSet, Null)
    ensures var minusOne := Subscript(Name(Literal), Negated(1.0));
            Accepts(Compile(minusOne), Null) && !Inhabits(minusOne, Null)
    ensures var single := Subscript(Name(LowerTuple), Name(Int));
            Accepts(Compile(single), Arr([])) && !Inhabits(single, Arr([]))
  {
  }

  // ------------------------------------------------------------------ exactness

  // No Optional wraps, and no union mixes in, a member whose schema is `{}`, no Optional wraps null,
  // and every Literal argument is a constant.
  predicate Faithful(a: Ann) {
    match a
    case Name(id) => !UnknownContainer(id)
    case Attribute(attr) => !UnknownContainer(attr)
    case Text(_, parsed) => parsed.Some? ==> Faithful(parsed.value)
    case BitOr(l, r) => Faithful(l) && Faithful(r) && (Compile(l).Anything? <==> Compile(r).Anything?)
    case Subscript(outer, slice) =>
      (match Head(outer)
       case OptionalG => Faithful(slice) && !Compile(slice).Anything? && Compile(slice) != Type(NullT)
       case UnionG =>
         if slice.TupleExpr? then
           && slice.elts != []
           && (forall i :: 0 <= i < |slice.elts| ==> Faithful(slice.elts[i]))
           && (forall i :: 0 <= i < |slice.elts| ==>
                 (Compile(slice.elts[i]).Anything? <==> Compile(slice.elts[0]).Anything?))
         else Faithful(slice)
       case LiteralG =>
         var args := LiteralArgs(slice);
         args != [] && AllConstants(args)
       case ListG => Faithful(slice)
       case SetG => Faithful(slice)
       case TupleG => false
       case DictG => slice.TupleExpr? && |slice.elts| == 2 ==> Faithful(slice.elts[1])
       case UnknownG => true)
    case _ => true
  }

  lemma {:induction false} FaithfulRecognised(a: Ann)
    requires Faithful(a)
    ensures Recognised(a)
  {
    match a
    case Text(_, parsed) => if parsed.Some? { FaithfulRecognised(parsed.value); }
    case BitOr(l, r) => FaithfulRecognised(l); FaithfulRecognised(r);
    case Subscript(outer, slice) =>
      var g := Head(outer);
      if g.OptionalG? || g.ListG? || g.SetG? || (g.UnionG? && !slice.TupleExpr?) {
        FaithfulRecognised(slice);
      } else if g.UnionG? {
        forall i | 0 <= i < |slice.elts| ensures Recognised(slice.elts[i]) { FaithfulRecognised(slice.elts[i]); }
        assert Recognised(slice.elts[0]);
      } else if g.DictG? && slice.TupleExpr? && |slice.elts| == 2 {
        FaithfulRecognised(slice.elts[1]);
      }
    case _ =>
  }

  lemma {:induction false} CompileComplete(a: Ann, v: Json)
    requires Faithful(a) && Inhabits(a, v)
    ensures Accepts(Compile(a), v)
    decreases a
  {
    match a
    case Text(_, parsed) =>
      if parsed.Some? { CompileComplete(parsed.value, v); }
    case BitOr(l, r) =>
      UnionMeaning(Flatten(l) + Flatten(r), v);
      NonEmptyConcat(Flatten(l), Flatten(r));
      UnionMeaning(Flatten(l), v);
      UnionMeaning(Flatten(r), v);
      FlattenMeaning(l);
      FlattenMeaning(r);
      if Inhabits(l, v) { CompileComplete(l, v); } else { CompileComplete(r, v); }
    case Subscript(outer, slice) => SubscriptComplete(a, outer, slice, v);
    case _ =>
  }

  lemma {:induction false} SubscriptComplete(a: Ann, outer: Ann, slice: Ann, v: Json)
    requires a == Subscript(outer, slice) && Faithful(a) && Inhabits(a, v)
    ensures Accepts(Compile(a), v)
    decreases a, 0
  {
    var g := Head(outer);
    if g.OptionalG? {
      WithNullMeaning(Compile(slice), v);
      if !v.Null? { CompileComplete(slice, v); }
    } else if g.UnionG? {
      UnionComplete(a, outer, slice, v);
    } else if g.LiteralG? {
      LiteralConstantsDenote(LiteralArgs(slice), v);
    } else if g.DictG? {
      if slice.TupleExpr? && |slice.elts| == 2 {
        forall k | k in v.fields ensures Accepts(Compile(slice.elts[1]), v.fields[k]) {
          CompileComplete(slice.elts[1], v.fields[k]);
        }
      }
    } else if g.ListG? || g.SetG? {
      forall i | 0 <= i < |v.elems| ensures Accepts(Compile(slice), v.elems[i]) {
        CompileComplete(slice, v.elems[i]);
      }
    }
  }

  lemma {:induction false} UnionComplete(a: Ann, outer: Ann, slice: Ann, v: Json)
    requires a == Subscript(outer, slice) && Head(outer).UnionG? && Faithful(a) && Inhabits(a, v)
    ensures Accepts(Compile(a), v)
    decreases a, 0, 0
  {
    var ms := if slice.TupleExpr? then CompileAll(slice.elts) else [Compile(slice)];
    UnionMeaning(ms, v);
    NonEmptyMembers(ms);
    if slice.TupleExpr? {
      var i :| 0 <= i < |ms| && Inhabits(slice.elts[i], v);
      CompileComplete(slice.elts[i], v);
      assert ms[i] in ms && Accepts(ms[i], v);
    } else {
      CompileComplete(slice, v);
      assert ms[0] in ms && Accepts(ms[0], v);
    }
  }

  lemma {:induction false} FaithfulDocumented(a: Ann)
    requires Faithful(a)
    ensures Documented(a)
  {
    match a
    case Text(_, parsed) => if parsed.Some? { FaithfulDocumented(parsed.value); }
    case BitOr(l, r) => FaithfulDocumented(l); FaithfulDocumented(r);
    case Subscript(outer, slice) =>
      var g := Head(outer);
      if g.OptionalG? || g.ListG? || g.SetG? || (g.UnionG? && !slice.TupleExpr?) {
        FaithfulDocumented(slice);
      } else if g.UnionG? {
        forall i | 0 <= i < |slice.elts| ensures Documented(slice.elts[i]) { FaithfulDocumented(slice.elts[i]); }
      } else if g.DictG? && slice.TupleExpr? && |slice.elts| == 2 {
        FaithfulDocumented(slice.elts[1]);
      }
    case _ =>
  }

  // On the faithful fragment the schema is a valid document, and it and the type are the same set of
  // values.
  lemma {:induction false} CompileExact(a: Ann, v: Json)
    requires Faithful(a)
    ensures ValidDocument(Compile(a)) && (Validates(Compile(a), v) <==> Inhabits(a, v))
  {
    FaithfulRecognised(a);
    FaithfulDocumented(a);
    DocumentIff(a);
    if Accepts(Compile(a), v) { CompileSound(a, v); }
    if Inhabits(a, v) { CompileComplete(a, v); }
  }

  // A valid document that is exact on everything that can arrive as JSON.
  ghost predicate Exact(a: Ann) {
    ValidDocument(Compile(a)) && forall v :: IsJson(v) ==> Agrees(a, v)
  }

  ghost predicate Agrees(a: Ann, v: Json) {
    Accepts(Compile(a), v) <==> Inhabits(a, v)
  }

  lemma {:induction false} FaithfulExact(a: Ann)
    requires Faithful(a)
    ensures Exact(a)
  {
    CompileExact(a, Null);
    forall v ensures Agrees(a, v) { CompileExact(a, v); }
  }

  // Wrapping an exact type in Optional stays exact if and only if its schema is neither `{}` nor that
  // of null.
  lemma {:induction false} OptionalExactIff(t: Ann)
    requires Exact(t)
    ensures Exact(Subscript(Name(Optional), t)) <==> !Compile(t).Anything? && Compile(t) != Type(NullT)
  {
    var a := Subscript(Name(Optional), t);
    WithNullMeaning(Compile(t), Bool(true));
    WithNullValidIff(Compile(t));
    if Compile(t).Anything? {
      assert !Agrees(a, Bool(true)) by { assert Agrees(t, Bool(true)); }
    } else {
      forall v | IsJson(v) ensures Agrees(a, v) {
        assert Agrees(t, v);
        WithNullMeaning(Compile(t), v);
      }
    }
  }

  lemma UnionIs(elts: seq<Ann>)
    ensures Compile(Subscript(Name(Union), TupleExpr(elts))) == UnionOf(CompileAll(elts))
  {
  }

  lemma UnionMember(elts: seq<Ann>, v: Json)
    ensures Inhabits(Subscript(Name(Union), TupleExpr(elts)), v) <==>
            exists i :: 0 <= i < |elts| && Inhabits(elts[i], v)
  {
  }

  lemma {:induction false} UnionInhabits(elts: seq<Ann>, v: Json)
    requires IsJson(v) && forall i :: 0 <= i < |elts| ==> Exact(elts[i])
    ensures Inhabits(Subscript(Name(Union), TupleExpr(elts)), v) <==> SomeAccepts(CompileAll(elts), v)
  {
    var ms := CompileAll(elts);
    UnionMember(elts, v);
    forall i | 0 <= i < |elts| ensures Inhabits(elts[i], v) <==> Accepts(ms[i], v) {
      assert Exact(elts[i]);
      assert Agrees(elts[i], v);
    }
    if m :| m in ms && Accepts(m, v) {
      var i :| 0 <= i < |ms| && ms[i] == m;
      assert Inhabits(elts[i], v);
    }
    if i :| 0 <= i < |elts| && Inhabits(elts[i], v) {
      assert ms[i] in ms;
    }
  }

  lemma UnionCompiles(elts: seq<Ann>, v: Json)
    ensures
      var ms := CompileAll(elts);
      Accepts(Compile(Subscript(Name(Union), TupleExpr(elts))), v) <==>
      NonEmpty(ms) == [] || SomeAccepts(NonEmpty(ms), v)
  {
    UnionIs(elts);
    UnionMeaning(CompileAll(elts), v);
  }

  lemma DroppedMembers(ms: seq<Schema>, v: Json)
    ensures Anything in ms ==> SomeAccepts(ms, v)
    ensures Anything !in ms ==> (SomeAccepts(ms, v) <==> SomeAccepts(NonEmpty(ms), v))
    ensures ms != [] && NonEmpty(ms) == [] ==> SomeAccepts(ms, v)
  {
    NonEmptyMembers(ms);
    assert Accepts(Anything, v);
    assert Anything !in ms ==> forall m :: m in ms <==> m in NonEmpty(ms);
    if ms != [] && NonEmpty(ms) == [] { assert ms[0] in ms; }
  }

  lemma {:induction false} CompileRecordFree(a: Ann)
    ensures RecordFree(Compile(a))
    decreases a, 0
  {
    match a
    case Text(_, parsed) => if parsed.Some? { CompileRecordFree(parsed.value); }
    case BitOr(l, r) =>
      FlattenRecordFree(l);
      FlattenRecordFree(r);
      UnionRecordFree(Flatten(l) + Flatten(r));
    case Subscript(outer, slice) =>
      var g := Head(outer);
      if g.UnionG? && slice.TupleExpr? {
        forall i | 0 <= i < |slice.elts| ensures RecordFree(Compile(slice.elts[i])) {
          CompileRecordFree(slice.elts[i]);
        }
        UnionRecordFree(CompileAll(slice.elts));
      } else if g.DictG? {
        if slice.TupleExpr? && |slice.elts| == 2 { CompileRecordFree(slice.elts[1]); }
      } else {
        CompileRecordFree(slice);
        OneMember(Compile(slice));
      }
    case _ =>
  }

  lemma {:induction false} FlattenRecordFree(a: Ann)
    ensures forall m :: m in Flatten(a) ==> RecordFree(m)
    decreases a, 1
  {
    if a.BitOr? {
      FlattenRecordFree(a.left);
      FlattenRecordFree(a.right);
    } else {
      CompileRecordFree(a);
    }
  }

  lemma {:induction false} UnionRecordFree(ms: seq<Schema>)
    requires forall m :: m in ms ==> RecordFree(m)
    ensures RecordFree(UnionOf(ms)) && RecordFree(AnyOf(NonEmpty(ms)))
  {
    NonEmptyMembers(ms);
    assert forall i :: 0 <= i < |NonEmpty(ms)| ==> NonEmpty(ms)[i] in NonEmpty(ms);
  }

  // Whether the union's schema takes every JSON value that inhabits the union.
  ghost predicate ExactAt(ms: seq<Schema>, v: Json) {
    (NonEmpty(ms) == [] || SomeAccepts(NonEmpty(ms), v)) == SomeAccepts(ms, v)
  }

  ghost predicate ExactEverywhere(ms: seq<Schema>) {
    forall v :: IsJson(v) ==> ExactAt(ms, v)
  }

  ghost predicate AllExact(elts: seq<Ann>) {
    forall i :: 0 <= i < |elts| ==> Exact(elts[i])
  }

  lemma {:induction false} UnionExactAt(elts: seq<Ann>, a: Ann)
    requires AllExact(elts) && a == Subscript(Name(Union), TupleExpr(elts))
    ensures Exact(a) <==> ExactEverywhere(CompileAll(elts))
  {
    UnionIs(elts);
    UnionValidIff(CompileAll(elts));
    if Exact(a) {
      forall v | IsJson(v) ensures ExactAt(CompileAll(elts), v) {
        UnionExactHere(elts, a, v);
        assert Agrees(a, v);
      }
    }
    if ExactEverywhere(CompileAll(elts)) {
      forall v | IsJson(v) ensures Agrees(a, v) {
        UnionExactHere(elts, a, v);
        assert ExactAt(CompileAll(elts), v);
      }
    }
  }

  lemma {:induction false} UnionExactHere(elts: seq<Ann>, a: Ann, v: Json)
    requires IsJson(v) && AllExact(elts) && a == Subscript(Name(Union), TupleExpr(elts))
    ensures Agrees(a, v) <==> ExactAt(CompileAll(elts), v)
  {
    UnionCompiles(elts, v);
    UnionInhabits(elts, v);
  }

  lemma {:induction false} CoverageIff(ms: seq<Schema>)
    requires ms != [] && RecordFree(AnyOf(NonEmpty(ms)))
    ensures ExactEverywhere(ms) <==> Anything !in ms || NonEmpty(ms) == [] || Universal(AnyOf(NonEmpty(ms)))
  {
    var kept := AnyOf(NonEmpty(ms));
    if Anything !in ms || NonEmpty(ms) == [] {
      forall v ensures ExactAt(ms, v) { DroppedMembers(ms, v); }
    } else if Universal(kept) {
      forall v | IsJson(v) ensures ExactAt(ms, v) {
        UniversalAccepts(kept, v);
        AnyOfMeaning(NonEmpty(ms), v);
        DroppedMembers(ms, v);
      }
    } else {
      var v := Missed(kept);
      AnyOfMeaning(NonEmpty(ms), v);
      DroppedMembers(ms, v);
      assert !ExactAt(ms, v);
    }
  }

  // A union of exact types is exact if and only if no member is `{}`, or all are, or the members
  // that survive take every JSON value between them.
  lemma {:induction false} UnionExactIff(elts: seq<Ann>)
    requires elts != [] && AllExact(elts)
    ensures
      var ms := CompileAll(elts);
      Exact(Subscript(Name(Union), TupleExpr(elts))) <==>
      (Anything !in ms || NonEmpty(ms) == [] || Universal(AnyOf(NonEmpty(ms))))
  {
    var ms := CompileAll(elts);
    UnionExactAt(elts, Subscript(Name(Union), TupleExpr(elts)));
    forall i | 0 <= i < |elts| ensures RecordFree(ms[i]) { CompileRecordFree(elts[i]); }
    UnionRecordFree(ms);
    CoverageIff(ms);
  }

  // Any dropped beside one type loses values; beside one type of each kind it loses none.
  lemma DroppedAny()
    ensures !Exact(Subscript(Name(Union), TupleExpr([Name(AnyId), Name(Int)])))
    ensures Exact(Subscript(Name(Union), TupleExpr([Name(AnyId)] + OfEachKind())))
  {
    AnyBesideInt();
    AnyBesideEachKind();
  }

  lemma AnyBesideInt()
    ensures !Exact(Subscript(Name(Union), TupleExpr([Name(AnyId), Name(Int)])))
  {
    NamesCompile([AnyId, Int], [Anything] + [Type(IntegerT)]);
    assert Names([AnyId, Int]) == [Name(AnyId), Name(Int)];
    DroppedAnyExactIff([Name(AnyId), Name(Int)], [Type(IntegerT)]);
    assert !Accepts(AnyOf([Type(IntegerT)]), Null);
  }

  lemma AnyBesideEachKind()
    ensures Exact(Subscript(Name(Union), TupleExpr([Name(AnyId)] + OfEachKind())))
  {
    NamesCompile([AnyId] + KindIds(), [Anything] + OneOfEachKind());
    assert Names([AnyId] + KindIds()) == [Name(AnyId)] + OfEachKind();
    DroppedAnyExactIff([Name(AnyId)] + OfEachKind(), OneOfEachKind());
    KindsCover();
  }

  function KindIds(): seq<Id> {
    [NoneId, BoolId, Float, StrId, LowerList, LowerDict]
  }

  function Names(ids: seq<Id>): seq<Ann> {
    seq(|ids|, i requires 0 <= i < |ids| => Name(ids[i]))
  }

  lemma {:induction false} NamesCompile(ids: seq<Id>, ms: seq<Schema>)
    requires |ms| == |ids| && forall i :: 0 <= i < |ids| ==> !UnknownContainer(ids[i]) && CompileName(ids[i]) == ms[i]
    ensures CompileAll(Names(ids)) == ms && forall i :: 0 <= i < |ids| ==> Faithful(Names(ids)[i])
  {
  }

  lemma {:induction false} DroppedAnyExactIff(elts: seq<Ann>, ms: seq<Schema>)
    requires forall i :: 0 <= i < |elts| ==> Faithful(elts[i])
    requires ms != [] && CompileAll(elts) == [Anything] + ms && forall i :: 0 <= i < |ms| ==> !ms[i].Anything?
    ensures Exact(Subscript(Name(Union), TupleExpr(elts))) <==> Universal(AnyOf(ms))
  {
    forall i | 0 <= i < |elts| ensures Exact(elts[i]) { FaithfulExact(elts[i]); }
    AnyDropped(ms);
    UnionExactIff(elts);
  }

  lemma {:induction false} NoneEmpty(ms: seq<Schema>)
    requires forall i :: 0 <= i < |ms| ==> !ms[i].Anything?
    ensures NonEmpty(ms) == ms
  {
    if ms != [] { NoneEmpty(ms[1..]); }
  }

  lemma {:induction false} AnyDropped(ms: seq<Schema>)
    requires forall i :: 0 <= i < |ms| ==> !ms[i].Anything?
    ensures NonEmpty([Anything] + ms) == ms && Anything in [Anything] + ms
  {
    NoneEmpty(ms);
    assert ([Anything] + ms)[0] == Anything && ([Anything] + ms)[1..] == ms;
  }

  lemma KindsCover()
    ensures Universal(AnyOf(OneOfEachKind()))
  {
    var ms := OneOfEachKind();
    assert ms[0] == Type(NullT) && ms[1] == Type(BooleanT) && ms[2] == Type(NumberT);
    assert ms[3] == Type(StringT) && ms[4] == Type(ArrayT) && ms[5] == Type(ObjectT);
    KindCovers(ms, 2, NumberT);
    KindCovers(ms, 3, StringT);
    KindCovers(ms, 4, ArrayT);
    KindCovers(ms, 5, ObjectT);
    assert Accepts(ms[0], Null) && Accepts(ms[1], Bool(true)) && Accepts(ms[1], Bool(false));
  }

  lemma {:induction false} KindCovers(ms: seq<Schema>, i: nat, t: TypeName)
    requires i < |ms| && ms[i] == Type(t)
    ensures AllOfType(AnyOf(ms), t)
  {
  }

  function OfEachKind(): seq<Ann> {
    Names(KindIds())
  }

  function OneOfEachKind(): seq<Schema> {
    [Type(NullT), Type(BooleanT), Type(NumberT), Type(StringT), Type(ArrayT), Type(ObjectT)]
  }
}
