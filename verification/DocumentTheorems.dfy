/** Which annotations compile to a dictionary that is a valid schema document. */
module DocumentTheorems {
  import opened JsonSchema
  import opened Annotations

  // No `tuple` that lists its members, and no Optional of a type that is null already, is looked at.
  predicate Documented(a: Ann) {
    match a
    case Text(_, parsed) => parsed.Some? ==> Documented(parsed.value)
    case BitOr(l, r) => Documented(l) && Documented(r)
    case Subscript(outer, slice) =>
      (match Head(outer)
       case OptionalG => Documented(slice) && Compile(slice) != Type(NullT)
       case UnionG =>
         if slice.TupleExpr? then forall i :: 0 <= i < |slice.elts| ==> Documented(slice.elts[i]) else Documented(slice)
       case LiteralG => true
       case ListG => Documented(slice)
       case SetG => Documented(slice)
       case TupleG => !(slice.TupleExpr? && slice.elts != []) && Documented(slice)
       case DictG => slice.TupleExpr? && |slice.elts| == 2 ==> Documented(slice.elts[1])
       case UnknownG => true)
    case _ => true
  }

  predicate AllValid(ms: seq<Schema>) {
    forall m :: m in ms ==> ValidDocument(m)
  }

  lemma UnionValidIff(ms: seq<Schema>)
    ensures ValidDocument(UnionOf(ms)) <==> AllValid(ms)
  {
    var cleaned := NonEmpty(ms);
    NonEmptyMembers(ms);
    assert AllValid(ms) <==> AllValid(cleaned);
    if |cleaned| == 1 {
      assert cleaned[0] in cleaned;
    } else if |cleaned| > 1 {
      assert AllValid(cleaned) <==> forall i :: 0 <= i < |cleaned| ==> ValidDocument(cleaned[i]);
      var others := NonNull(cleaned);
      if Type(NullT) in cleaned && |others| == 1 && others[0].Type? { MergedValid(cleaned); }
    }
  }

  lemma {:induction false} MergedValid(cleaned: seq<Schema>)
    requires Type(NullT) in cleaned && |NonNull(cleaned)| == 1 && NonNull(cleaned)[0].Type?
    ensures AllValid(cleaned) && ValidDocument(Types([NonNull(cleaned)[0].t, NullT]))
  {
    var other := NonNull(cleaned)[0];
    NonNullMembers(cleaned);
    assert other in NonNull(cleaned);
    forall m | m in cleaned ensures ValidDocument(m) { assert m == Type(NullT) || m in NonNull(cleaned); }
  }

  lemma WithNullValidIff(s: Schema)
    ensures ValidDocument(WithNull(s)) <==> ValidDocument(s) && s != Type(NullT)
  {
    if !s.Anything? && !s.Type? {
      var ms := [s, Type(NullT)];
      assert ms[0] == s && ms[1] == Type(NullT);
    } else if s.Type? {
      var ts := [s.t, NullT];
      assert ts[0] == s.t && ts[1] == NullT;
    }
  }

  // Those, and only those, compile to a valid document.
  lemma {:induction false} DocumentIff(a: Ann)
    ensures ValidDocument(Compile(a)) <==> Documented(a)
    decreases a
  {
    match a
    case Text(_, parsed) => if parsed.Some? { DocumentIff(parsed.value); }
    case BitOr(l, r) =>
      DocumentIff(l);
      DocumentIff(r);
      BarValidIff(l, r);
    case Subscript(outer, slice) => SubscriptDocumentIff(a, outer, slice);
    case _ =>
  }

  lemma BarValidIff(l: Ann, r: Ann)
    ensures ValidDocument(Compile(BitOr(l, r))) <==> ValidDocument(Compile(l)) && ValidDocument(Compile(r))
  {
    FlattenMeaning(l);
    FlattenMeaning(r);
    UnionValidIff(Flatten(l));
    UnionValidIff(Flatten(r));
    UnionValidIff(Flatten(l) + Flatten(r));
  }

  lemma {:induction false} SubscriptDocumentIff(a: Ann, outer: Ann, slice: Ann)
    requires a == Subscript(outer, slice)
    ensures ValidDocument(Compile(a)) <==> Documented(a)
    decreases a, 0
  {
    var g := Head(outer);
    if g.OptionalG? {
      DocumentIff(slice);
      WithNullValidIff(Compile(slice));
    } else if g.UnionG? {
      if slice.TupleExpr? { MembersDocumentIff(slice); } else {
        DocumentIff(slice);
        UnionValidIff([Compile(slice)]);
      }
    } else if g.DictG? {
      if slice.TupleExpr? && |slice.elts| == 2 { DocumentIff(slice.elts[1]); }
    } else if !g.LiteralG? {
      DocumentIff(slice);
    }
  }

  lemma {:induction false} MembersDocumentIff(slice: Ann)
    requires slice.TupleExpr?
    ensures ValidDocument(UnionOf(CompileAll(slice.elts))) <==>
            forall i :: 0 <= i < |slice.elts| ==> Documented(slice.elts[i])
    decreases slice, 1
  {
    var ms := CompileAll(slice.elts);
    UnionValidIff(ms);
    forall i | 0 <= i < |ms| ensures ValidDocument(ms[i]) <==> Documented(slice.elts[i]) { DocumentIff(slice.elts[i]); }
    assert AllValid(ms) <==> forall i :: 0 <= i < |ms| ==> ValidDocument(ms[i]);
  }
}
