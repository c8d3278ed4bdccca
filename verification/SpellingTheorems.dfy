/** What a union accepts depends on its members and not on how it is spelled. */
module SpellingTheorems {
  import opened JsonSchema
  import opened Annotations
  import opened DocumentTheorems
  import opened AnnotationTheorems

  // ------------------------------------------------------------------ members

  predicate NoneAnn(a: Ann) {
    || a == Constant(Null)
    || (a.Name? && (a.id.NoneId? || a.id.NoneType?))
    || (a.Attribute? && (a.attr.NoneId? || a.attr.NoneType?))
  }

  // The alternatives an annotation offers, through any mix of Optional, Union, `|` and quotation.
  function Members(a: Ann): seq<Ann>
    decreases a, 1
  {
    match a
    case Text(_, Some(parsed)) => Members(parsed)
    case BitOr(l, r) => Members(l) + Members(r)
    case Subscript(outer, slice) =>
      if Head(outer).OptionalG? then Members(slice) + [Constant(Null)]
      else if Head(outer).UnionG? then if slice.TupleExpr? then MembersAll(slice.elts) else Members(slice)
      else [a]
    case _ => if NoneAnn(a) then [Constant(Null)] else [a]
  }

  function MembersAll(elts: seq<Ann>): seq<Ann>
    decreases elts, 0
  {
    if elts == [] then [] else Members(elts[0]) + MembersAll(elts[1..])
  }

  lemma CompileAllConcat(xs: seq<Ann>, ys: seq<Ann>)
    ensures CompileAll(xs + ys) == CompileAll(xs) + CompileAll(ys)
  {
  }

  lemma SomeAcceptsConcat(xs: seq<Schema>, ys: seq<Schema>, v: Json)
    ensures SomeAccepts(xs + ys, v) <==> SomeAccepts(xs, v) || SomeAccepts(ys, v)
  {
  }

  // The schemas that a union of these annotations keeps.
  function Kept(xs: seq<Ann>): seq<Schema> {
    NonEmpty(CompileAll(xs))
  }

  lemma KeptConcat(xs: seq<Ann>, ys: seq<Ann>, v: Json)
    ensures Kept(xs + ys) == [] <==> Kept(xs) == [] && Kept(ys) == []
    ensures SomeAccepts(Kept(xs + ys), v) <==> SomeAccepts(Kept(xs), v) || SomeAccepts(Kept(ys), v)
  {
    CompileAllConcat(xs, ys);
    NonEmptyConcat(CompileAll(xs), CompileAll(ys));
    SomeAcceptsConcat(Kept(xs), Kept(ys), v);
  }

  // The schema s says the same as a union of xs.
  ghost predicate Spells(xs: seq<Ann>, s: Schema, v: Json) {
    && (Kept(xs) == [] <==> s.Anything?)
    && (SomeAccepts(Kept(xs), v) <==> !s.Anything? && Accepts(s, v))
  }

  lemma SpellsOne(a: Ann, v: Json)
    ensures Spells([a], Compile(a), v)
  {
    OneMember(Compile(a));
    assert CompileAll([a]) == [Compile(a)] && Compile(a) in [Compile(a)];
  }

  lemma SpellsNone(v: Json)
    ensures Spells([Constant(Null)], Type(NullT), v)
  {
    SpellsOne(Constant(Null), v);
  }

  // Whatever the spelling, an annotation compiles to the meaning of its members.
  lemma {:induction false} MembersSpell(a: Ann, v: Json)
    ensures Spells(Members(a), Compile(a), v)
    decreases a, 1
  {
    match a
    case Text(_, Some(parsed)) => MembersSpell(parsed, v);
    case BitOr(l, r) => BarSpells(l, r, v);
    case Subscript(outer, slice) =>
      if Head(outer).OptionalG? {
        MembersSpell(slice, v);
        OptionalSpells(slice, v);
      } else if Head(outer).UnionG? {
        if slice.TupleExpr? {
          MembersAllSpell(slice.elts, v);
          UnionMeaning(CompileAll(slice.elts), v);
        } else {
          MembersSpell(slice, v);
          OneMember(Compile(slice));
        }
      } else {
        SpellsOne(a, v);
      }
    case _ => if NoneAnn(a) { SpellsNone(v); } else { SpellsOne(a, v); }
  }

  lemma {:induction false} OptionalSpells(t: Ann, v: Json)
    requires Spells(Members(t), Compile(t), v)
    ensures Spells(Members(t) + [Constant(Null)], WithNull(Compile(t)), v)
  {
    SpellsNone(v);
    KeptConcat(Members(t), [Constant(Null)], v);
    WithNullMeaning(Compile(t), v);
  }

  lemma {:induction false} BarSpells(l: Ann, r: Ann, v: Json)
    ensures Spells(Members(l) + Members(r), Compile(BitOr(l, r)), v)
    decreases BitOr(l, r), 0
  {
    MembersSpell(l, v);
    MembersSpell(r, v);
    KeptConcat(Members(l), Members(r), v);
    BarMeaning(l, r, v);
  }

  lemma BarMeaning(l: Ann, r: Ann, v: Json)
    ensures var s, t, bar := Compile(l), Compile(r), Compile(BitOr(l, r));
            && (bar.Anything? <==> s.Anything? && t.Anything?)
            && (!bar.Anything? ==>
                  (Accepts(bar, v) <==> (!s.Anything? && Accepts(s, v)) || (!t.Anything? && Accepts(t, v))))
  {
    var ls, rs := Flatten(l), Flatten(r);
    FlattenMeaning(l);
    FlattenMeaning(r);
    UnionMeaning(ls, v);
    UnionMeaning(rs, v);
    UnionMeaning(ls + rs, v);
    NonEmptyConcat(ls, rs);
    SomeAcceptsConcat(NonEmpty(ls), NonEmpty(rs), v);
  }

  lemma {:induction false} MembersAllSpell(elts: seq<Ann>, v: Json)
    ensures Kept(MembersAll(elts)) == [] <==> Kept(elts) == []
    ensures SomeAccepts(Kept(MembersAll(elts)), v) <==> SomeAccepts(Kept(elts), v)
    decreases elts, 0
  {
    if elts != [] {
      MembersSpell(elts[0], v);
      SpellsOne(elts[0], v);
      MembersAllSpell(elts[1..], v);
      KeptConcat(Members(elts[0]), MembersAll(elts[1..]), v);
      assert elts == [elts[0]] + elts[1..];
      KeptConcat([elts[0]], elts[1..], v);
    }
  }

  // ------------------------------------------------------------------ spelling does not matter

  lemma {:induction false} KeptMembers(xs: seq<Ann>, ys: seq<Ann>)
    requires forall e :: e in xs ==> e in ys
    ensures forall m :: m in Kept(xs) ==> m in Kept(ys)
  {
    NonEmptyMembers(CompileAll(xs));
    NonEmptyMembers(CompileAll(ys));
    forall m | m in CompileAll(xs) ensures m in CompileAll(ys) {
      var i :| 0 <= i < |xs| && CompileAll(xs)[i] == m;
      assert xs[i] in ys;
      var j :| 0 <= j < |ys| && ys[j] == xs[i];
      assert CompileAll(ys)[j] == m;
    }
  }

  lemma {:induction false} SameKept(xs: seq<Ann>, ys: seq<Ann>, v: Json)
    requires forall e :: e in xs <==> e in ys
    ensures Kept(xs) == [] <==> Kept(ys) == []
    ensures SomeAccepts(Kept(xs), v) <==> SomeAccepts(Kept(ys), v)
  {
    KeptMembers(xs, ys);
    KeptMembers(ys, xs);
    if Kept(xs) != [] { assert Kept(xs)[0] in Kept(xs); }
    if Kept(ys) != [] { assert Kept(ys)[0] in Kept(ys); }
  }

  // Two annotations with the same members accept the same values: re-nesting, reordering,
  // repeating and re-spelling the members of a union never changes what is accepted.
  lemma {:induction false} SameMembersSameValues(a: Ann, b: Ann, v: Json)
    requires forall e :: e in Members(a) <==> e in Members(b)
    ensures Accepts(Compile(a), v) <==> Accepts(Compile(b), v)
    ensures Documented(a) && Documented(b) ==> (Validates(Compile(a), v) <==> Validates(Compile(b), v))
  {
    DocumentIff(a);
    DocumentIff(b);
    MembersSpell(a, v);
    MembersSpell(b, v);
    SameKept(Members(a), Members(b), v);
  }

  lemma MembersOfPair(a: Ann, b: Ann)
    ensures Members(Subscript(Name(Union), TupleExpr([a, b]))) == Members(a) + Members(b)
  {
    assert [a, b][1..] == [b] && [b][1..] == [];
    assert MembersAll([b]) == Members(b) + [] && MembersAll([a, b]) == Members(a) + MembersAll([b]);
  }

  lemma {:induction false} OptionalMembers(t: Ann, none: Ann)
    requires NoneAnn(none)
    ensures Members(Subscript(Name(Optional), t)) == Members(t) + [Constant(Null)]
    ensures Members(Subscript(Name(Union), TupleExpr([t, none]))) == Members(t) + [Constant(Null)]
    ensures Members(BitOr(t, none)) == Members(t) + [Constant(Null)]
    ensures Members(BitOr(none, t)) == [Constant(Null)] + Members(t)
  {
    assert Members(none) == [Constant(Null)];
    MembersOfPair(t, none);
  }

  // Optional[T], Union[T, None], T | None and None | T accept the same values, for every T.
  lemma {:induction false} OptionalSpellings(t: Ann, none: Ann, v: Json)
    requires NoneAnn(none)
    ensures
      var optional := Accepts(Compile(Subscript(Name(Optional), t)), v);
      && Accepts(Compile(Subscript(Name(Union), TupleExpr([t, none]))), v) == optional
      && Accepts(Compile(BitOr(t, none)), v) == optional
      && Accepts(Compile(BitOr(none, t)), v) == optional
  {
    var optional := Subscript(Name(Optional), t);
    OptionalMembers(t, none);
    SameMembersSameValues(optional, Subscript(Name(Union), TupleExpr([t, none])), v);
    SameMembersSameValues(optional, BitOr(t, none), v);
    SameMembersSameValues(optional, BitOr(none, t), v);
  }

  // The validator takes the same values under all four for exactly those T that are not null already:
  // under Optional[None] it refuses everything, because the schema is no valid document.
  lemma {:induction false} OptionalSpellingsValidate(t: Ann, none: Ann)
    requires NoneAnn(none)
    ensures var optional, union := Subscript(Name(Optional), t), Subscript(Name(Union), TupleExpr([t, none]));
            (forall v, a :: a in [union, BitOr(t, none), BitOr(none, t)] ==>
               (Validates(Compile(a), v) <==> Validates(Compile(optional), v))) <==>
            Compile(t) != Type(NullT)
  {
    var optional, union := Subscript(Name(Optional), t), Subscript(Name(Union), TupleExpr([t, none]));
    var others := [union, BitOr(t, none), BitOr(none, t)];
    SpellingsDocumented(t, none);
    forall v, a | a in others ensures Accepts(Compile(a), v) <==> Accepts(Compile(optional), v) {
      OptionalSpellings(t, none, v);
    }
    if Compile(t) == Type(NullT) {
      OptionalMeaning(t, Null);
      OptionalSpellings(t, none, Null);
      assert others[0] in others;
      assert Validates(Compile(others[0]), Null) && !Validates(Compile(optional), Null);
    }
  }

  lemma OptionalMeaning(t: Ann, v: Json)
    ensures v.Null? ==> Accepts(Compile(Subscript(Name(Optional), t)), v)
  {
    WithNullMeaning(Compile(t), v);
  }

  lemma {:induction false} SpellingsDocumented(t: Ann, none: Ann)
    requires NoneAnn(none)
    ensures var valid := ValidDocument(Compile(t));
            && (ValidDocument(Compile(Subscript(Name(Optional), t))) <==> valid && Compile(t) != Type(NullT))
            && (ValidDocument(Compile(Subscript(Name(Union), TupleExpr([t, none])))) <==> valid)
            && (ValidDocument(Compile(BitOr(t, none))) <==> valid)
            && (ValidDocument(Compile(BitOr(none, t))) <==> valid)
  {
    assert Compile(none) == Type(NullT);
    WithNullValidIff(Compile(t));
    BarValidIff(t, none);
    BarValidIff(none, t);
    PairValidIff(t, none);
  }

  lemma PairValidIff(a: Ann, b: Ann)
    ensures ValidDocument(Compile(Subscript(Name(Union), TupleExpr([a, b])))) <==>
            ValidDocument(Compile(a)) && ValidDocument(Compile(b))
  {
    UnionIs([a, b]);
    UnionValidIff(CompileAll([a, b]));
    assert CompileAll([a, b]) == [Compile(a), Compile(b)];
  }

  lemma {:induction false} MembersAllConcat(xs: seq<Ann>, ys: seq<Ann>)
    ensures MembersAll(xs + ys) == MembersAll(xs) + MembersAll(ys)
  {
    if xs == [] {
      assert xs + ys == ys;
    } else {
      assert (xs + ys)[1..] == xs[1..] + ys && (xs + ys)[0] == xs[0];
      MembersAllConcat(xs[1..], ys);
    }
  }

  lemma NestedMembers(pre: seq<Ann>, inner: seq<Ann>, post: seq<Ann>)
    ensures MembersAll(pre + [Subscript(Name(Union), TupleExpr(inner))] + post) == MembersAll(pre + inner + post)
  {
    var nest := Subscript(Name(Union), TupleExpr(inner));
    MembersAllConcat(pre + [nest], post);
    MembersAllConcat(pre, [nest]);
    MembersAllConcat(pre + inner, post);
    MembersAllConcat(pre, inner);
    assert [nest][1..] == [] && MembersAll([nest]) == Members(nest) + [];
  }

  // Nesting one Union inside another, at any position, accepts what the flat Union accepts.
  lemma UnionNesting(pre: seq<Ann>, inner: seq<Ann>, post: seq<Ann>, v: Json)
    ensures
      var nested := pre + [Subscript(Name(Union), TupleExpr(inner))] + post;
      Accepts(Compile(Subscript(Name(Union), TupleExpr(nested))), v) <==>
      Accepts(Compile(Subscript(Name(Union), TupleExpr(pre + inner + post))), v)
  {
    var nest := Subscript(Name(Union), TupleExpr(inner));
    NestedMembers(pre, inner, post);
    SameMembersSameValues(Subscript(Name(Union), TupleExpr(pre + [nest] + post)),
                          Subscript(Name(Union), TupleExpr(pre + inner + post)), v);
  }

  // The members of a `|` chain, left to right.
  function Leaves(a: Ann): seq<Ann> {
    if a.BitOr? then Leaves(a.left) + Leaves(a.right) else [a]
  }

  lemma {:induction false} FlattenIsLeaves(a: Ann)
    ensures Flatten(a) == CompileAll(Leaves(a))
  {
    if a.BitOr? {
      FlattenIsLeaves(a.left);
      FlattenIsLeaves(a.right);
      CompileAllConcat(Leaves(a.left), Leaves(a.right));
    }
  }

  // A `|` chain and the Union of its leaves compile to the very same schema.
  lemma BarIsUnion(a: Ann)
    ensures Compile(a) == Compile(Subscript(Name(Union), TupleExpr(Leaves(a))))
  {
    FlattenMeaning(a);
    FlattenIsLeaves(a);
  }

  // Reordering, repeating or re-bracketing the leaves of a `|` chain never changes what is accepted.
  lemma {:induction false} BarReordering(a: Ann, b: Ann, v: Json)
    requires forall e :: e in Leaves(a) <==> e in Leaves(b)
    ensures Accepts(Compile(a), v) <==> Accepts(Compile(b), v)
  {
    FlattenMeaning(a);
    FlattenMeaning(b);
    FlattenIsLeaves(a);
    FlattenIsLeaves(b);
    SameKept(Leaves(a), Leaves(b), v);
    UnionMeaning(Flatten(a), v);
    UnionMeaning(Flatten(b), v);
  }
}
