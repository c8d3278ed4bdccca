/**
 Which annotations compile to `{}`, to one plain type, and to a list of types.  What generation does
 with a hint hangs on that, and not only on the values the schema accepts.
 */
module ShapeTheorems {
  import opened JsonSchema
  import opened Annotations
  import opened AnnotationTheorems

  // ------------------------------------------------------------------ the hints themselves

  // The plain type a name stands for by itself.
  predicate NameSays(id: Id, t: TypeName) {
    match t
    case NullT => id.NoneId? || id.NoneType?
    case BooleanT => id.BoolId?
    case IntegerT => id.Int?
    case NumberT => id.Float?
    case StringT => id.StrId?
    case ArrayT => id.LowerList? || id.LowerTuple?
    case ObjectT => id.LowerDict?
  }

  // The hint says nothing: Any, object, an unknown name or expression, a Literal without constants,
  // or a union of such.
  predicate SaysAnything(a: Ann) {
    match a
    case Name(id) => !id.Bytes? && forall t :: !NameSays(id, t)
    case Attribute(id) => !id.Bytes? && forall t :: !NameSays(id, t)
    case Constant(c) => !c.Null?
    case Text(_, parsed) => parsed.Some? ==> SaysAnything(parsed.value)
    case BitOr(l, r) => SaysAnything(l) && SaysAnything(r)
    case Subscript(outer, slice) =>
      (match Head(outer)
       case UnionG =>
         if slice.TupleExpr? then forall i :: 0 <= i < |slice.elts| ==> SaysAnything(slice.elts[i])
         else SaysAnything(slice)
       case LiteralG =>
         if slice.TupleExpr? then forall i :: 0 <= i < |slice.elts| ==> !slice.elts[i].Constant? && !slice.elts[i].Text?
         else !slice.Constant? && !slice.Text?
       case UnknownG => true
       case _ => false)
    case _ => true
  }

  // The hint says one plain type: its name, `dict[K, V]` with a V that says nothing, or a union of
  // that with hints that say nothing.
  predicate SaysPlain(a: Ann, t: TypeName) {
    match a
    case Name(id) => NameSays(id, t)
    case Attribute(id) => NameSays(id, t)
    case Constant(c) => c.Null? && t.NullT?
    case Text(_, parsed) => parsed.Some? && SaysPlain(parsed.value, t)
    case BitOr(l, r) => (SaysPlain(l, t) && SaysAnything(r)) || (SaysAnything(l) && SaysPlain(r, t))
    case Subscript(outer, slice) =>
      (match Head(outer)
       case UnionG =>
         if slice.TupleExpr? then
           exists i :: 0 <= i < |slice.elts| && SaysPlain(slice.elts[i], t)
                       && forall j :: 0 <= j < |slice.elts| && j != i ==> SaysAnything(slice.elts[j])
         else SaysPlain(slice, t)
       case DictG => t.ObjectT? && (slice.TupleExpr? && |slice.elts| == 2 ==> SaysAnything(slice.elts[1]))
       case _ => false)
    case _ => false
  }

  // The hint says one type, plain or with something about what is inside.
  predicate SaysOneType(a: Ann, t: TypeName) {
    match a
    case Name(id) => NameSays(id, t) || (id.Bytes? && t.StringT?)
    case Attribute(id) => NameSays(id, t) || (id.Bytes? && t.StringT?)
    case Constant(c) => c.Null? && t.NullT?
    case Text(_, parsed) => parsed.Some? && SaysOneType(parsed.value, t)
    case BitOr(l, r) => (SaysOneType(l, t) && SaysAnything(r)) || (SaysAnything(l) && SaysOneType(r, t))
    case Subscript(outer, slice) =>
      (match Head(outer)
       case UnionG =>
         if slice.TupleExpr? then
           exists i :: 0 <= i < |slice.elts| && SaysOneType(slice.elts[i], t)
                       && forall j :: 0 <= j < |slice.elts| && j != i ==> SaysAnything(slice.elts[j])
         else SaysOneType(slice, t)
       case ListG => t.ArrayT?
       case TupleG => t.ArrayT?
       case SetG => t.ArrayT?
       case DictG => t.ObjectT?
       case _ => false)
    case _ => false
  }

  // No more than "an object".
  predicate SaysNoMoreThanObject(a: Ann) {
    SaysAnything(a) || SaysPlain(a, ObjectT)
  }

  // In a `|` chain: null, once or more, and nothing else that says anything.
  predicate OnlyNulls(a: Ann) {
    if a.BitOr? then
      || (OnlyNulls(a.left) && (OnlyNulls(a.right) || SaysAnything(a.right)))
      || (SaysAnything(a.left) && OnlyNulls(a.right))
    else SaysPlain(a, NullT)
  }

  // One plain type, once, and null any number of times.
  predicate OnePlain(a: Ann, t: TypeName) {
    if a.BitOr? then
      || (OnePlain(a.left, t) && (OnlyNulls(a.right) || SaysAnything(a.right)))
      || ((OnlyNulls(a.left) || SaysAnything(a.left)) && OnePlain(a.right, t))
    else SaysPlain(a, t)
  }

  // The hint says a plain type or null: Optional of it, or a union of it with null; Optional of
  // nothing says null alone.
  predicate SaysList(a: Ann, ts: seq<TypeName>) {
    match a
    case Text(_, parsed) => parsed.Some? && SaysList(parsed.value, ts)
    case BitOr(l, r) =>
      || (SaysList(l, ts) && SaysAnything(r))
      || (SaysAnything(l) && SaysList(r, ts))
      || (|ts| == 2 && ts[1].NullT? && !ts[0].NullT?
          && ((OnePlain(l, ts[0]) && OnlyNulls(r)) || (OnlyNulls(l) && OnePlain(r, ts[0]))))
    case Subscript(outer, slice) =>
      (match Head(outer)
       case OptionalG =>
         || (ts == [NullT] && SaysAnything(slice))
         || (|ts| == 2 && ts[1].NullT? && SaysPlain(slice, ts[0]))
       case UnionG =>
         if !slice.TupleExpr? then SaysList(slice, ts)
         else
           || (exists i :: 0 <= i < |slice.elts| && SaysList(slice.elts[i], ts)
                           && forall j :: 0 <= j < |slice.elts| && j != i ==> SaysAnything(slice.elts[j]))
           || (|ts| == 2 && ts[1].NullT? && !ts[0].NullT?
               && (exists k :: 0 <= k < |slice.elts| && SaysPlain(slice.elts[k], NullT))
               && (exists i :: 0 <= i < |slice.elts| && SaysPlain(slice.elts[i], ts[0])
                               && forall j :: 0 <= j < |slice.elts| && j != i ==>
                                    SaysAnything(slice.elts[j]) || SaysPlain(slice.elts[j], NullT)))
       case _ => false)
    case _ => false
  }

  // ------------------------------------------------------------------ what they compile to

  lemma NameShape(id: Id)
    ensures CompileName(id).Anything? <==> !id.Bytes? && forall t :: !NameSays(id, t)
    ensures forall t :: CompileName(id) == Type(t) <==> NameSays(id, t)
    ensures !CompileName(id).Types?
  {
    assert id.Int? ==> NameSays(id, IntegerT);
    assert id.Float? ==> NameSays(id, NumberT);
    assert id.StrId? ==> NameSays(id, StringT);
    assert id.BoolId? ==> NameSays(id, BooleanT);
    assert id.NoneId? || id.NoneType? ==> NameSays(id, NullT);
    assert id.LowerList? || id.LowerTuple? ==> NameSays(id, ArrayT);
    assert id.LowerDict? ==> NameSays(id, ObjectT);
  }

  lemma {:induction false} NoConstants(args: seq<Ann>)
    ensures LiteralConstants(args) == [] <==> forall i :: 0 <= i < |args| ==> !args[i].Constant? && !args[i].Text?
  {
    if args != [] {
      NoConstants(args[1..]);
      assert forall i :: 0 < i < |args| ==> args[i] == args[1..][i - 1];
    }
  }

  // What a union keeps of the members.
  function Kept(ms: seq<Schema>): seq<Schema> {
    NonEmpty(ms)
  }

  // Null beside one plain type.
  predicate Pairs(ts: seq<TypeName>) {
    |ts| == 2 && ts[1].NullT? && !ts[0].NullT?
  }

  predicate Merges(kept: seq<Schema>, ts: seq<TypeName>) {
    Pairs(ts) && Type(NullT) in kept && NonNull(kept) == [Type(ts[0])]
  }

  predicate ListKept(kept: seq<Schema>, ts: seq<TypeName>) {
    kept == [Types(ts)] || Merges(kept, ts)
  }

  // The simplified union, by what is kept: nothing, one member, or null beside one plain type.
  lemma UnionShape(ms: seq<Schema>)
    ensures UnionOf(ms).Anything? <==> Kept(ms) == []
    ensures forall t :: UnionOf(ms) == Type(t) <==> Kept(ms) == [Type(t)]
    ensures forall ts: seq<TypeName> :: UnionOf(ms) == Types(ts) <==> ListKept(Kept(ms), ts)
  {
    NonEmptyMembers(ms);
    var kept := Kept(ms);
    NonNullMembers(kept);
    if |kept| == 1 {
      assert kept[0] in kept && kept == [kept[0]];
      assert kept[1..] == [];
    }
    var others := NonNull(kept);
    if |others| == 1 { assert others[0] in others && others == [others[0]]; }
    assert forall t, u: TypeName :: [t, u][0] == t && [t, u][1] == u;
    if Type(NullT) in kept && |others| == 1 && others[0].Type? && |kept| > 1 {
      var t := others[0].t;
      forall ts | ts == [t, NullT] ensures UnionOf(ms) == Types(ts) { }
    }
  }

  lemma {:induction false} NonNullConcat(xs: seq<Schema>, ys: seq<Schema>)
    ensures NonNull(xs + ys) == NonNull(xs) + NonNull(ys)
  {
    if xs == [] {
      assert xs + ys == ys;
    } else {
      assert (xs + ys)[0] == xs[0] && (xs + ys)[1..] == xs[1..] + ys;
      NonNullConcat(xs[1..], ys);
    }
  }

  lemma ChainKept(l: Ann, r: Ann)
    ensures Kept(Flatten(l) + Flatten(r)) == Kept(Flatten(l)) + Kept(Flatten(r))
    ensures NonNull(Kept(Flatten(l) + Flatten(r))) == NonNull(Kept(Flatten(l))) + NonNull(Kept(Flatten(r)))
  {
    NonEmptyConcat(Flatten(l), Flatten(r));
    NonNullConcat(Kept(Flatten(l)), Kept(Flatten(r)));
  }

  lemma {:induction false} LeafKept(a: Ann)
    requires !a.BitOr?
    ensures Kept(Flatten(a)) == if Compile(a).Anything? then [] else [Compile(a)]
  {
    OneMember(Compile(a));
  }

  lemma ChainShape(a: Ann)
    ensures Compile(a).Anything? <==> Kept(Flatten(a)) == []
    ensures forall t :: Compile(a) == Type(t) <==> Kept(Flatten(a)) == [Type(t)]
  {
    FlattenMeaning(a);
    UnionShape(Flatten(a));
  }

  // Exactly one member is kept.
  lemma {:induction false} SingleKept(ms: seq<Schema>, s: Schema)
    requires !s.Anything?
    ensures Kept(ms) == [s] <==>
            exists i :: 0 <= i < |ms| && ms[i] == s && forall j :: 0 <= j < |ms| && j != i ==> ms[j].Anything?
  {
    if ms != [] {
      var rest := ms[1..];
      assert forall j :: 0 < j < |ms| ==> ms[j] == rest[j - 1];
      SingleKept(rest, s);
      NoneKept(rest);
      if i :| 0 <= i < |rest| && rest[i] == s && forall j :: 0 <= j < |rest| && j != i ==> rest[j].Anything? {
        if ms[0].Anything? { assert ms[i + 1] == s && forall j :: 0 <= j < |ms| && j != i + 1 ==> ms[j].Anything?; }
      }
      if Kept(ms) == [s] && !ms[0].Anything? {
        assert Kept(ms)[0] == ms[0] && |Kept(rest)| == 0;
        assert ms[0] == s && forall j :: 0 <= j < |ms| && j != 0 ==> ms[j].Anything?;
      }
      if i :| 0 <= i < |ms| && ms[i] == s && forall j :: 0 <= j < |ms| && j != i ==> ms[j].Anything? {
        if i > 0 { assert rest[i - 1] == s && forall j :: 0 <= j < |rest| && j != i - 1 ==> rest[j] == ms[j + 1]; }
      }
    }
  }

  lemma {:induction false} NoneKept(ms: seq<Schema>)
    ensures Kept(ms) == [] <==> forall j :: 0 <= j < |ms| ==> ms[j].Anything?
  {
    if ms != [] {
      NoneKept(ms[1..]);
      assert forall j :: 0 < j < |ms| ==> ms[j] == ms[1..][j - 1];
    }
  }

  predicate Nullish(s: Schema) {
    s.Anything? || s == Type(NullT)
  }

  lemma {:induction false} OnlyNullish(ms: seq<Schema>)
    ensures NonNull(Kept(ms)) == [] <==> forall j :: 0 <= j < |ms| ==> Nullish(ms[j])
  {
    if ms != [] {
      OnlyNullish(ms[1..]);
      KeptHead(ms);
      assert forall j :: 0 < j < |ms| ==> ms[j] == ms[1..][j - 1];
    }
  }

  lemma {:induction false} KeptHead(ms: seq<Schema>)
    requires ms != []
    ensures NonNull(Kept(ms)) == (if Nullish(ms[0]) then [] else [ms[0]]) + NonNull(Kept(ms[1..]))
  {
    NonNullConcat(if ms[0].Anything? then [] else [ms[0]], Kept(ms[1..]));
    assert [ms[0]][1..] == [];
  }

  // Exactly one member is neither dropped nor null.
  lemma {:induction false} SingleBesideNull(ms: seq<Schema>, s: Schema)
    requires !Nullish(s)
    ensures NonNull(Kept(ms)) == [s] <==>
            exists i :: 0 <= i < |ms| && ms[i] == s && forall j :: 0 <= j < |ms| && j != i ==> Nullish(ms[j])
  {
    if ms != [] {
      var rest := ms[1..];
      assert forall j :: 0 < j < |ms| ==> ms[j] == rest[j - 1];
      SingleBesideNull(rest, s);
      OnlyNullish(rest);
      KeptHead(ms);
      if i :| 0 <= i < |rest| && rest[i] == s && forall j :: 0 <= j < |rest| && j != i ==> Nullish(rest[j]) {
        if Nullish(ms[0]) { assert ms[i + 1] == s && forall j :: 0 <= j < |ms| && j != i + 1 ==> Nullish(ms[j]); }
      }
      if NonNull(Kept(ms)) == [s] && !Nullish(ms[0]) {
        assert NonNull(Kept(ms))[0] == ms[0] && |NonNull(Kept(rest))| == 0;
        assert ms[0] == s && forall j :: 0 <= j < |ms| && j != 0 ==> Nullish(ms[j]);
      }
      if i :| 0 <= i < |ms| && ms[i] == s && forall j :: 0 <= j < |ms| && j != i ==> Nullish(ms[j]) {
        if i > 0 { assert rest[i - 1] == s && forall j :: 0 <= j < |rest| && j != i - 1 ==> rest[j] == ms[j + 1]; }
      }
    }
  }

  // A hint compiles to `{}` exactly when it says nothing,
  lemma {:induction false} AnythingIff(a: Ann)
    ensures Compile(a).Anything? <==> SaysAnything(a)
    decreases a
  {
    match a
    case Name(id) => NameShape(id);
    case Attribute(id) => NameShape(id);
    case Text(_, parsed) => if parsed.Some? { AnythingIff(parsed.value); }
    case BitOr(l, r) =>
      AnythingIff(l);
      AnythingIff(r);
      ChainKept(l, r);
      ChainShape(l);
      ChainShape(r);
      UnionShape(Flatten(l) + Flatten(r));
    case Subscript(outer, slice) =>
      if Head(outer).UnionG? {
        if slice.TupleExpr? {
          forall i | 0 <= i < |slice.elts| ensures Compile(slice.elts[i]).Anything? <==> SaysAnything(slice.elts[i]) {
            AnythingIff(slice.elts[i]);
          }
          NoneKept(CompileAll(slice.elts));
          UnionShape(CompileAll(slice.elts));
        } else {
          AnythingIff(slice);
          OneMember(Compile(slice));
        }
      } else if Head(outer).LiteralG? {
        NoConstants(LiteralArgs(slice));
      }
    case _ =>
  }

  // to one plain type exactly when it says that,
  lemma {:induction false} PlainIff(a: Ann, t: TypeName)
    ensures Compile(a) == Type(t) <==> SaysPlain(a, t)
    decreases a
  {
    match a
    case Name(id) => NameShape(id);
    case Attribute(id) => NameShape(id);
    case Text(_, parsed) => if parsed.Some? { PlainIff(parsed.value, t); }
    case BitOr(l, r) =>
      PlainIff(l, t);
      PlainIff(r, t);
      AnythingIff(l);
      AnythingIff(r);
      PlainChain(l, r, t);
    case Subscript(outer, slice) => PlainSubscriptIff(a, outer, slice, t);
    case _ =>
  }

  lemma PlainChain(l: Ann, r: Ann, t: TypeName)
    ensures Compile(BitOr(l, r)) == Type(t) <==>
            (Compile(l) == Type(t) && Compile(r).Anything?) || (Compile(l).Anything? && Compile(r) == Type(t))
  {
    ChainKept(l, r);
    ChainShape(l);
    ChainShape(r);
    UnionShape(Flatten(l) + Flatten(r));
    var kl, kr := Kept(Flatten(l)), Kept(Flatten(r));
    if kl + kr == [Type(t)] { assert |kl| + |kr| == 1; }
  }

  lemma {:induction false} PlainSubscriptIff(a: Ann, outer: Ann, slice: Ann, t: TypeName)
    requires a == Subscript(outer, slice)
    ensures Compile(a) == Type(t) <==> SaysPlain(a, t)
    decreases a, 0
  {
    var g := Head(outer);
    if g.UnionG? {
      if slice.TupleExpr? {
        forall i | 0 <= i < |slice.elts|
          ensures Compile(slice.elts[i]) == Type(t) <==> SaysPlain(slice.elts[i], t)
          ensures Compile(slice.elts[i]).Anything? <==> SaysAnything(slice.elts[i])
        {
          PlainIff(slice.elts[i], t);
          AnythingIff(slice.elts[i]);
        }
        SingleKept(CompileAll(slice.elts), Type(t));
        UnionShape(CompileAll(slice.elts));
      } else {
        PlainIff(slice, t);
        OneMember(Compile(slice));
      }
    } else if g.DictG? {
      if slice.TupleExpr? && |slice.elts| == 2 { AnythingIff(slice.elts[1]); }
    }
  }

  // or to one type with something about what is inside,
  lemma {:induction false} OneTypeIff(a: Ann, t: TypeName)
    ensures TypeOf(Compile(a)) == One(t) <==> SaysOneType(a, t)
    decreases a
  {
    match a
    case Name(id) => NameShape(id);
    case Attribute(id) => NameShape(id);
    case Text(_, parsed) => if parsed.Some? { OneTypeIff(parsed.value, t); }
    case BitOr(l, r) =>
      OneTypeIff(l, t);
      OneTypeIff(r, t);
      ChainSaysOneType(l, r, t);
    case Subscript(outer, slice) =>
      if !Head(outer).UnionG? {
        GenericOneType(outer, slice, t);
      } else if slice.TupleExpr? {
        UnionOneTypeIff(slice, t);
      } else {
        OneTypeIff(slice, t);
        OneMember(Compile(slice));
      }
    case _ =>
  }

  lemma {:induction false} GenericOneType(outer: Ann, slice: Ann, t: TypeName)
    requires !Head(outer).UnionG?
    ensures TypeOf(Compile(Subscript(outer, slice))) == One(t) <==> SaysOneType(Subscript(outer, slice), t)
  {
  }

  lemma {:induction false} ChainSaysOneType(l: Ann, r: Ann, t: TypeName)
    requires TypeOf(Compile(l)) == One(t) <==> SaysOneType(l, t)
    requires TypeOf(Compile(r)) == One(t) <==> SaysOneType(r, t)
    ensures TypeOf(Compile(BitOr(l, r))) == One(t) <==> SaysOneType(BitOr(l, r), t)
  {
    AnythingIff(l);
    AnythingIff(r);
    ChainOneType(l, r, t);
  }

  lemma ChainOneType(l: Ann, r: Ann, t: TypeName)
    ensures TypeOf(Compile(BitOr(l, r))) == One(t) <==>
            || (TypeOf(Compile(l)) == One(t) && Compile(r).Anything?)
            || (Compile(l).Anything? && TypeOf(Compile(r)) == One(t))
  {
    FlattenMeaning(l);
    FlattenMeaning(r);
    ConcatOneType(Flatten(l), Flatten(r), t);
  }

  lemma ConcatOneType(xs: seq<Schema>, ys: seq<Schema>, t: TypeName)
    ensures TypeOf(UnionOf(xs + ys)) == One(t) <==>
            || (TypeOf(UnionOf(xs)) == One(t) && UnionOf(ys).Anything?)
            || (UnionOf(xs).Anything? && TypeOf(UnionOf(ys)) == One(t))
  {
    NonEmptyConcat(xs, ys);
    OneTypeKept(xs, t);
    OneTypeKept(ys, t);
    OneTypeKept(xs + ys, t);
    LoneConcat(Kept(xs), Kept(ys), t);
  }

  // The one element there is has that type.
  predicate LoneOfType(kept: seq<Schema>, t: TypeName) {
    |kept| == 1 && TypeOf(kept[0]) == One(t)
  }

  lemma LoneConcat(a: seq<Schema>, b: seq<Schema>, t: TypeName)
    ensures LoneOfType(a + b, t) <==> (LoneOfType(a, t) && b == []) || (a == [] && LoneOfType(b, t))
  {
  }

  lemma OneTypeKept(ms: seq<Schema>, t: TypeName)
    ensures TypeOf(UnionOf(ms)) == One(t) <==> LoneOfType(Kept(ms), t)
    ensures UnionOf(ms).Anything? <==> Kept(ms) == []
  {
    UnionShape(ms);
  }

  lemma {:induction false} UnionOneTypeIff(slice: Ann, t: TypeName)
    requires slice.TupleExpr?
    ensures TypeOf(UnionOf(CompileAll(slice.elts))) == One(t) <==> SaysOneType(Subscript(Name(Union), slice), t)
    decreases slice, 0
  {
    var elts, ms := slice.elts, CompileAll(slice.elts);
    forall i | 0 <= i < |elts|
      ensures TypeOf(ms[i]) == One(t) <==> SaysOneType(elts[i], t)
      ensures ms[i].Anything? <==> SaysAnything(elts[i])
    {
      OneTypeIff(elts[i], t);
      AnythingIff(elts[i]);
    }
    OneTypeKept(ms, t);
    LoneTypeIff(ms, t);
    UnionSaysOneType(slice, t);
    assert (exists i :: LoneTypeAt(ms, i, t)) <==> (exists i :: LoneSayingAt(elts, i, t)) by {
      forall i ensures LoneTypeAt(ms, i, t) <==> LoneSayingAt(elts, i, t) { }
    }
  }

  predicate LoneTypeAt(ms: seq<Schema>, i: int, t: TypeName) {
    0 <= i < |ms| && TypeOf(ms[i]) == One(t) && forall j :: 0 <= j < |ms| && j != i ==> ms[j].Anything?
  }

  predicate LoneSayingAt(elts: seq<Ann>, i: int, t: TypeName) {
    0 <= i < |elts| && SaysOneType(elts[i], t) && forall j :: 0 <= j < |elts| && j != i ==> SaysAnything(elts[j])
  }

  lemma {:induction false} UnionSaysOneType(slice: Ann, t: TypeName)
    requires slice.TupleExpr?
    ensures SaysOneType(Subscript(Name(Union), slice), t) <==> exists i :: LoneSayingAt(slice.elts, i, t)
  {
    if i :| LoneSayingAt(slice.elts, i, t) { assert SaysOneType(slice.elts[i], t); }
    if i :| 0 <= i < |slice.elts| && SaysOneType(slice.elts[i], t)
            && forall j :: 0 <= j < |slice.elts| && j != i ==> SaysAnything(slice.elts[j]) {
      assert LoneSayingAt(slice.elts, i, t);
    }
  }

  lemma {:induction false} LoneTypeIff(ms: seq<Schema>, t: TypeName)
    ensures LoneOfType(Kept(ms), t) <==> exists i :: LoneTypeAt(ms, i, t)
  {
    if LoneOfType(Kept(ms), t) {
      var s := Kept(ms)[0];
      NonEmptyMembers(ms);
      assert s in Kept(ms) && Kept(ms) == [s];
      SingleKept(ms, s);
      var i :| 0 <= i < |ms| && ms[i] == s && forall j :: 0 <= j < |ms| && j != i ==> ms[j].Anything?;
      assert LoneTypeAt(ms, i, t);
    }
    if i :| LoneTypeAt(ms, i, t) {
      assert LoneAt(ms, ms[i]);
      SingleKept(ms, ms[i]);
    }
  }

  // One member is s, and all others are dropped.
  predicate LoneAt(ms: seq<Schema>, s: Schema) {
    exists i :: 0 <= i < |ms| && ms[i] == s && forall j :: 0 <= j < |ms| && j != i ==> ms[j].Anything?
  }

  lemma {:induction false} NullsIff(a: Ann)
    ensures OnlyNulls(a) <==> Kept(Flatten(a)) != [] && NonNull(Kept(Flatten(a))) == []
  {
    AnythingIff(a);
    ChainShape(a);
    if a.BitOr? {
      NullsIff(a.left);
      NullsIff(a.right);
      AnythingIff(a.left);
      AnythingIff(a.right);
      ChainShape(a.left);
      ChainShape(a.right);
      ChainKept(a.left, a.right);
    } else {
      LeafKept(a);
      PlainIff(a, NullT);
      assert [Compile(a)][1..] == [];
    }
  }

  lemma {:induction false} OnePlainIff(a: Ann, t: TypeName)
    requires !t.NullT?
    ensures OnePlain(a, t) <==> NonNull(Kept(Flatten(a))) == [Type(t)]
  {
    if a.BitOr? {
      OnePlainIff(a.left, t);
      OnePlainIff(a.right, t);
      NullsIff(a.left);
      NullsIff(a.right);
      AnythingIff(a.left);
      AnythingIff(a.right);
      ChainShape(a.left);
      ChainShape(a.right);
      ChainKept(a.left, a.right);
      var nl, nr := NonNull(Kept(Flatten(a.left))), NonNull(Kept(Flatten(a.right)));
      if nl + nr == [Type(t)] { assert |nl| + |nr| == 1; }
    } else {
      LeafKept(a);
      PlainIff(a, t);
      assert [Compile(a)][1..] == [];
    }
  }

  // and to a list of types exactly when it says a plain type or null.
  lemma {:induction false} ListIff(a: Ann, ts: seq<TypeName>)
    ensures Compile(a) == Types(ts) <==> SaysList(a, ts)
    decreases a
  {
    match a
    case Name(id) => NameShape(id);
    case Attribute(id) => NameShape(id);
    case Text(_, parsed) => if parsed.Some? { ListIff(parsed.value, ts); }
    case BitOr(l, r) =>
      ListIff(l, ts);
      ListIff(r, ts);
      ListChainIff(l, r, ts);
    case Subscript(outer, slice) =>
      var g := Head(outer);
      if g.OptionalG? {
        AnythingIff(slice);
        WithNullShape(Compile(slice), ts);
        if |ts| == 2 { PlainIff(slice, ts[0]); }
      } else if g.UnionG? {
        if slice.TupleExpr? { ListUnionIff(slice, ts); } else {
          ListIff(slice, ts);
          OneMember(Compile(slice));
        }
      }
    case _ =>
  }

  lemma WithNullShape(s: Schema, ts: seq<TypeName>)
    ensures WithNull(s) == Types(ts) <==>
            (ts == [NullT] && s.Anything?) || (|ts| == 2 && ts[1].NullT? && s == Type(ts[0]))
  {
    if s.Type? { assert [s.t, NullT][0] == s.t && [s.t, NullT][1] == NullT; }
  }

  lemma {:induction false} ListChainIff(l: Ann, r: Ann, ts: seq<TypeName>)
    requires Compile(l) == Types(ts) <==> SaysList(l, ts)
    requires Compile(r) == Types(ts) <==> SaysList(r, ts)
    ensures Compile(BitOr(l, r)) == Types(ts) <==> SaysList(BitOr(l, r), ts)
  {
    AnythingIff(l);
    AnythingIff(r);
    ChainKept(l, r);
    ChainShape(l);
    ChainShape(r);
    NullsIff(l);
    NullsIff(r);
    if Pairs(ts) {
      OnePlainIff(l, ts[0]);
      OnePlainIff(r, ts[0]);
    }
    ListOfChain(l, r, ts);
  }

  // The same on the lists of kept members.
  predicate Completes(kl: seq<Schema>, kr: seq<Schema>, ts: seq<TypeName>) {
    Pairs(ts) && NonNull(kl) == [Type(ts[0])] && kr != [] && NonNull(kr) == []
  }

  lemma ListOfChain(l: Ann, r: Ann, ts: seq<TypeName>)
    ensures var kl, kr := Kept(Flatten(l)), Kept(Flatten(r));
            Compile(BitOr(l, r)) == Types(ts) <==>
            || (Compile(l) == Types(ts) && kr == []) || (kl == [] && Compile(r) == Types(ts))
            || Completes(kl, kr, ts) || Completes(kr, kl, ts)
  {
    FlattenMeaning(l);
    FlattenMeaning(r);
    ChainKept(l, r);
    UnionShape(Flatten(l));
    UnionShape(Flatten(r));
    UnionShape(Flatten(l) + Flatten(r));
    ListKeptConcat(Kept(Flatten(l)), Kept(Flatten(r)), ts);
  }

  lemma ListKeptConcat(kl: seq<Schema>, kr: seq<Schema>, ts: seq<TypeName>)
    ensures ListKept(kl + kr, ts) <==>
            || (ListKept(kl, ts) && kr == []) || (kl == [] && ListKept(kr, ts))
            || Completes(kl, kr, ts) || Completes(kr, kl, ts)
  {
    assert [] + kr == kr && kl + [] == kl;
    if kl + kr == [Types(ts)] { assert |kl| + |kr| == 1; }
    if kl != [] && kr != [] { MergesConcat(kl, kr, ts); }
  }

  lemma {:induction false} MergesConcat(kl: seq<Schema>, kr: seq<Schema>, ts: seq<TypeName>)
    requires kl != [] && kr != []
    ensures Merges(kl + kr, ts) <==> Completes(kl, kr, ts) || Completes(kr, kl, ts)
  {
    NonNullConcat(kl, kr);
    NullAmong(kl);
    NullAmong(kr);
    if Merges(kl + kr, ts) { assert |NonNull(kl)| + |NonNull(kr)| == 1; }
    if Completes(kr, kl, ts) { assert [] + NonNull(kr) == NonNull(kr); }
  }

  // A list that is not all kept by `NonNull` holds a null.
  lemma NullAmong(ms: seq<Schema>)
    ensures ms != [] && NonNull(ms) == [] ==> Type(NullT) in ms
  {
    NonNullMembers(ms);
    if ms != [] && NonNull(ms) == [] { assert ms[0] in ms; }
  }

  predicate OneList(ms: seq<Schema>, ts: seq<TypeName>) {
    exists i :: 0 <= i < |ms| && ms[i] == Types(ts) && forall j :: 0 <= j < |ms| && j != i ==> ms[j].Anything?
  }

  predicate OneBesideNull(ms: seq<Schema>, ts: seq<TypeName>) {
    && Pairs(ts)
    && (exists k :: 0 <= k < |ms| && ms[k] == Type(NullT))
    && (exists i :: 0 <= i < |ms| && ms[i] == Type(ts[0]) && forall j :: 0 <= j < |ms| && j != i ==> Nullish(ms[j]))
  }

  lemma ListOfUnion(ms: seq<Schema>, ts: seq<TypeName>)
    ensures UnionOf(ms) == Types(ts) <==> OneList(ms, ts) || OneBesideNull(ms, ts)
  {
    UnionShape(ms);
    SingleKept(ms, Types(ts));
    if Pairs(ts) {
      SingleBesideNull(ms, Type(ts[0]));
      NonEmptyMembers(ms);
      if k :| 0 <= k < |ms| && ms[k] == Type(NullT) { assert ms[k] in Kept(ms); }
    }
  }

  lemma {:induction false} ListUnionIff(slice: Ann, ts: seq<TypeName>)
    requires slice.TupleExpr?
    ensures UnionOf(CompileAll(slice.elts)) == Types(ts) <==> SaysList(Subscript(Name(Union), slice), ts)
    decreases slice, 1
  {
    ListOfUnion(CompileAll(slice.elts), ts);
    ListMemberIff(slice, ts);
    NullableMemberIff(slice.elts, ts);
    UnionSays(slice, ts);
  }

  lemma {:induction false} ListMemberIff(slice: Ann, ts: seq<TypeName>)
    requires slice.TupleExpr?
    ensures OneList(CompileAll(slice.elts), ts) <==> ListMember(slice.elts, ts)
    decreases slice, 0
  {
    var elts, ms := slice.elts, CompileAll(slice.elts);
    forall i | 0 <= i < |elts|
      ensures ms[i] == Types(ts) <==> SaysList(elts[i], ts)
      ensures ms[i].Anything? <==> SaysAnything(elts[i])
    {
      ListIff(elts[i], ts);
      AnythingIff(elts[i]);
    }
  }

  lemma {:induction false} NullableMemberIff(elts: seq<Ann>, ts: seq<TypeName>)
    ensures OneBesideNull(CompileAll(elts), ts) <==> NullableMember(elts, ts)
  {
    if Pairs(ts) {
      var ms := CompileAll(elts);
      forall i | 0 <= i < |elts|
        ensures ms[i].Anything? <==> SaysAnything(elts[i])
        ensures ms[i] == Type(NullT) <==> SaysPlain(elts[i], NullT)
        ensures ms[i] == Type(ts[0]) <==> SaysPlain(elts[i], ts[0])
      {
        AnythingIff(elts[i]);
        PlainIff(elts[i], NullT);
        PlainIff(elts[i], ts[0]);
      }
    }
  }

  // What `SaysList` means of a union, read on its members.
  lemma {:induction false} UnionSays(slice: Ann, ts: seq<TypeName>)
    requires slice.TupleExpr?
    ensures SaysList(Subscript(Name(Union), slice), ts) <==>
            ListMember(slice.elts, ts) || NullableMember(slice.elts, ts)
  {
  }

  predicate ListMember(elts: seq<Ann>, ts: seq<TypeName>) {
    exists i :: 0 <= i < |elts| && SaysList(elts[i], ts)
                && forall j :: 0 <= j < |elts| && j != i ==> SaysAnything(elts[j])
  }

  predicate NullableMember(elts: seq<Ann>, ts: seq<TypeName>) {
    && Pairs(ts)
    && (exists k :: 0 <= k < |elts| && SaysPlain(elts[k], NullT))
    && (exists i :: 0 <= i < |elts| && SaysPlain(elts[i], ts[0])
                    && forall j :: 0 <= j < |elts| && j != i ==> SaysAnything(elts[j]) || SaysPlain(elts[j], NullT))
  }

  // Such a list is null alone, or a type and null.
  lemma {:induction false} SaidLists(a: Ann, ts: seq<TypeName>)
    requires SaysList(a, ts)
    ensures ts == [NullT] || (|ts| == 2 && ts[1].NullT?)
    decreases a
  {
    match a
    case Text(_, parsed) => SaidLists(parsed.value, ts);
    case BitOr(l, r) => if SaysList(l, ts) { SaidLists(l, ts); } else if SaysList(r, ts) { SaidLists(r, ts); }
    case Subscript(outer, slice) =>
      if Head(outer).UnionG? {
        if !slice.TupleExpr? { SaidLists(slice, ts); }
        else if i :| 0 <= i < |slice.elts| && SaysList(slice.elts[i], ts) { SaidLists(slice.elts[i], ts); }
      }
  }

  // ------------------------------------------------------------------ what is listed

  // How many of the first i elements are not `...`.
  function Before(elts: seq<Ann>, i: nat): nat
    requires i <= |elts|
  {
    if i == 0 then 0 else Before(elts, i - 1) + if elts[i - 1].Ellipsis? then 0 else 1
  }

  lemma {:induction false} BeforeTail(elts: seq<Ann>, i: nat)
    requires 0 < i <= |elts|
    ensures Before(elts, i) == (if elts[0].Ellipsis? then 0 else 1) + Before(elts[1..], i - 1)
  {
    if i > 1 { BeforeTail(elts, i - 1); }
  }

  lemma {:induction false} ItemsListed(elts: seq<Ann>, i: nat)
    requires i < |elts|
    ensures |CompileItems(elts)| == Before(elts, |elts|)
    ensures !elts[i].Ellipsis? ==>
              Before(elts, i) < |CompileItems(elts)| && CompileItems(elts)[Before(elts, i)] == Compile(elts[i])
  {
    BeforeTail(elts, |elts|);
    if |elts| > 1 { ItemsListed(elts[1..], if i > 0 then i - 1 else 0); }
    if i > 0 { BeforeTail(elts, i); }
  }

  // `tuple[A, B, ...]` lists the schemas of its elements in order, leaving out every `...`.
  lemma {:induction false} TupleShape(a: Ann, i: nat)
    requires a.Subscript? && Head(a.outer).TupleG? && a.slice.TupleExpr? && i < |a.slice.elts|
    ensures var elts := a.slice.elts;
            && Compile(a).Fixed? && |Compile(a).prefix| == Before(elts, |elts|)
            && (!elts[i].Ellipsis? ==>
                  Before(elts, i) < |Compile(a).prefix| && Compile(a).prefix[Before(elts, i)] == Compile(elts[i]))
  {
    ItemsListed(a.slice.elts, i);
  }

  // `Literal[...]` of constants and strings lists them in order.
  lemma {:induction false} LiteralShape(args: seq<Ann>, i: nat)
    requires AllConstants(args) && i < |args|
    ensures |LiteralConstants(args)| == |args|
    ensures LiteralConstants(args)[i] == if args[i].Constant? then args[i].value else Str(args[i].text)
  {
    if |args| > 1 { LiteralShape(args[1..], if i > 0 then i - 1 else 0); }
  }
}
