/**
 Where return inference stops being sound: for each form outside the supported ones, the exact
 condition under which its value escapes the inferred schema, and an example of each.
 */
module InferenceLimits {
  import opened Wrappers
  import opened JsonSchema
  import Annotations
  import opened Python
  import opened Inference
  import opened InferenceTheorems

  // ------------------------------------------------------------------ statements with effects

  predicate Changed(st: State, after: State, x: string) {
    x in after && (x !in st || st[x] != after[x])
  }

  predicate Assigned(targets: seq<Target>, x: string) {
    exists i :: 0 <= i < |targets| && targets[i] == Id(x)
  }

  // An expression statement keeps the recorded types true if and only if each recorded name whose
  // value it changes still fits.
  lemma {:induction false} DoFitsIff(e: Expr, env: Env, st: State, w: World)
    requires EnvFits(env, st) && Evaluate(e, st, w).Some?
    ensures var after := Exec(Do(e), st, w).value;
            EnvFits(env, after) <==> forall x :: x in env && Changed(st, after, x) ==> Fits(env[x], after[x])
  {
    var after := Exec(Do(e), st, w).value;
    forall x | x in env && x in after && !Changed(st, after, x) ensures Fits(env[x], after[x]) { assert x in st; }
  }

  lemma {:induction false} BindAt<T>(targets: seq<Target>, m: map<string, T>, t: T, x: string)
    ensures var after := Bind(targets, m, t);
            if Assigned(targets, x) then x in after && after[x] == t
            else (x in after <==> x in m) && (x in m ==> after[x] == m[x])
    decreases targets
  {
    if targets != [] {
      var rest := targets[1..];
      BindAt(rest, if targets[0].Id? then m[targets[0].name := t] else m, t, x);
      assert Assigned(targets, x) <==> targets[0] == Id(x) || Assigned(rest, x) by {
        if i :| 0 <= i < |targets| && targets[i] == Id(x) { assert i > 0 ==> rest[i - 1] == Id(x); }
        if i :| 0 <= i < |rest| && rest[i] == Id(x) { assert targets[i + 1] == Id(x); }
      }
    }
  }

  // The value of an assignment goes with the types of its names: with the inferred one, or, if it
  // cannot be typed, with those recorded before.
  ghost predicate ValueFits(targets: seq<Target>, inferred: Schema, env: Env, v: Value) {
    forall x :: Assigned(targets, x) ==>
      if inferred.Anything? then x in env ==> Fits(env[x], v) else Fits(inferred, v)
  }

  // An assignment to names, whatever its value does to others, keeps the recorded types true if and
  // only if the value goes with the types of the names, and each other recorded name whose value
  // was changed on the way still fits.
  lemma {:induction false} AssignmentFitsIff(targets: seq<Target>, value: Expr, env: Env, st: State, w: World)
    requires EnvFits(env, st) && forall i :: 0 <= i < |targets| ==> targets[i].Id?
    requires Infer(value, env).Some? && Evaluate(value, st, w).Some?
    ensures var s := Assign(targets, value); var (v, mid) := Evaluate(value, st, w).value;
            && Exec(s, st, w).Some?
            && (EnvFits(StmtEnv(s, env).value, Exec(s, st, w).value) <==>
                && ValueFits(targets, Infer(value, env).value, env, v)
                && forall x :: x in env && !Assigned(targets, x) && Changed(st, mid, x) ==> Fits(env[x], mid[x]))
  {
    var (v, mid) := Evaluate(value, st, w).value;
    StoreIsBind(targets, mid, v, w);
    var inferred := Infer(value, env).value;
    var types, after := StmtEnv(Assign(targets, value), env).value, Bind(targets, mid, v);
    assert forall x :: x in env && x in mid && !Changed(st, mid, x) ==> Fits(env[x], mid[x]);
    forall x
      ensures x in types && x in after && !Fits(types[x], after[x]) <==>
              if Assigned(targets, x) then
                !(if inferred.Anything? then x in env ==> Fits(env[x], v) else Fits(inferred, v))
              else x in env && Changed(st, mid, x) && !Fits(env[x], mid[x])
    {
      BindAt(targets, mid, v, x);
      if !inferred.Anything? { BindAt(targets, env, inferred, x); }
    }
  }

  // A declaration keeps them true if and only if the name's value, new or old, has the declared
  // type, and each other recorded name whose value was changed on the way still fits.
  lemma {:induction false} DeclarationFitsIff(x: string, ann: Annotations.Ann, init: Option<Expr>, env: Env,
                                              st: State, w: World)
    requires EnvFits(env, st) && !Annotations.Compile(ann).Anything? && Exec(AnnAssign(Id(x), ann, init), st, w).Some?
    ensures var s := AnnAssign(Id(x), ann, init); var after := Exec(s, st, w).value;
            EnvFits(StmtEnv(s, env).value, after) <==>
            && (x in after ==> Fits(Annotations.Compile(ann), after[x]))
            && forall y :: y in env && y != x && Changed(st, after, y) ==> Fits(env[y], after[y])
  {
    var after := Exec(AnnAssign(Id(x), ann, init), st, w).value;
    forall y | y in env && y != x && y in after && !Changed(st, after, y) ensures Fits(env[y], after[y]) {
      assert y in st;
    }
  }

  // In general, any statement keeps them true if and only if each name whose value or type it
  // changes fits.
  lemma {:induction false} StatementFitsIff(s: Stmt, env: Env, st: State, w: World)
    requires EnvFits(env, st) && StmtEnv(s, env).Some? && Exec(s, st, w).Some?
    ensures var types, after := StmtEnv(s, env).value, Exec(s, st, w).value;
            EnvFits(types, after) <==>
            forall x :: x in types && x in after && (x !in env || env[x] != types[x] || Changed(st, after, x)) ==>
              Fits(types[x], after[x])
  {
  }

  // ------------------------------------------------------------------ outside the fragment

  ghost predicate Breaks(e: Expr, env: Env, st: State, w: World) {
    Infer(e, env).Some? && Evaluate(e, st, w).Some? && !Fits(Infer(e, env).value, Evaluate(e, st, w).value.0)
  }

  // With effects or without, these forms yield what their syntax says.
  ghost predicate HonestForms(w: World) {
    forall e, st :: w.act(e, st).Some? ==> FormResult(e, w.act(e, st).value.0)
  }

  predicate FormResult(e: Expr, v: Value) {
    && (e.TupleE? ==> v.PTuple?)
    && (e.SetE? ==> v.PSet?)
    && (e.DictE? ==> v.PDict?)
  }

  // What `Supported` excludes, it excludes for a reason: for each form, which of its values the
  // inferred schema rejects.  A tuple or a set is always rejected,
  lemma {:induction false} TupleBreaks(elts: seq<Expr>, env: Env, st: State, w: World)
    requires HonestForms(w) && Evaluate(TupleE(elts), st, w).Some?
    ensures Breaks(TupleE(elts), env, st, w)
  {
    if !Harmless(TupleE(elts), st.Keys) { assert FormResult(TupleE(elts), w.act(TupleE(elts), st).value.0); }
  }

  lemma {:induction false} SetBreaks(elts: seq<Expr>, env: Env, st: State, w: World)
    requires HonestForms(w) && Evaluate(SetE(elts), st, w).Some?
    ensures Breaks(SetE(elts), env, st, w)
  {
    if !Harmless(SetE(elts), st.Keys) { assert FormResult(SetE(elts), w.act(SetE(elts), st).value.0); }
  }

  // What a pure expression evaluates to.
  ghost predicate Yields(e: Expr, st: State, w: World, v: Value) {
    Harmless(e, st.Keys) && Eval(e, st, w) == Some(v)
  }

  // and so is the result of a call to `set` or `tuple`; that of `min`, `max` or `sum` unless it is
  // a number;
  lemma {:induction false} CallFitsIff(f: string, args: seq<Expr>, env: Env, st: State, w: World, v: Value)
    requires HonestBuiltins(w) && Yields(Call(f, args), st, w, v)
    ensures f in ["set", "tuple"] ==> Breaks(Call(f, args), env, st, w)
    ensures f in ["min", "max", "sum"] ==> (Breaks(Call(f, args), env, st, w) <==> !Numeric(v))
  {
    assert BuiltinResult(f, v);
    if f in ["set", "tuple"] {
      assert CallSchema(f) == Type(ArrayT);
    } else if f in ["min", "max", "sum"] {
      assert CallSchema(f) == Type(NumberT);
    }
  }

  // a list, unless each element fits the type of the first;
  lemma {:induction false} ListFitsIff(elts: seq<Expr>, env: Env, st: State, w: World, v: Value)
    requires elts != [] && Infer(elts[0], env).Some? && !Infer(elts[0], env).value.Anything?
    requires Yields(ListE(elts), st, w, v)
    ensures Breaks(ListE(elts), env, st, w) <==>
            exists i :: 0 <= i < |elts| && !Fits(Infer(elts[0], env).value, Eval(elts[i], st, w).value)
  {
    var s, vs := Infer(elts[0], env).value, EvalAll(elts, st, w).value;
    var arr := ToJson(PList(vs));
    forall i | 0 <= i < |elts| ensures Accepts(s, arr.elems[i]) <==> Fits(s, Eval(elts[i], st, w).value) {
      assert arr.elems[i] == ToJson(vs[i]);
    }
  }

  // `and` and `or`, unless the result is a boolean;
  lemma {:induction false} BoolFitsIff(bop: BoolOperator, operands: seq<Expr>, env: Env, st: State, w: World, v: Value)
    requires Yields(BoolE(bop, operands), st, w, v)
    ensures Breaks(BoolE(bop, operands), env, st, w) <==> !v.PBool?
  {
  }

  // a signed value, unless the operand's type has the result; so always a boolean typed as one, or
  // as a nullable one, and a listed constant unless the result is listed too;
  lemma {:induction false} UnaryFitsIff(op: UnaryOperator, e: Expr, env: Env, st: State, w: World, v: Value)
    requires !op.Not? && Infer(e, env).Some? && Yields(e, st, w, v) && Unary(op, v).Some?
    ensures var s := Infer(e, env).value;
            && (Breaks(UnaryE(op, e), env, st, w) <==> !Accepts(s, Signed(op, ToJson(v)).value))
            && (s in [Type(BooleanT), Types([BooleanT, NullT])] && v.PBool? ==> Breaks(UnaryE(op, e), env, st, w))
            && (s.Enum? ==> (Breaks(UnaryE(op, e), env, st, w) <==> Signed(op, ToJson(v)).value !in s.values))
  {
    UnarySigned(op, v);
    var u := UnaryE(op, e);
    assert Infer(u, env) == Infer(e, env) && Eval(u, st, w) == Unary(op, v);
  }

  // a power, unless it is whole where the operands are integers, and a number where they are numbers;
  lemma {:induction false} PowerFitsIff(l: Expr, r: Expr, env: Env, st: State, w: World, v: Value)
    requires Infer(BinE(Pow, l, r), env).Some? && Yields(BinE(Pow, l, r), st, w, v)
    ensures var s := Infer(BinE(Pow, l, r), env).value; var breaks := Breaks(BinE(Pow, l, r), env, st, w);
            && (s == Type(IntegerT) ==> (breaks <==> !Whole(v)))
            && (s == Type(NumberT) ==> (breaks <==> !Numeric(v)))
            && (s == Type(StringT) ==> (breaks <==> !v.PStr?))
            && (s in [Type(IntegerT), Type(NumberT), Type(StringT)] || !breaks)
  {
    WholeIsInteger(v);
  }

  // a choice, unless its branches differ to Python or the type of the first has the value;
  lemma {:induction false} IfFitsIff(test: Expr, body: Expr, orelse: Expr, env: Env, st: State, w: World, v: Value)
    requires Infer(body, env).Some? && Infer(orelse, env).Some? && Yields(IfE(test, body, orelse), st, w, v)
    ensures var a, b := Infer(body, env).value, Infer(orelse, env).value;
            Breaks(IfE(test, body, orelse), env, st, w) <==> SameToPython(a, b) && !Fits(a, v)
  {
  }

  // A listing with a boolean in it.
  predicate ListsBoolean(s: Schema) {
    match s
    case Enum(vs) => exists i :: 0 <= i < |vs| && vs[i].Bool?
    case Items(of, _) => ListsBoolean(of)
    case Fixed(prefix) => exists i :: 0 <= i < |prefix| && ListsBoolean(prefix[i])
    case Values(of) => ListsBoolean(of)
    case Record(props, _, _) => exists k :: k in props && ListsBoolean(props[k])
    case AnyOf(ms) => exists i :: 0 <= i < |ms| && ListsBoolean(ms[i])
    case _ => false
  }

  // Without such listings Python tells all types apart.
  lemma {:induction false} SameOnlyIfEqual(a: Schema, b: Schema)
    requires !ListsBoolean(a) && !ListsBoolean(b)
    ensures SameToPython(a, b) <==> a == b
    decreases a
  {
    match (a, b)
    case (Items(x, _), Items(y, _)) => SameOnlyIfEqual(x, y);
    case (Fixed(xs), Fixed(ys)) => if |xs| == |ys| { SameSeqs(xs, ys); }
    case (Values(x), Values(y)) => SameOnlyIfEqual(x, y);
    case (Record(ps, _, _), Record(qs, _, _)) =>
      if ps.Keys == qs.Keys {
        forall k | k in ps ensures SameToPython(ps[k], qs[k]) <==> ps[k] == qs[k] { SameOnlyIfEqual(ps[k], qs[k]); }
      }
    case (AnyOf(xs), AnyOf(ys)) => if |xs| == |ys| { SameSeqs(xs, ys); }
    case _ =>
  }

  lemma {:induction false} SameSeqs(xs: seq<Schema>, ys: seq<Schema>)
    requires |xs| == |ys|
    requires forall i :: 0 <= i < |xs| ==> !ListsBoolean(xs[i]) && !ListsBoolean(ys[i])
    ensures (forall i :: 0 <= i < |xs| ==> SameToPython(xs[i], ys[i])) <==> xs == ys
    decreases xs
  {
    forall i | 0 <= i < |xs| ensures SameToPython(xs[i], ys[i]) <==> xs[i] == ys[i] { SameOnlyIfEqual(xs[i], ys[i]); }
  }

  // a record, unless each field's value has the field's type; a field that cannot be typed counts
  // as a string.
  lemma {:induction false} DictFitsIff(items: seq<Item>, env: Env, st: State, w: World, v: Value)
    requires InferItems(items, env, map[], []).Literal? && Yields(DictE(items), st, w, v)
    ensures var props := InferItems(items, env, map[], []).props;
            && v.PDict? && props.Keys == v.entries.Keys
            && (Breaks(DictE(items), env, st, w) <==> exists k :: k in props && !Fits(props[k], v.entries[k]))
  {
    var fields := InferItems(items, env, map[], []);
    ItemKeys(items, env, st, w, map[], [], map[]);
    var obj := ToJson(v);
    assert obj.fields.Keys == v.entries.Keys;
    assert forall k :: k in v.entries ==> obj.fields[k] == ToJson(v.entries[k]);
    assert Infer(DictE(items), env) == Some(Record(fields.props, fields.required, true));
  }

  lemma {:induction false} ItemKeys(items: seq<Item>, env: Env, st: State, w: World, props: map<string, Schema>,
                                    required: seq<string>, acc: map<string, Value>)
    requires InferItems(items, env, props, required).Literal? && EvalItems(items, st, w, acc).Some?
    requires props.Keys == acc.Keys && forall k :: k in required ==> k in props
    ensures var fields := InferItems(items, env, props, required);
            && fields.props.Keys == EvalItems(items, st, w, acc).value.Keys
            && forall k :: k in fields.required ==> k in fields.props
    decreases items
  {
    if items != [] {
      var first := items[0];
      var s, v := Infer(first.value, env).value, Eval(first.value, st, w).value;
      var k := first.key.text;
      ItemKeys(items[1..], env, st, w, props[k := OrString(s)], required + [k], acc[k := v]);
    }
  }

  // So a single field that cannot be typed is rejected unless its value is a string.
  lemma {:induction false} FallbackFitsIff(k: string, e: Expr, env: Env, st: State, w: World, v: Value)
    requires Infer(e, env) == Some(Anything) && Yields(e, st, w, v)
    ensures Breaks(DictE([Item(TextKey(k), e)]), env, st, w) <==> !v.PStr?
  {
    OneField(k, e, env, st, w);
    PureField(k, e, st.Keys);
    DictFitsIff([Item(TextKey(k), e)], env, st, w, PDict(map[k := v]));
    var props := map[k := Type(StringT)];
    assert InferItems([Item(TextKey(k), e)], env, map[], []).props == props && k in props;
    StringFits(v);
  }

  lemma StringFits(v: Value)
    ensures Fits(Type(StringT), v) <==> v.PStr?
  {
  }

  // Each of them occurs.  Rejected are -True, 2 ** -1 and `1 or 2`;
  lemma {:induction false} OperatorExclusions(w: World)
    requires w.power(PInt(2), PInt(-1)) == Some(PFloat(0.5))
    ensures Breaks(UnaryE(Minus, Const(PBool(true))), map[], map[], w)
    ensures Breaks(BinE(Pow, Const(PInt(2)), Const(PInt(-1))), map[], map[], w)
    ensures Breaks(BoolE(Or, [Const(PInt(1)), Const(PInt(2))]), map[], map[], w)
  {
    BreaksIf(UnaryE(Minus, Const(PBool(true))), Type(BooleanT), PInt(-1), w);
    PowerExclusion(w);
    OrExclusion(w);
  }

  lemma {:induction false} PowerExclusion(w: World)
    requires w.power(PInt(2), PInt(-1)) == Some(PFloat(0.5))
    ensures Breaks(BinE(Pow, Const(PInt(2)), Const(PInt(-1))), map[], map[], w)
  {
    assert !Fits(Type(IntegerT), PFloat(0.5)) by { assert 0.5.Floor == 0; }
    BreaksIf(BinE(Pow, Const(PInt(2)), Const(PInt(-1))), Type(IntegerT), PFloat(0.5), w);
  }

  lemma OrExclusion(w: World)
    ensures Breaks(BoolE(Or, [Const(PInt(1)), Const(PInt(2))]), map[], map[], w)
  {
    var one, two: Expr := Const(PInt(1)), Const(PInt(2));
    assert EvalBool(Or, [one, two], map[], w) == Eval(one, map[], w);
    ConstantsAreHarmless([one, two], map[]);
    BreaksIf(BoolE(Or, [one, two]), Type(BooleanT), PInt(1), w);
  }

  lemma {:induction false} ConstantsAreHarmless(es: seq<Expr>, st: State)
    requires forall i :: 0 <= i < |es| ==> es[i].Const?
    ensures Harmless(BoolE(Or, es), st.Keys) && Harmless(ListE(es), st.Keys)
  {
  }

  lemma {:induction false} BreaksIf(e: Expr, s: Schema, v: Value, w: World)
    requires Infer(e, map[]) == Some(s) && Yields(e, map[], w, v) && !Fits(s, v)
    ensures Breaks(e, map[], map[], w)
  {
  }

  lemma {:induction false} EvalOne(e: Expr, v: Value, w: World)
    requires Eval(e, map[], w) == Some(v)
    ensures EvalAll([e], map[], w) == Some([v])
  {
    assert [e][1..] == [] && EvalAll([], map[], w) == Some([]) && [v] + [] == [v];
  }

  lemma {:induction false} EvalTwo(a: Expr, b: Expr, v: Value, u: Value, w: World)
    requires Eval(a, map[], w) == Some(v) && Eval(b, map[], w) == Some(u)
    ensures EvalAll([a, b], map[], w) == Some([v, u])
  {
    EvalOne(b, u, w);
    assert [a, b][1..] == [b] && [v] + [u] == [v, u];
  }

  // [1, "a"];
  lemma MixedListExclusion(w: World)
    ensures Breaks(ListE([Const(PInt(1)), Const(PStr("a"))]), map[], map[], w)
  {
    var one, a: Expr := Const(PInt(1)), Const(PStr("a"));
    EvalTwo(one, a, PInt(1), PStr("a"), w);
    ConstantsAreHarmless([one, a], map[]);
    assert ToJson(PList([PInt(1), PStr("a")])).elems[1] == Str("a");
    BreaksIf(ListE([one, a]), Items(Type(IntegerT), false), PList([PInt(1), PStr("a")]), w);
  }

  // (1,), {1}, and min over strings;
  lemma {:induction false} TupleAndCallExclusions(w: World)
    requires w.call("min", [PStr("a")]) == Some(PStr("a"))
    ensures Breaks(TupleE([Const(PInt(1))]), map[], map[], w)
    ensures Breaks(SetE([Const(PInt(1))]), map[], map[], w)
    ensures Breaks(Call("min", [Const(PStr("a"))]), map[], map[], w)
  {
    DisplayExclusions(w);
    CallExclusion(w);
  }

  lemma DisplayExclusions(w: World)
    ensures Breaks(TupleE([Const(PInt(1))]), map[], map[], w)
    ensures Breaks(SetE([Const(PInt(1))]), map[], map[], w)
  {
    EvalOne(Const(PInt(1)), PInt(1), w);
    BreaksIf(TupleE([Const(PInt(1))]), Type(ArrayT), PTuple([PInt(1)]), w);
    BreaksIf(SetE([Const(PInt(1))]), Type(ArrayT), PSet([PInt(1)]), w);
  }

  lemma {:induction false} CallExclusion(w: World)
    requires w.call("min", [PStr("a")]) == Some(PStr("a"))
    ensures Breaks(Call("min", [Const(PStr("a"))]), map[], map[], w)
  {
    EvalOne(Const(PStr("a")), PStr("a"), w);
    BreaksIf(Call("min", [Const(PStr("a"))]), Type(NumberT), PStr("a"), w);
  }

  // and {"k": 1 + True}, whose untyped field falls back to a string.
  lemma FallbackExclusion(w: World)
    ensures Breaks(DictE([Item(TextKey("k"), OnePlusTrue())]), map[], map[], w)
  {
    UntypedSum(w);
    FallbackFitsIff("k", OnePlusTrue(), map[], map[], w, PInt(2));
  }

  lemma UntypedSum(w: World)
    ensures Infer(OnePlusTrue(), map[]) == Some(Anything) && Yields(OnePlusTrue(), map[], w, PInt(2))
  {
  }

  function OnePlusTrue(): Expr {
    BinE(Add, Const(PInt(1)), Const(PBool(true)))
  }

  lemma {:induction false} FieldType(k: string, e: Expr, env: Env)
    requires Infer(e, env).Some?
    ensures var d := DictE([Item(TextKey(k), e)]);
            && InferItems(d.items, env, map[], []) == Literal(map[k := OrString(Infer(e, env).value)], [k])
            && Infer(d, env) == Some(Record(map[k := OrString(Infer(e, env).value)], [k], true))
  {
    var items := [Item(TextKey(k), e)];
    assert items[1..] == [] && items[0].value == e;
    var s := OrString(Infer(e, env).value);
    assert InferItems(items, env, map[], []) == InferItems(items[1..], env, map[][k := s], [] + [k]);
    assert map[][k := s] == map[k := s] && [] + [k] == [k];
  }

  lemma {:induction false} OneField(k: string, e: Expr, env: Env, st: State, w: World)
    requires Infer(e, env).Some? && Eval(e, st, w).Some?
    ensures var d := DictE([Item(TextKey(k), e)]);
            && InferItems(d.items, env, map[], []) == Literal(map[k := OrString(Infer(e, env).value)], [k])
            && Infer(d, env) == Some(Record(map[k := OrString(Infer(e, env).value)], [k], true))
            && Eval(d, st, w) == Some(PDict(map[k := Eval(e, st, w).value]))
  {
    FieldType(k, e, env);
    var items := [Item(TextKey(k), e)];
    assert items[1..] == [] && items[0].value == e;
    var v := Eval(e, st, w).value;
    assert EvalItems(items, st, w, map[]) == EvalItems(items[1..], st, w, map[][k := v]);
    assert map[][k := v] == map[k := v];
  }

  // The body `x = 1 + True; return {"x": x}`.
  function StaleItems(): seq<Item> {
    [Item(TextKey("x"), Var("x"))]
  }

  function StaleBody(): seq<Stmt> {
    [Assign([Id("x")], OnePlusTrue()), Return(Some(DictE(StaleItems())))]
  }

  lemma {:induction false} StaleRun(st: State, w: World)
    requires st == map["x" := PStr("s")]
    ensures Run(StaleBody(), st, w) == Some(PDict(map["x" := PInt(2)]))
  {
    var after := st["x" := PInt(2)];
    StoreIsBind([Id("x")], st, PInt(2), w);
    BindOne("x", st, PInt(2));
    assert Evaluate(StaleBody()[0].value, st, w) == Some((PInt(2), st));
    assert StaleBody()[1..] == [StaleBody()[1]];
    ReturnOne("x", "x", after, w);
  }

  lemma StaleEnv()
    ensures BodyEnv(StaleBody(), map["x" := Type(StringT)]) == Some(map["x" := Type(StringT)])
  {
    var env: Env := map["x" := Type(StringT)];
    assert StaleBody()[1..] == [StaleBody()[1]] && [StaleBody()[1]][1..] == [];
    assert BodyEnv([], env) == Some(env);
    assert Infer(StaleBody()[0].value, env) == Some(Anything);
  }

  function StaleParams(): seq<Param> {
    [Param("x", Some(Annotations.Name(Annotations.StrId)))]
  }

  lemma StaleInference()
    ensures InferReturn(StaleParams(), StaleBody()) == Literal(map["x" := Type(StringT)], ["x"])
  {
    assert StaleParams()[1..] == [];
    var env: Env := map["x" := Type(StringT)];
    assert ParamEnv(StaleParams(), map[]) == env;
    StaleEnv();
    assert InferItems(StaleItems(), env, map[], []) == Literal(map["x" := Type(StringT)], ["x"]) by {
      assert StaleItems()[1..] == [] && StaleItems()[0].value == Var("x");
      assert map[]["x" := Type(StringT)] == env && [] + ["x"] == ["x"];
    }
  }

  // A conforming call returns a value that the inferred schema rejects.
  ghost predicate Misjudged(params: seq<Param>, body: seq<Stmt>, st: State, w: World) {
    var fields := InferReturn(params, body);
    && Conforming(params, st) && fields.Literal? && Run(body, st, w).Some?
    && !Fits(Record(fields.props, fields.required, true), Run(body, st, w).value)
  }

  lemma {:induction false} FieldRejected(props: map<string, Schema>, required: seq<string>, m: map<string, Value>,
                                         k: string)
    requires k in props && k in m && !Fits(props[k], m[k])
    ensures !Fits(Record(props, required, true), PDict(m))
  {
    assert ToJson(PDict(m)).fields[k] == ToJson(m[k]);
  }

  lemma {:induction false} MisjudgedIf(params: seq<Param>, body: seq<Stmt>, st: State, w: World, k: string, s: Schema,
                                       v: Value)
    requires Conforming(params, st) && !Fits(s, v)
    requires InferReturn(params, body) == Literal(map[k := s], [k]) && Run(body, st, w) == Some(PDict(map[k := v]))
    ensures Misjudged(params, body, st, w)
  {
    FieldRejected(map[k := s], [k], map[k := v], k);
  }

  // An untyped assignment leaves the old type behind: under `x: str` that body is given the
  // schema of a string field, and returns an integer in it.
  lemma {:induction false} StaleTypeBreaks(w: World)
    ensures Misjudged(StaleParams(), StaleBody(), map["x" := PStr("s")], w)
  {
    var st := map["x" := PStr("s")];
    StaleInference();
    StaleConforms(st);
    StaleRun(st, w);
    MisjudgedIf(StaleParams(), StaleBody(), st, w, "x", Type(StringT), PInt(2));
  }

  // A declaration without a value misjudges too: `x: int; return {"x": x}` under `x: str`.
  function DeclaredBody(): seq<Stmt> {
    [AnnAssign(Id("x"), Annotations.Name(Annotations.Int), None), Return(Some(DictE(StaleItems())))]
  }

  lemma DeclaredInference()
    ensures InferReturn(StaleParams(), DeclaredBody()) == Literal(map["x" := Type(IntegerT)], ["x"])
  {
    assert StaleParams()[1..] == [];
    var before: Env, env: Env := map["x" := Type(StringT)], map["x" := Type(IntegerT)];
    assert ParamEnv(StaleParams(), map[]) == before && before["x" := Type(IntegerT)] == env;
    var body := DeclaredBody();
    assert body[1..] == [body[1]] && [body[1]][1..] == [];
    assert BodyEnv([], env) == Some(env) && BodyEnv([body[1]], env) == Some(env);
    assert LocalEnv(StaleParams(), body) == Some(env);
    assert InferItems(StaleItems(), env, map[], []) == Literal(env, ["x"]) by {
      assert StaleItems()[1..] == [] && StaleItems()[0].value == Var("x");
      assert map[]["x" := Type(IntegerT)] == env && [] + ["x"] == ["x"];
    }
  }

  lemma {:induction false} DeclarationBreaks(w: World)
    ensures Misjudged(StaleParams(), DeclaredBody(), map["x" := PStr("s")], w)
  {
    var st := map["x" := PStr("s")];
    DeclaredInference();
    assert DeclaredBody()[1..] == [DeclaredBody()[1]];
    StaleConforms(st);
    ReturnOne("x", "x", st, w);
    MisjudgedIf(StaleParams(), DeclaredBody(), st, w, "x", Type(IntegerT), PStr("s"));
  }

  // `d = {"a": 1}; v = d.pop("a"); return {"d": d}`: the call empties a record that was typed full.
  const POP := OtherE("d.pop('a')")

  function PopReturn(): Expr {
    DictE([Item(TextKey("d"), Var("d"))])
  }

  function PopBody(): seq<Stmt> {
    [Assign([Id("d")], DictE([Item(TextKey("a"), Const(PInt(1)))])), Assign([Id("v")], POP), Return(Some(PopReturn()))]
  }

  const FULL := Record(map["a" := Type(IntegerT)], ["a"], true)

  lemma {:induction false} AssignTypes(x: string, e: Expr, rest: seq<Stmt>, env: Env)
    requires Infer(e, env).Some?
    ensures var s := Infer(e, env).value;
            BodyEnv([Assign([Id(x)], e)] + rest, env) == BodyEnv(rest, if s.Anything? then env else env[x := s])
  {
    assert ([Assign([Id(x)], e)] + rest)[1..] == rest;
    if !Infer(e, env).value.Anything? { BindOne(x, env, Infer(e, env).value); }
  }

  lemma PopInference()
    ensures InferReturn([], PopBody()) == Literal(map["d" := FULL], ["d"])
  {
    var body, env: Env := PopBody(), map["d" := FULL];
    FieldType("a", Const(PInt(1)), map[]);
    assert map[]["d" := FULL] == env;
    AssignTypes("d", body[0].value, [body[1], body[2]], map[]);
    AssignTypes("v", POP, [body[2]], env);
    assert body == [body[0]] + [body[1], body[2]] && [body[1], body[2]] == [body[1]] + [body[2]];
    assert [body[2]][1..] == [] && BodyEnv([], env) == Some(env);
    FieldType("d", Var("d"), env);
  }

  lemma {:induction false} RunStep(first: Stmt, rest: seq<Stmt>, st: State, w: World)
    requires !first.Return? && Exec(first, st, w).Some?
    ensures Run([first] + rest, st, w) == Run(rest, Exec(first, st, w).value, w)
  {
    assert ([first] + rest)[1..] == rest;
  }

  lemma {:induction false} AssignOne(x: string, e: Expr, st: State, w: World)
    requires Evaluate(e, st, w).Some?
    ensures var (v, next) := Evaluate(e, st, w).value; Exec(Assign([Id(x)], e), st, w) == Some(next[x := v])
  {
    var (v, next) := Evaluate(e, st, w).value;
    StoreIsBind([Id(x)], next, v, w);
    BindOne(x, next, v);
  }

  lemma {:induction false} ReturnOne(k: string, x: string, st: State, w: World)
    requires x in st
    ensures Run([Return(Some(DictE([Item(TextKey(k), Var(x))])))], st, w) == Some(PDict(map[k := st[x]]))
  {
    OneField(k, Var(x), map[], st, w);
    PureField(k, Var(x), st.Keys);
  }

  lemma {:induction false} PureField(k: string, e: Expr, vars: set<string>)
    requires Harmless(e, vars)
    ensures Harmless(DictE([Item(TextKey(k), e)]), vars)
  {
  }

  lemma {:induction false} PopRuns(w: World)
    requires w.act(POP, map["d" := PDict(map["a" := PInt(1)])]) == Some((PInt(1), map["d" := PDict(map[])]))
    ensures Run(PopBody(), map[], w) == Some(PDict(map["d" := PDict(map[])]))
  {
    var body, one := PopBody(), PDict(map["a" := PInt(1)]);
    var before, popped: State := map["d" := one], map["d" := PDict(map[])];
    PopAssigns(w);
    assert Exec(body[0], map[], w) == Some(before);
    AssignOne("v", POP, before, w);
    RunStep(body[0], [body[1], body[2]], map[], w);
    RunStep(body[1], [body[2]], before, w);
    assert body == [body[0]] + [body[1], body[2]] && [body[1], body[2]] == [body[1]] + [body[2]];
    ReturnOne("d", "d", popped["v" := PInt(1)], w);
  }

  lemma PopAssigns(w: World)
    ensures Exec(PopBody()[0], map[], w) == Some(map["d" := PDict(map["a" := PInt(1)])])
  {
    OneField("a", Const(PInt(1)), map[], map[], w);
    PureField("a", Const(PInt(1)), {});
    AssignOne("d", PopBody()[0].value, map[], w);
  }

  lemma EmptyIsNotFull()
    ensures !Fits(FULL, PDict(map[]))
  {
    assert "a" in FULL.required && ToJson(PDict(map[])).fields == map[];
  }

  lemma {:induction false} EffectBreaks(w: World)
    requires w.act(POP, map["d" := PDict(map["a" := PInt(1)])]) == Some((PInt(1), map["d" := PDict(map[])]))
    ensures Misjudged([], PopBody(), map[], w)
  {
    PopInference();
    PopRuns(w);
    EmptyIsNotFull();
    MisjudgedIf([], PopBody(), map[], w, "d", FULL, PDict(map[]));
  }

  // `x: Literal[1], y: Literal[True], c: bool`, and `return {"r": [x if c else y]}`: Python finds the
  // two types equal, and the list is typed by the first.
  function LiteralHint(c: Json): Option<Annotations.Ann> {
    Some(Annotations.Subscript(Annotations.Name(Annotations.Literal), Annotations.Constant(c)))
  }

  function ChoiceParams(): seq<Param> {
    [Param("x", LiteralHint(Num(1.0))), Param("y", LiteralHint(Bool(true))),
     Param("c", Some(Annotations.Name(Annotations.BoolId)))]
  }

  function ChoiceArguments(): State {
    map["x" := PInt(1), "y" := PBool(true), "c" := PBool(false)]
  }

  const CHOICE := ListE([IfE(Var("c"), Var("x"), Var("y"))])

  function ChoiceBody(): seq<Stmt> {
    [Return(Some(DictE([Item(TextKey("r"), CHOICE)])))]
  }

  const CHOICE_ENV: Env := map["x" := Enum([Num(1.0)]), "y" := Enum([Bool(true)]), "c" := Type(BooleanT)]

  function ChoiceType(): Schema {
    Items(Enum([Num(1.0)]), false)
  }

  lemma OneConstant(c: Json)
    ensures Annotations.Compile(LiteralHint(c).value) == Enum([c])
  {
    var arg := Annotations.Constant(c);
    assert Annotations.LiteralArgs(arg) == [arg] && [arg][1..] == [];
    assert Annotations.LiteralConstants([arg]) == Annotations.ConstantOf(arg) + Annotations.LiteralConstants([]);
    assert Annotations.LiteralConstants([arg]) == [c];
  }

  lemma {:induction false} ParamStep(x: string, hint: Option<Annotations.Ann>, s: Schema, rest: seq<Param>, env: Env)
    requires hint.Some? && Annotations.Compile(hint.value) == s && !s.Anything?
    ensures ParamEnv([Param(x, hint)] + rest, env) == ParamEnv(rest, env[x := s])
  {
    assert ([Param(x, hint)] + rest)[1..] == rest;
  }

  lemma ChoiceEnv()
    ensures ParamEnv(ChoiceParams(), map[]) == CHOICE_ENV
  {
    var ps := ChoiceParams();
    var first, second: Env := map["x" := Enum([Num(1.0)])], map["x" := Enum([Num(1.0)]), "y" := Enum([Bool(true)])];
    OneConstant(Num(1.0));
    OneConstant(Bool(true));
    ParamStep("x", ps[0].ann, Enum([Num(1.0)]), [ps[1], ps[2]], map[]);
    ParamStep("y", ps[1].ann, Enum([Bool(true)]), [ps[2]], first);
    ParamStep("c", ps[2].ann, Type(BooleanT), [], second);
    assert ps == [ps[0]] + [ps[1], ps[2]] && [ps[1], ps[2]] == [ps[1]] + [ps[2]] && [ps[2]] == [ps[2]] + [];
    assert first["y" := Enum([Bool(true)])] == second && second["c" := Type(BooleanT)] == CHOICE_ENV;
  }

  lemma ChoiceTyped()
    ensures Infer(CHOICE, CHOICE_ENV) == Some(ChoiceType())
  {
    assert SameToPython(Enum([Num(1.0)]), Enum([Bool(true)]));
    assert Infer(CHOICE.elts[0], CHOICE_ENV) == Some(Enum([Num(1.0)]));
  }

  lemma {:induction false} ChoiceConforms(st: State)
    requires st == ChoiceArguments()
    ensures Conforming(ChoiceParams(), st)
  {
    OneConstant(Num(1.0));
    OneConstant(Bool(true));
    assert Num(1.0) in [Num(1.0)] && Bool(true) in [Bool(true)];
  }

  lemma ChoiceInferred()
    ensures InferReturn(ChoiceParams(), ChoiceBody()) == Literal(map["r" := ChoiceType()], ["r"])
  {
    ChoiceEnv();
    ChoiceTyped();
    FieldType("r", CHOICE, CHOICE_ENV);
    assert ChoiceBody()[1..] == [] && BodyEnv([], CHOICE_ENV) == Some(CHOICE_ENV);
    assert LocalEnv(ChoiceParams(), ChoiceBody()) == Some(CHOICE_ENV);
  }

  lemma {:induction false} ChoiceRuns(st: State, w: World)
    requires st == ChoiceArguments()
    ensures Run(ChoiceBody(), st, w) == Some(PDict(map["r" := PList([PBool(true)])]))
  {
    EvalBranch(st, w);
    ChoiceTyped();
    OneField("r", CHOICE, CHOICE_ENV, st, w);
    PureField("r", CHOICE, st.Keys);
  }

  lemma {:induction false} ChoiceBreaks(w: World)
    ensures Misjudged(ChoiceParams(), ChoiceBody(), ChoiceArguments(), w)
  {
    var st := ChoiceArguments();
    var s, v := ChoiceType(), PList([PBool(true)]);
    ChoiceInferred();
    ChoiceRuns(st, w);
    ChoiceConforms(st);
    ListedOtherwise(s, v);
    MisjudgedIf(ChoiceParams(), ChoiceBody(), st, w, "r", s, v);
  }

  lemma {:induction false} ListedOtherwise(s: Schema, v: Value)
    requires s == ChoiceType() && v == PList([PBool(true)])
    ensures !Fits(s, v)
  {
    assert ToJson(v).elems[0] == Bool(true);
  }

  lemma {:induction false} EvalBranch(st: State, w: World)
    requires st == ChoiceArguments()
    ensures Eval(CHOICE, st, w) == Some(PList([PBool(true)])) && Harmless(CHOICE, st.Keys)
  {
    var choice := CHOICE.elts[0];
    assert Eval(choice, st, w) == Some(PBool(true));
    assert [choice][1..] == [] && EvalAll([], st, w) == Some([]) && [PBool(true)] + [] == [PBool(true)];
    assert EvalAll([choice], st, w) == Some([PBool(true)]);
  }

  lemma {:induction false} StaleConforms(st: State)
    requires st == map["x" := PStr("s")]
    ensures Conforming(StaleParams(), st)
  {
  }

  // A variable may be named like a built-in that is not called: `min: int, max: int` and
  // `return {"span": max - min}` are supported.
  function SpanParams(): seq<Param> {
    var hint := Some(Annotations.Name(Annotations.Int));
    [Param("min", hint), Param("max", hint)]
  }

  const SPAN := BinE(Sub, Var("max"), Var("min"))

  function SpanBody(): seq<Stmt> {
    [Return(Some(DictE([Item(TextKey("span"), SPAN)])))]
  }

  lemma SpanEnv()
    ensures ParamEnv(SpanParams(), map[]) == map["min" := Type(IntegerT), "max" := Type(IntegerT)]
  {
    var hint, first: Env := Some(Annotations.Name(Annotations.Int)), map["min" := Type(IntegerT)];
    var last := [Param("max", hint)];
    ParamStep("min", hint, Type(IntegerT), last, map[]);
    ParamStep("max", hint, Type(IntegerT), [], first);
    assert SpanParams() == [Param("min", hint)] + last && last == last + [];
    assert first["max" := Type(IntegerT)] == map["min" := Type(IntegerT), "max" := Type(IntegerT)];
  }

  lemma {:induction false} SpanTyped(env: Env)
    requires env == map["min" := Type(IntegerT), "max" := Type(IntegerT)]
    ensures Supported(SPAN, env) && Infer(SPAN, env) == Some(Type(IntegerT))
  {
    assert Infer(Var("max"), env) == Some(Type(IntegerT)) && Infer(Var("min"), env) == Some(Type(IntegerT));
  }

  lemma SpanSupported()
    ensures SupportedBody(SpanBody(), ParamEnv(SpanParams(), map[]), {"min", "max"})
  {
    SpanEnv();
    SpanTyped(ParamEnv(SpanParams(), map[]));
    PureField("span", SPAN, {"min", "max"});
    assert [Item(TextKey("span"), SPAN)][1..] == [];
  }
}
