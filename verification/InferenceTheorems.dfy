/**
 Type soundness of return inference: on the supported expressions a value that evaluation
 produces is accepted by the schema that inference produced, whatever the world supplies.
 */
module InferenceTheorems {
  import opened Wrappers
  import opened JsonSchema
  import opened SchemaTheorems
  import Annotations
  import opened Python
  import opened Inference

  ghost predicate Fits(s: Schema, v: Value) {
    Accepts(s, ToJson(v))
  }

  ghost predicate EnvFits(env: Env, st: State) {
    forall x :: x in env && x in st ==> Fits(env[x], st[x])
  }

  // ------------------------------------------------------------------ arithmetic

  predicate Whole(v: Value) {
    v.PInt? || (v.PFloat? && Integral(v.f))
  }

  lemma WholeIsInteger(v: Value)
    ensures HasType(IntegerT, ToJson(v)) <==> Whole(v)
  {
    if v.PInt? { assert (v.i as real).Floor == v.i; }
  }

  lemma {:induction false} IntegralOfInt(r: real, i: int)
    requires r == i as real
    ensures Integral(r)
  {
  }

  lemma ProductOfWholes(a: int, b: int)
    ensures a as real * b as real == (a * b) as real
  {
  }

  lemma {:induction false} WholeProduct(x: real, y: real)
    requires Integral(x) && Integral(y)
    ensures Integral(x * y)
  {
    var m, n := x.Floor, y.Floor;
    ProductOfWholes(m, n);
    assert x * y == m as real * n as real;
    IntegralOfInt(x * y, m * n);
  }

  lemma {:induction false} WholeDifference(x: real, y: real)
    requires Integral(x) && Integral(y)
    ensures Integral(x - y) && Integral(x + y)
  {
    var m, n := x.Floor, y.Floor;
    assert x == m as real && y == n as real;
    IntegralOfInt(x - y, m - n);
    IntegralOfInt(x + y, m + n);
  }

  lemma {:induction false} WholeQuotient(x: real, y: real)
    requires y != 0.0
    ensures Integral(RealFloorDiv(x, y))
  {
    IntegralOfInt(RealFloorDiv(x, y), (x / y).Floor);
  }

  lemma {:induction false} WholeRemainder(x: real, y: real)
    requires Integral(x) && Integral(y) && y != 0.0
    ensures Integral(RealMod(x, y))
  {
    var q := RealFloorDiv(x, y);
    WholeQuotient(x, y);
    WholeProduct(y, q);
    var p := y * q;
    assert Integral(p);
    WholeDifference(x, p);
    assert RealMod(x, y) == x - p;
  }

  lemma {:induction false} WholeReals(op: BinaryOperator, x: real, y: real, w: World)
    requires Integral(x) && Integral(y) && !op.Div? && !op.Pow?
    requires RealArith(op, x, y, w).Some?
    ensures Whole(RealArith(op, x, y, w).value)
  {
    if op.Add? || op.Sub? {
      WholeDifference(x, y);
    } else if op.Mult? {
      WholeProduct(x, y);
    } else if op.FloorDiv? {
      WholeQuotient(x, y);
    } else if op.Mod? {
      WholeRemainder(x, y);
    }
  }

  // Integers are closed under every operator but true division, exponentiation and `@`.
  lemma {:induction false} WholeArithmetic(op: BinaryOperator, a: Value, b: Value, w: World)
    requires Whole(a) && Whole(b) && !op.Div? && !op.Pow?
    requires Binary(op, a, b, w).Some?
    ensures Whole(Binary(op, a, b, w).value)
  {
    if a.PFloat? || b.PFloat? {
      if a.PInt? { IntegralOfInt(a.i as real, a.i); }
      if b.PInt? { IntegralOfInt(b.i as real, b.i); }
      WholeReals(op, AsReal(a).value, AsReal(b).value, w);
    }
  }

  predicate Numeric(v: Value) {
    v.PInt? || v.PFloat?
  }

  lemma {:induction false} NumericArithmetic(op: BinaryOperator, a: Value, b: Value, w: World)
    requires Numeric(a) && Numeric(b) && !op.Pow?
    requires Binary(op, a, b, w).Some?
    ensures Numeric(Binary(op, a, b, w).value)
  {
  }

  lemma {:induction false} StringArithmetic(op: BinaryOperator, a: Value, b: Value, w: World)
    requires a.PStr? || b.PStr?
    requires Binary(op, a, b, w).Some?
    ensures Binary(op, a, b, w).value.PStr?
  {
  }

  lemma {:induction false} BinarySound(op: BinaryOperator, l: Schema, r: Schema, a: Value, b: Value, w: World)
    requires Fits(l, a) && Fits(r, b) && !op.Pow?
    requires InferBinary(op, l, r).Some? && Binary(op, a, b, w).Some?
    ensures Fits(InferBinary(op, l, r).value, Binary(op, a, b, w).value)
  {
    var lt, rt := TypeOf(l), TypeOf(r);
    if lt.One? { TypedValues(l, ToJson(a)); }
    if rt.One? { TypedValues(r, ToJson(b)); }
    WholeIsInteger(a);
    WholeIsInteger(b);
    var v := Binary(op, a, b, w).value;
    WholeIsInteger(v);
    if lt == One(StringT) || rt == One(StringT) {
      StringArithmetic(op, a, b, w);
    } else if lt == One(IntegerT) && rt == One(IntegerT) && op != Div {
      WholeArithmetic(op, a, b, w);
    } else if (lt == One(IntegerT) || lt == One(NumberT)) && (rt == One(IntegerT) || rt == One(NumberT)) {
      NumericArithmetic(op, a, b, w);
    }
  }

  // ------------------------------------------------------------------ signs

  function SignInt(op: UnaryOperator, i: int): int {
    if op.Minus? then -i else if op.Plus? then i else -i - 1
  }

  // What `-`, `+` or `~` makes of a JSON value; a boolean counts as an integer.
  function Signed(op: UnaryOperator, c: Json): Option<Json> {
    match c
    case Bool(b) => Some(Num(SignInt(op, if b then 1 else 0) as real))
    case Num(n) =>
      if Integral(n) then Some(Num(SignInt(op, n.Floor) as real))
      else if op.Invert? then None
      else Some(Num(if op.Minus? then -n else n))
    case _ => None
  }

  const BOOLEANS: seq<Json> := [Bool(true), Bool(false)]

  // The constants a schema lists, booleans among them.
  function Listed(s: Schema): seq<Json> {
    match s
    case Enum(vs) => vs
    case Type(t) => if t.BooleanT? then BOOLEANS else []
    case Types(ts) => if BooleanT in ts then BOOLEANS else []
    case AnyOf(ms) => ListedAll(ms)
    case _ => []
  }

  function ListedAll(ms: seq<Schema>): seq<Json> {
    if ms == [] then [] else Listed(ms[0]) + ListedAll(ms[1..])
  }

  lemma {:induction false} ListedAllIff(ms: seq<Schema>, c: Json)
    ensures c in ListedAll(ms) <==> exists i :: 0 <= i < |ms| && c in Listed(ms[i])
  {
    if ms != [] {
      ListedAllIff(ms[1..], c);
      assert forall i :: 0 < i < |ms| ==> ms[i] == ms[1..][i - 1];
    }
  }

  // The schema accepts what the operator makes of each constant it lists.
  predicate ClosedUnder(op: UnaryOperator, s: Schema) {
    forall c :: c in Listed(s) && Signed(op, c).Some? ==> Accepts(s, Signed(op, c).value)
  }

  lemma {:induction false} ListedAccepted(s: Schema, c: Json)
    requires c in Listed(s)
    ensures Accepts(s, c)
  {
    match s
    case Types(ts) => var i :| 0 <= i < |ts| && ts[i] == BooleanT;
    case AnyOf(ms) =>
      ListedAllIff(ms, c);
      var i :| 0 <= i < |ms| && c in Listed(ms[i]);
      ListedAccepted(ms[i], c);
    case _ =>
  }

  lemma {:induction false} SignedNumber(op: UnaryOperator, n: real)
    requires !op.Not? && Signed(op, Num(n)).Some?
    ensures var c := Signed(op, Num(n)).value; c.Num? && (Integral(n) ==> Integral(c.n))
  {
    if Integral(n) { IntegralOfInt(SignInt(op, n.Floor) as real, SignInt(op, n.Floor)); }
  }

  // A value that is accepted without being listed stays accepted under the operator.
  lemma {:induction false} UnlistedSigned(op: UnaryOperator, s: Schema, c: Json)
    requires !op.Not? && Accepts(s, c) && Signed(op, c).Some? && c !in Listed(s)
    ensures Accepts(s, Signed(op, c).value)
  {
    assert c.Bool? ==> c in BOOLEANS by { assert BOOLEANS[0] == Bool(true) && BOOLEANS[1] == Bool(false); }
    if c.Num? { SignedNumber(op, c.n); }
    match s
    case Types(ts) =>
      var i :| 0 <= i < |ts| && HasType(ts[i], c);
      assert HasType(ts[i], Signed(op, c).value);
    case AnyOf(ms) =>
      var i :| 0 <= i < |ms| && Accepts(ms[i], c);
      ListedAllIff(ms, c);
      UnlistedSigned(op, ms[i], c);
    case _ =>
  }

  lemma {:induction false} UnarySigned(op: UnaryOperator, v: Value)
    requires !op.Not? && Unary(op, v).Some?
    ensures Signed(op, ToJson(v)) == Some(ToJson(Unary(op, v).value))
  {
    if v.PInt? { IntegralOfInt(v.i as real, v.i); }
  }

  lemma {:induction false} UnarySound(op: UnaryOperator, s: Schema, v: Value)
    requires Fits(s, v) && ClosedUnder(op, s) && !op.Not? && Unary(op, v).Some?
    ensures Fits(s, Unary(op, v).value)
  {
    UnarySigned(op, v);
    if ToJson(v) !in Listed(s) { UnlistedSigned(op, s, ToJson(v)); }
  }

  lemma {:induction false} SignedValue(op: UnaryOperator, c: Json) returns (v: Value)
    requires !op.Not? && Signed(op, c).Some?
    ensures ToJson(v) == c && Unary(op, v).Some?
  {
    v := if c.Bool? then PBool(c.b) else if Integral(c.n) then PInt(c.n.Floor) else PFloat(c.n);
  }

  // An operator keeps all values of a schema in the schema if and only if it keeps the constants
  // that the schema lists.
  lemma {:induction false} SignFitsIff(op: UnaryOperator, s: Schema)
    requires !op.Not?
    ensures (forall v :: Fits(s, v) && Unary(op, v).Some? ==> Fits(s, Unary(op, v).value)) <==> ClosedUnder(op, s)
  {
    if ClosedUnder(op, s) {
      forall v | Fits(s, v) && Unary(op, v).Some? ensures Fits(s, Unary(op, v).value) { UnarySound(op, s, v); }
    } else {
      var c :| c in Listed(s) && Signed(op, c).Some? && !Accepts(s, Signed(op, c).value);
      var v := SignedValue(op, c);
      ListedAccepted(s, c);
      UnarySigned(op, v);
      assert Fits(s, v) && !Fits(s, Unary(op, v).value);
    }
  }

  // ------------------------------------------------------------------ expressions

  // The built-ins return what their documentation says they return.
  ghost predicate HonestBuiltins(w: World) {
    forall f, args :: w.call(f, args).Some? ==> BuiltinResult(f, w.call(f, args).value)
  }

  predicate BuiltinResult(func: string, v: Value) {
    && (func in ["int", "len"] ==> v.PInt?)
    && (func in ["float", "abs", "round"] ==> Numeric(v))
    && (func == "str" ==> v.PStr?)
    && (func == "bool" ==> v.PBool?)
    && (func == "list" ==> v.PList?)
    && (func == "set" ==> v.PSet?)
    && (func == "tuple" ==> v.PTuple?)
    && (func == "dict" ==> v.PDict?)
  }

  // Two types that are equal to Python are the same type.
  predicate TellsApart(a: Option<Schema>, b: Option<Schema>) {
    a.Some? && b.Some? && SameToPython(a.value, b.value) ==> a == b
  }

  // The pure expressions that inference gets right.
  ghost predicate Supported(e: Expr, env: Env)
    decreases e, 0
  {
    match e
    case ListE(elts) =>
      || elts == []
      || Infer(elts[0], env) == Some(Anything)
      || forall i :: 0 <= i < |elts| ==> Supported(elts[i], env) && Infer(elts[i], env) == Infer(elts[0], env)
    case TupleE(_) => false
    case SetE(_) => false
    case DictE(items) => SupportedItems(items, env)
    case BoolE(_, operands) =>
      forall i :: 0 <= i < |operands| ==> Supported(operands[i], env) && Infer(operands[i], env) == Some(Type(BooleanT))
    case UnaryE(op, operand) =>
      op.Not? || (Supported(operand, env) && (Infer(operand, env).Some? ==> ClosedUnder(op, Infer(operand, env).value)))
    case BinE(op, l, r) => op != Pow && Supported(l, env) && Supported(r, env)
    case Call(f, _) => f !in ["set", "tuple", "min", "max", "sum"]
    case IfE(_, body, orelse) =>
      && Supported(body, env) && Supported(orelse, env)
      && TellsApart(Infer(body, env), Infer(orelse, env))
    case _ => true
  }

  // Every field has a readable key and a value that can be typed.
  ghost predicate SupportedItems(items: seq<Item>, env: Env)
    decreases items, 0
  {
    items != [] ==>
      var first := items[0];
      assert first.value < first;
      && (first.key.TextKey? ==>
            Supported(first.value, env) && Infer(first.value, env) != Some(Anything))
      && SupportedItems(items[1..], env)
  }

  ghost predicate RecordFits(props: map<string, Schema>, required: seq<string>, m: map<string, Value>) {
    && props.Keys == m.Keys
    && (forall k :: k in props ==> Fits(props[k], m[k]))
    && (forall k :: k in required ==> k in m)
  }

  lemma {:induction false} RecordAccepts(props: map<string, Schema>, required: seq<string>, m: map<string, Value>)
    requires RecordFits(props, required, m)
    ensures Fits(Record(props, required, true), PDict(m))
  {
    var obj := ToJson(PDict(m));
    assert obj.fields.Keys == m.Keys;
  }

  // If inference produced a schema and evaluation a value, the schema accepts the value.
  lemma {:induction false} InferSound(e: Expr, env: Env, st: State, w: World)
    requires Pure(e) && Supported(e, env) && EnvFits(env, st) && HonestBuiltins(w)
    requires Infer(e, env).Some? && Eval(e, st, w).Some?
    ensures Fits(Infer(e, env).value, Eval(e, st, w).value)
    decreases e, 1
  {
    match e
    case ListE(elts) => ListSound(elts, env, st, w);
    case DictE(items) => DictSound(items, env, st, w);
    case BoolE(bop, operands) => BoolSound(bop, operands, env, st, w);
    case UnaryE(op, operand) =>
      if !op.Not? {
        InferSound(operand, env, st, w);
        UnarySound(op, Infer(operand, env).value, Eval(operand, st, w).value);
      }
    case BinE(op, l, r) =>
      InferSound(l, env, st, w);
      InferSound(r, env, st, w);
      BinarySound(op, Infer(l, env).value, Infer(r, env).value, Eval(l, st, w).value, Eval(r, st, w).value, w);
    case IfE(test, body, orelse) =>
      if Truthy(Eval(test, st, w).value) { InferSound(body, env, st, w); } else { InferSound(orelse, env, st, w); }
    case _ => LeafSound(e, env, st, w);
  }

  // The expressions whose type does not depend on their parts.
  lemma {:induction false} LeafSound(e: Expr, env: Env, st: State, w: World)
    requires Supported(e, env) && EnvFits(env, st) && HonestBuiltins(w)
    requires Infer(e, env).Some? && Eval(e, st, w).Some?
    requires !e.ListE? && !e.DictE? && !e.BoolE? && !e.UnaryE? && !e.BinE? && !e.IfE?
    ensures Fits(Infer(e, env).value, Eval(e, st, w).value)
  {
    match e
    case Call(f, args) =>
      assert BuiltinResult(f, Eval(e, st, w).value);
      CallSound(f, Eval(e, st, w).value);
    case Const(v) => WholeIsInteger(v);
    case _ =>
  }

  lemma {:induction false} CallSound(f: string, v: Value)
    requires BuiltinResult(f, v) && f !in ["set", "tuple", "min", "max", "sum"]
    ensures Fits(CallSchema(f), v)
  {
    WholeIsInteger(v);
  }

  lemma {:induction false} ListAccepts(inner: Schema, vs: seq<Value>)
    requires forall i :: 0 <= i < |vs| ==> Fits(inner, vs[i])
    ensures Fits(Items(inner, false), PList(vs))
  {
    var arr := ToJson(PList(vs));
    assert |arr.elems| == |vs| && forall i :: 0 <= i < |vs| ==> arr.elems[i] == ToJson(vs[i]);
  }

  lemma {:induction false} ListSound(elts: seq<Expr>, env: Env, st: State, w: World)
    requires Pure(ListE(elts)) && Supported(ListE(elts), env) && EnvFits(env, st) && HonestBuiltins(w)
    requires Infer(ListE(elts), env).Some? && EvalAll(elts, st, w).Some?
    ensures Fits(Infer(ListE(elts), env).value, PList(EvalAll(elts, st, w).value))
    decreases elts, 0
  {
    var vs := EvalAll(elts, st, w).value;
    if elts != [] && Infer(elts[0], env) != Some(Anything) {
      var inner := Infer(elts[0], env).value;
      forall i | 0 <= i < |vs| ensures Fits(inner, vs[i]) {
        InferSound(elts[i], env, st, w);
      }
      ListAccepts(inner, vs);
    }
  }

  lemma {:induction false} BoolSound(bop: BoolOperator, es: seq<Expr>, env: Env, st: State, w: World)
    requires EnvFits(env, st) && HonestBuiltins(w) && EvalBool(bop, es, st, w).Some?
    requires forall i :: 0 <= i < |es| ==>
               Pure(es[i]) && Supported(es[i], env) && Infer(es[i], env) == Some(Type(BooleanT))
    ensures EvalBool(bop, es, st, w).value.PBool?
    decreases es, 0
  {
    InferSound(es[0], env, st, w);
    if |es| > 1 && Truthy(Eval(es[0], st, w).value) != bop.Or? { BoolSound(bop, es[1..], env, st, w); }
  }

  predicate PureItems(items: seq<Item>) {
    forall i :: 0 <= i < |items| ==> Pure(items[i].value)
  }

  lemma {:induction false} DictSound(items: seq<Item>, env: Env, st: State, w: World)
    requires PureItems(items) && SupportedItems(items, env) && EnvFits(env, st) && HonestBuiltins(w)
    requires Infer(DictE(items), env).Some? && EvalItems(items, st, w, map[]).Some?
    ensures Fits(Infer(DictE(items), env).value, PDict(EvalItems(items, st, w, map[]).value))
    decreases items, 1
  {
    ItemsSound(items, env, st, w, map[], [], map[]);
    var fields := InferItems(items, env, map[], []);
    if fields.Literal? {
      RecordAccepts(fields.props, fields.required, EvalItems(items, st, w, map[]).value);
    }
  }

  lemma {:induction false} ItemsSound(items: seq<Item>, env: Env, st: State, w: World,
                                      props: map<string, Schema>, required: seq<string>, acc: map<string, Value>)
    requires PureItems(items) && SupportedItems(items, env) && EnvFits(env, st) && HonestBuiltins(w)
    requires RecordFits(props, required, acc) && EvalItems(items, st, w, acc).Some?
    ensures var fields := InferItems(items, env, props, required);
            fields.Literal? ==> RecordFits(fields.props, fields.required, EvalItems(items, st, w, acc).value)
    decreases items, 0
  {
    if items != [] && items[0].key.TextKey? {
      var first := items[0];
      assert first.value < first;
      var k, v := first.key.text, Eval(first.value, st, w).value;
      if Infer(first.value, env).Some? {
        var s := Infer(first.value, env).value;
        InferSound(first.value, env, st, w);
        ItemsSound(items[1..], env, st, w, props[k := OrString(s)], required + [k], acc[k := v]);
      }
    }
  }

  // ------------------------------------------------------------------ precision on numbers

  // Arithmetic over numeric constants and numerically typed names.
  ghost predicate NumericExpr(e: Expr, env: Env) {
    match e
    case Const(v) => Numeric(v)
    case Var(x) => x in env && (env[x] == Type(IntegerT) || env[x] == Type(NumberT))
    case UnaryE(op, operand) => !op.Not? && NumericExpr(operand, env)
    case BinE(_, l, r) => NumericExpr(l, env) && NumericExpr(r, env)
    case _ => false
  }

  // No float among the leaves, and no true division.
  ghost predicate IntegerOnly(e: Expr, env: Env) {
    match e
    case Const(v) => v.PInt?
    case Var(x) => x in env && env[x] == Type(IntegerT)
    case UnaryE(_, operand) => IntegerOnly(operand, env)
    case BinE(op, l, r) => op != Div && IntegerOnly(l, env) && IntegerOnly(r, env)
    case _ => false
  }

  // On such expressions inference is exact about integers.
  lemma {:induction false} NumericPrecision(e: Expr, env: Env)
    requires NumericExpr(e, env)
    ensures Infer(e, env) == Some(Type(if IntegerOnly(e, env) then IntegerT else NumberT))
  {
    match e
    case UnaryE(op, operand) => NumericPrecision(operand, env);
    case BinE(op, l, r) => NumericPrecision(l, env); NumericPrecision(r, env);
    case _ =>
  }

  // ------------------------------------------------------------------ bodies

  // A statement the environment tracks: plain names get a value that can be typed, or one that
  // cannot but that no recorded type contradicts; a declared type includes the inferred one.  Nothing in
  // it has an effect, and no name it calls is one of the variables.
  ghost predicate SupportedStmt(s: Stmt, env: Env, vars: set<string>) {
    match s
    case Assign(targets, value) =>
      && Harmless(value, vars) && Supported(value, env)
      && (forall i :: 0 <= i < |targets| ==>
            && targets[i].Id? && targets[i].name in vars
            && (Infer(value, env) == Some(Anything) ==> targets[i].name !in env))
    case AnnAssign(target, ann, init) =>
      && target.Id? && target.name in vars
      && init.Some? && Harmless(init.value, vars) && Supported(init.value, env) && Infer(init.value, env).Some?
      && DeclaredFor(target.name, Annotations.Compile(ann), Infer(init.value, env).value, env)
    case Do(e) => Harmless(e, vars)
    case Return(_) => false
  }

  // The type the name has after a declaration includes the inferred one.
  predicate DeclaredFor(x: string, declared: Schema, inferred: Schema, env: Env) {
    if declared.Anything? then x in env ==> Subsumes(env[x], inferred) else Subsumes(declared, inferred)
  }

  // `return {...}` with a literal that inference gets right.
  ghost predicate SupportedReturn(s: Stmt, env: Env, vars: set<string>) {
    && s.Return? && s.result.Some? && s.result.value.DictE?
    && Harmless(s.result.value, vars) && SupportedItems(s.result.value.items, env)
  }

  // Supported statements, then one supported return; `vars` are the variables of the handler.
  ghost predicate SupportedBody(body: seq<Stmt>, env: Env, vars: set<string>) {
    if |body| == 0 then false
    else if |body| == 1 then SupportedReturn(body[0], env, vars)
    else
      && SupportedStmt(body[0], env, vars)
      && StmtEnv(body[0], env).Some?
      && SupportedBody(body[1..], StmtEnv(body[0], env).value, vars)
  }

  // The statement leaves the recorded types true, and sets no other variables.
  ghost predicate KeepsTypes(s: Stmt, env: Env, st: State, w: World, vars: set<string>)
    requires StmtEnv(s, env).Some? && Exec(s, st, w).Some?
  {
    EnvFits(StmtEnv(s, env).value, Exec(s, st, w).value) && Exec(s, st, w).value.Keys <= vars
  }

  // A run in which every statement with an effect keeps the types, and the others are supported.
  ghost predicate TrackedRun(body: seq<Stmt>, env: Env, st: State, w: World, vars: set<string>) {
    if |body| == 0 then false
    else if |body| == 1 then SupportedReturn(body[0], env, vars)
    else
      && !body[0].Return?
      && StmtEnv(body[0], env).Some?
      && (Exec(body[0], st, w).Some? ==>
            && (SupportedStmt(body[0], env, vars) || KeepsTypes(body[0], env, st, w, vars))
            && TrackedRun(body[1..], StmtEnv(body[0], env).value, Exec(body[0], st, w).value, w, vars))
  }

  lemma {:induction false} SupportedIsTracked(body: seq<Stmt>, env: Env, st: State, w: World, vars: set<string>)
    requires SupportedBody(body, env, vars)
    ensures TrackedRun(body, env, st, w, vars)
  {
    if |body| > 1 && Exec(body[0], st, w).Some? {
      SupportedIsTracked(body[1..], StmtEnv(body[0], env).value, Exec(body[0], st, w).value, w, vars);
    }
  }

  lemma {:induction false} BindFits(targets: seq<Target>, env: Env, st: State, s: Schema, v: Value)
    requires EnvFits(env, st) && Fits(s, v)
    requires forall i :: 0 <= i < |targets| ==> targets[i].Id?
    ensures EnvFits(Bind(targets, env, s), Bind(targets, st, v))
  {
    if targets != [] {
      var x := targets[0].name;
      BindFits(targets[1..], env[x := s], st[x := v], s, v);
    }
  }

  lemma {:induction false} BindUntracked(targets: seq<Target>, env: Env, st: State, v: Value)
    requires EnvFits(env, st)
    requires forall i :: 0 <= i < |targets| ==> targets[i].Id? && targets[i].name !in env
    ensures EnvFits(env, Bind(targets, st, v))
  {
    if targets != [] { BindUntracked(targets[1..], env, st[targets[0].name := v], v); }
  }

  lemma {:induction false} BindNames(targets: seq<Target>, st: State, v: Value, vars: set<string>)
    requires st.Keys <= vars
    requires forall i :: 0 <= i < |targets| ==> targets[i].Id? && targets[i].name in vars
    ensures Bind(targets, st, v).Keys <= vars
  {
    if targets != [] { BindNames(targets[1..], st[targets[0].name := v], v, vars); }
  }

  lemma {:induction false} StoreIsBind(targets: seq<Target>, st: State, v: Value, w: World)
    requires forall i :: 0 <= i < |targets| ==> targets[i].Id?
    ensures Store(targets, st, v, w) == Some(Bind(targets, st, v))
    decreases targets
  {
    if targets != [] { StoreIsBind(targets[1..], st[targets[0].name := v], v, w); }
  }

  lemma BindOne<T>(x: string, m: map<string, T>, t: T)
    ensures Bind([Id(x)], m, t) == m[x := t]
  {
    assert [Id(x)][1..] == [];
  }

  lemma {:induction false} DeclaredFits(x: string, declared: Schema, inferred: Schema, env: Env, v: Value)
    requires DeclaredFor(x, declared, inferred, env) && Fits(inferred, v)
    ensures if declared.Anything? then x in env ==> Fits(env[x], v) else Fits(declared, v)
  {
    if !declared.Anything? {
      SubsumesAccepts(declared, inferred, ToJson(v));
    } else if x in env {
      SubsumesAccepts(env[x], inferred, ToJson(v));
    }
  }

  lemma {:induction false} StatementSound(s: Stmt, env: Env, st: State, w: World, vars: set<string>)
    requires SupportedStmt(s, env, vars) && EnvFits(env, st) && st.Keys <= vars && HonestBuiltins(w)
    requires StmtEnv(s, env).Some? && Exec(s, st, w).Some?
    ensures KeepsTypes(s, env, st, w, vars)
  {
    match s
    case Assign(targets, value) =>
      FewerHide(value, vars, st.Keys);
      InferSound(value, env, st, w);
      var v := Eval(value, st, w).value;
      StoreIsBind(targets, st, v, w);
      BindNames(targets, st, v, vars);
      if Infer(value, env) == Some(Anything) {
        BindUntracked(targets, env, st, v);
      } else {
        BindFits(targets, env, st, Infer(value, env).value, v);
      }
    case AnnAssign(target, ann, init) =>
      FewerHide(init.value, vars, st.Keys);
      var v := Eval(init.value, st, w).value;
      InferSound(init.value, env, st, w);
      DeclaredFits(target.name, Annotations.Compile(ann), Infer(init.value, env).value, env, v);
      StoreIsBind([target], st, v, w);
      BindOne(target.name, st, v);
    case Do(e) => FewerHide(e, vars, st.Keys);
  }

  lemma {:induction false} BodySound(body: seq<Stmt>, env: Env, st: State, w: World, vars: set<string>)
    requires TrackedRun(body, env, st, w, vars) && EnvFits(env, st) && st.Keys <= vars && HonestBuiltins(w)
    requires Run(body, st, w).Some?
    ensures BodyEnv(body, env).Some? && Run(body, st, w).value.PDict?
    ensures
      && LastReturn(body).Some? && LastReturn(body).value.result.Some? && LastReturn(body).value.result.value.DictE?
      && var fields := InferItems(LastReturn(body).value.result.value.items, BodyEnv(body, env).value, map[], []);
         fields.Literal? ==> Fits(Record(fields.props, fields.required, true), Run(body, st, w).value)
  {
    if |body| == 1 {
      assert body[1..] == [];
      FewerHide(body[0].result.value, vars, st.Keys);
      if Infer(body[0].result.value, env).Some? { InferSound(body[0].result.value, env, st, w); }
    } else {
      if SupportedStmt(body[0], env, vars) { StatementSound(body[0], env, st, w, vars); }
      BodySound(body[1..], StmtEnv(body[0], env).value, Exec(body[0], st, w).value, w, vars);
      LastReturnTail(body);
    }
  }

  lemma {:induction false} LastReturnTail(body: seq<Stmt>)
    requires |body| > 0 && LastReturn(body[1..]).Some?
    ensures LastReturn(body) == LastReturn(body[1..])
  {
    var rest, front := body[1..], body[..|body| - 1];
    assert rest[|rest| - 1] == body[|body| - 1];
    if !body[|body| - 1].Return? {
      assert rest[..|rest| - 1] == front[1..];
      LastReturnTail(front);
    }
  }

  // Arguments that conform: each is accepted by the schema of its parameter's hint.
  ghost predicate Conforming(params: seq<Param>, st: State) {
    forall p :: p in params && p.ann.Some? && p.name in st ==> Fits(Annotations.Compile(p.ann.value), st[p.name])
  }

  lemma {:induction false} ParamsFit(params: seq<Param>, env: Env, st: State)
    requires Conforming(params, st) && EnvFits(env, st)
    ensures EnvFits(ParamEnv(params, env), st)
  {
    if params != [] {
      var p := params[0];
      assert forall q :: q in params[1..] ==> q in params;
      assert p in params;
      if p.ann.Some? && !Annotations.Compile(p.ann.value).Anything? {
        ParamsFit(params[1..], env[p.name := Annotations.Compile(p.ann.value)], st);
      } else {
        ParamsFit(params[1..], env, st);
      }
    }
  }

  // A handler called with conforming arguments, in a run that keeps track of its types, returns, if
  // it returns at all, a value the inferred schema accepts; the validator does too, provided that the
  // schema is a valid document.
  lemma {:induction false} ReturnSound(params: seq<Param>, body: seq<Stmt>, st: State, w: World, vars: set<string>)
    requires TrackedRun(body, ParamEnv(params, map[]), st, w, vars) && HonestBuiltins(w)
    requires Conforming(params, st) && st.Keys <= vars
    requires InferReturn(params, body).Literal? && Run(body, st, w).Some?
    ensures var fields := InferReturn(params, body); var s := Record(fields.props, fields.required, true);
            && Fits(s, Run(body, st, w).value)
            && (Validates(s, ToJson(Run(body, st, w).value)) <==> ReturnDocumented(params, body))
  {
    ParamsFit(params, map[], st);
    BodySound(body, ParamEnv(params, map[]), st, w, vars);
    ReturnDocumentIff(params, body);
  }

  // A handler without effects keeps track of them by itself.
  lemma {:induction false} SupportedReturnSound(params: seq<Param>, body: seq<Stmt>, st: State, w: World,
                                                vars: set<string>)
    requires SupportedBody(body, ParamEnv(params, map[]), vars) && HonestBuiltins(w)
    requires Conforming(params, st) && st.Keys <= vars
    requires InferReturn(params, body).Literal? && Run(body, st, w).Some?
    ensures var fields := InferReturn(params, body); var s := Record(fields.props, fields.required, true);
            && Fits(s, Run(body, st, w).value)
            && (Validates(s, ToJson(Run(body, st, w).value)) <==> ReturnDocumented(params, body))
  {
    SupportedIsTracked(body, ParamEnv(params, map[]), st, w, vars);
    ReturnSound(params, body, st, w, vars);
  }

  // ------------------------------------------------------------------ valid documents

  function Texts(items: seq<Item>): seq<string> {
    if items == [] || !items[0].key.TextKey? then [] else [items[0].key.text] + Texts(items[1..])
  }

  predicate AllText(items: seq<Item>) {
    forall i :: 0 <= i < |items| ==> items[i].key.TextKey?
  }

  // No literal that shows in the type repeats a key, and the recorded types it shows are documents.
  predicate TypedByDocument(e: Expr, env: Env)
    decreases e, 0
  {
    match e
    case Var(x) => x in env ==> ValidDocument(env[x])
    case ListE(elts) => elts != [] ==> TypedByDocument(elts[0], env)
    case DictE(items) => AllText(items) ==> ItemsDocumented(items, env)
    case UnaryE(op, operand) => !op.Not? ==> TypedByDocument(operand, env)
    case IfE(_, body, _) => Infer(e, env) != Some(Anything) ==> TypedByDocument(body, env)
    case _ => true
  }

  predicate ItemsDocumented(items: seq<Item>, env: Env)
    decreases items, 0
  {
    && Distinct(Texts(items))
    && forall i :: 0 <= i < |items| ==> (assert items[i].value < items[i]; TypedByDocument(items[i].value, env))
  }

  // Those, and only those, are typed by a valid document.
  lemma {:induction false} InferDocumentIff(e: Expr, env: Env)
    requires Infer(e, env).Some?
    ensures ValidDocument(Infer(e, env).value) <==> TypedByDocument(e, env)
    decreases e, 1
  {
    match e
    case ListE(elts) => if elts != [] { InferDocumentIff(elts[0], env); }
    case DictE(items) =>
      DynamicIff(items, env, map[], []);
      if AllText(items) { ItemsDocumentIff(items, env); }
    case UnaryE(op, operand) => if !op.Not? { InferDocumentIff(operand, env); }
    case IfE(_, body, _) => if Infer(e, env) != Some(Anything) { InferDocumentIff(body, env); }
    case _ =>
  }

  lemma {:induction false} DynamicIff(items: seq<Item>, env: Env, props: map<string, Schema>, required: seq<string>)
    requires !InferItems(items, env, props, required).Crash?
    ensures InferItems(items, env, props, required).Literal? <==> AllText(items)
    decreases items
  {
    if items != [] && items[0].key.TextKey? {
      var first := items[0];
      var s := Infer(first.value, env).value;
      DynamicIff(items[1..], env, props[first.key.text := OrString(s)], required + [first.key.text]);
      assert AllText(items) <==> AllText(items[1..]) by {
        if AllText(items[1..]) {
          forall i | 0 <= i < |items| ensures items[i].key.TextKey? {
            if i > 0 { assert items[i] == items[1..][i - 1]; }
          }
        }
      }
    }
  }

  lemma {:induction false} ItemsDocumentIff(items: seq<Item>, env: Env)
    requires InferItems(items, env, map[], []).Literal?
    ensures var fields := InferItems(items, env, map[], []);
            ValidDocument(Record(fields.props, fields.required, true)) <==> ItemsDocumented(items, env)
    decreases items, 0
  {
    forall i | 0 <= i < |items| && Infer(items[i].value, env).Some?
      ensures ValidDocument(Infer(items[i].value, env).value) <==> TypedByDocument(items[i].value, env)
    {
      assert items[i].value < items[i];
      InferDocumentIff(items[i].value, env);
    }
    FieldsCollected(items, env, map[], []);
    assert [] + Texts(items) == Texts(items);
  }

  // What the scan collects, when no key repeats: the fields it had, and those of the items.
  lemma {:induction false} FieldsCollected(items: seq<Item>, env: Env, props: map<string, Schema>,
                                           required: seq<string>)
    requires InferItems(items, env, props, required).Literal? && forall k :: k in props <==> k in required
    ensures var fields := InferItems(items, env, props, required);
            && fields.required == required + Texts(items)
            && (forall i :: 0 <= i < |items| ==> Infer(items[i].value, env).Some?)
            && (Distinct(fields.required) ==>
                  ((forall k :: k in fields.props ==> ValidDocument(fields.props[k])) <==>
                   && (forall k :: k in props ==> ValidDocument(props[k]))
                   && (forall i :: 0 <= i < |items| ==> ValidDocument(Infer(items[i].value, env).value))))
    decreases items
  {
    if items == [] {
      assert required + [] == required;
    } else {
      var first, rest := items[0], items[1..];
      var k, s := first.key.text, Infer(first.value, env).value;
      var next, names := props[k := OrString(s)], required + [k];
      FieldsCollected(rest, env, next, names);
      Reassociate(required, [k], Texts(rest));
      assert forall i :: 0 < i < |items| ==> items[i] == rest[i - 1];
      var all := names + Texts(rest);
      assert all[|required|] == k && forall i :: 0 <= i < |required| ==> all[i] == required[i];
      if Distinct(all) {
        assert k !in required;
        assert forall x :: x in next <==> x == k || x in props;
      }
    }
  }

  // The fields of a literal: its keys, each with the type of the last value given for it, a string
  // where that cannot be typed.
  lemma {:induction false} FieldsAreKeys(items: seq<Item>, env: Env, props: map<string, Schema>, required: seq<string>,
                                         k: string)
    requires InferItems(items, env, props, required).Literal?
    ensures var fields := InferItems(items, env, props, required);
            && fields.required == required + Texts(items)
            && (k in fields.props <==> k in props || k in Texts(items))
            && (k in props && k !in Texts(items) ==> fields.props[k] == props[k])
    decreases items
  {
    if items == [] {
      assert required + [] == required;
    } else {
      var x, s := items[0].key.text, Infer(items[0].value, env).value;
      FieldsAreKeys(items[1..], env, props[x := OrString(s)], required + [x], k);
      Reassociate(required, [x], Texts(items[1..]));
    }
  }

  lemma {:induction false} LastFieldTyped(items: seq<Item>, env: Env, props: map<string, Schema>, required: seq<string>,
                                          i: nat)
    requires InferItems(items, env, props, required).Literal?
    requires i < |items| && forall j :: i < j < |items| ==> items[j].key != items[i].key
    ensures var fields := InferItems(items, env, props, required);
            && items[i].key.TextKey? && Infer(items[i].value, env).Some?
            && items[i].key.text in fields.props
            && fields.props[items[i].key.text] == OrString(Infer(items[i].value, env).value)
    decreases items
  {
    var x, s := items[0].key.text, Infer(items[0].value, env).value;
    var next, names := props[x := OrString(s)], required + [x];
    if i == 0 {
      FieldsAreKeys(items[1..], env, next, names, x);
      TextsAreKeys(items[1..], x);
    } else {
      LastFieldTyped(items[1..], env, next, names, i - 1);
    }
  }

  lemma {:induction false} TextsAreKeys(items: seq<Item>, k: string)
    ensures k in Texts(items) ==> exists i :: 0 <= i < |items| && items[i].key == TextKey(k)
  {
    if k in Texts(items) {
      if items[0].key == TextKey(k) {
      } else {
        TextsAreKeys(items[1..], k);
        var i :| 0 <= i < |items[1..]| && items[1..][i].key == TextKey(k);
        assert items[i + 1].key == TextKey(k);
      }
    }
  }

  // The type of the returned literal is a valid document.
  predicate ReturnDocumented(params: seq<Param>, body: seq<Stmt>) {
    match LastReturn(body)
    case Some(Return(Some(DictE(items)))) =>
      LocalEnv(params, body).Some? && ItemsDocumented(items, LocalEnv(params, body).value)
    case _ => false
  }

  lemma {:induction false} ReturnDocumentIff(params: seq<Param>, body: seq<Stmt>)
    requires InferReturn(params, body).Literal?
    ensures var fields := InferReturn(params, body);
            ValidDocument(Record(fields.props, fields.required, true)) <==> ReturnDocumented(params, body)
  {
    match LastReturn(body)
    case Some(Return(Some(DictE(items)))) => ItemsDocumentIff(items, LocalEnv(params, body).value);
  }

  // ------------------------------------------------------------------ when inference itself raises

  ghost predicate Plain(env: Env) {
    forall x :: x in env ==> !TypeOf(env[x]).Many?
  }

  // If no name has a list-valued "type", inference never raises, and introduces no such type.
  lemma {:induction false} InferTotal(e: Expr, env: Env)
    requires Plain(env)
    ensures Infer(e, env).Some? && !TypeOf(Infer(e, env).value).Many?
    decreases e, 0
  {
    match e
    case ListE(elts) => if elts != [] { InferTotal(elts[0], env); }
    case DictE(items) => ItemsTotal(items, env, map[], []);
    case UnaryE(op, operand) => InferTotal(operand, env);
    case BinE(op, l, r) => InferTotal(l, env); InferTotal(r, env);
    case IfE(_, body, orelse) => InferTotal(body, env); InferTotal(orelse, env);
    case _ =>
  }

  lemma {:induction false} ItemsTotal(items: seq<Item>, env: Env, props: map<string, Schema>, required: seq<string>)
    requires Plain(env)
    ensures !InferItems(items, env, props, required).Crash?
    decreases items, 0
  {
    if items != [] && items[0].key.TextKey? {
      var first := items[0];
      assert first.value < first;
      InferTotal(first.value, env);
      var s := Infer(first.value, env).value;
      ItemsTotal(items[1..], env, props[first.key.text := OrString(s)], required + [first.key.text]);
    }
  }

  // A list-valued type meets no string: the source then puts it in a set.
  predicate Clash(l: Schema, r: Schema) {
    (TypeOf(l).Many? || TypeOf(r).Many?) && TypeOf(l) != One(StringT) && TypeOf(r) != One(StringT)
  }

  // Somewhere in what inference looks at, the operands of an operator clash.
  predicate Clashes(e: Expr, env: Env)
    decreases e, 0
  {
    match e
    case ListE(elts) => elts != [] && Clashes(elts[0], env)
    case DictE(items) => ItemsClash(items, env)
    case UnaryE(op, operand) => !op.Not? && Clashes(operand, env)
    case BinE(_, l, r) =>
      || Clashes(l, env)
      || Clashes(r, env)
      || (Infer(l, env).Some? && Infer(r, env).Some? && Clash(Infer(l, env).value, Infer(r, env).value))
    case IfE(_, body, orelse) => Clashes(body, env) || Clashes(orelse, env)
    case _ => false
  }

  predicate ItemsClash(items: seq<Item>, env: Env)
    decreases items, 0
  {
    && items != [] && items[0].key.TextKey?
    && (assert items[0].value < items[0]; Clashes(items[0].value, env) || ItemsClash(items[1..], env))
  }

  // Inference raises exactly when operands clash.
  lemma {:induction false} InferRaisesIff(e: Expr, env: Env)
    ensures Infer(e, env).None? <==> Clashes(e, env)
    decreases e, 0
  {
    match e
    case ListE(elts) => if elts != [] { InferRaisesIff(elts[0], env); }
    case DictE(items) => ItemsRaiseIff(items, env, map[], []);
    case UnaryE(op, operand) => InferRaisesIff(operand, env);
    case BinE(op, l, r) => InferRaisesIff(l, env); InferRaisesIff(r, env);
    case IfE(_, body, orelse) => InferRaisesIff(body, env); InferRaisesIff(orelse, env);
    case _ =>
  }

  lemma {:induction false} ItemsRaiseIff(items: seq<Item>, env: Env, props: map<string, Schema>, required: seq<string>)
    ensures InferItems(items, env, props, required).Crash? <==> ItemsClash(items, env)
    decreases items, 0
  {
    if items != [] && items[0].key.TextKey? {
      var first := items[0];
      assert first.value < first;
      InferRaisesIff(first.value, env);
      if Infer(first.value, env).Some? {
        var s := Infer(first.value, env).value;
        ItemsRaiseIff(items[1..], env, props[first.key.text := OrString(s)], required + [first.key.text]);
      }
    }
  }

  predicate BodyClashes(body: seq<Stmt>, env: Env) {
    body != [] &&
      match StmtEnv(body[0], env)
      case None => body[0].Assign? && Clashes(body[0].value, env)
      case Some(next) => BodyClashes(body[1..], next)
  }

  lemma {:induction false} BodyRaisesIff(body: seq<Stmt>, env: Env)
    ensures BodyEnv(body, env).None? <==> BodyClashes(body, env)
  {
    if body != [] {
      if body[0].Assign? { InferRaisesIff(body[0].value, env); }
      if StmtEnv(body[0], env).Some? { BodyRaisesIff(body[1..], StmtEnv(body[0], env).value); }
    }
  }

  // Typing the returned literal raises exactly when operands clash in an assignment or in it.
  predicate ReturnClashes(params: seq<Param>, body: seq<Stmt>) {
    match LastReturn(body)
    case Some(Return(Some(DictE(items)))) =>
      BodyClashes(body, ParamEnv(params, map[]))
      || (LocalEnv(params, body).Some? && ItemsClash(items, LocalEnv(params, body).value))
    case _ => false
  }

  lemma ReturnRaisesIff(params: seq<Param>, body: seq<Stmt>)
    ensures InferReturn(params, body).Crash? <==> ReturnClashes(params, body)
  {
    BodyRaisesIff(body, ParamEnv(params, map[]));
    match LastReturn(body)
    case Some(Return(Some(DictE(items)))) =>
      if LocalEnv(params, body).Some? { ItemsRaiseIff(items, LocalEnv(params, body).value, map[], []); }
    case _ =>
  }

  // No hint of a parameter or an assignment has a list-valued type.
  predicate PlainHints(params: seq<Param>, body: seq<Stmt>) {
    && (forall p :: p in params && p.ann.Some? ==> !TypeOf(Annotations.Compile(p.ann.value)).Many?)
    && (forall s :: s in body && s.AnnAssign? ==> !TypeOf(Annotations.Compile(s.ann)).Many?)
  }

  lemma {:induction false} ParamsPlain(params: seq<Param>, env: Env)
    requires Plain(env) && PlainHints(params, [])
    ensures Plain(ParamEnv(params, env))
  {
    if params != [] {
      var p := params[0];
      assert p in params && forall q :: q in params[1..] ==> q in params;
      var next := if p.ann.Some? && !Annotations.Compile(p.ann.value).Anything?
                  then env[p.name := Annotations.Compile(p.ann.value)] else env;
      ParamsPlain(params[1..], next);
    }
  }

  lemma {:induction false} BindPlain(targets: seq<Target>, env: Env, s: Schema)
    requires Plain(env) && !TypeOf(s).Many?
    ensures Plain(Bind(targets, env, s))
  {
    if targets != [] { BindPlain(targets[1..], if targets[0].Id? then env[targets[0].name := s] else env, s); }
  }

  lemma {:induction false} BodyPlain(body: seq<Stmt>, env: Env)
    requires Plain(env) && PlainHints([], body)
    ensures BodyEnv(body, env).Some? && Plain(BodyEnv(body, env).value)
  {
    if body != [] {
      assert body[0] in body && forall s :: s in body[1..] ==> s in body;
      if body[0].Assign? {
        InferTotal(body[0].value, env);
        BindPlain(body[0].targets, env, Infer(body[0].value, env).value);
      }
      BodyPlain(body[1..], StmtEnv(body[0], env).value);
    }
  }

  // Without such hints the inference of a return schema never raises.
  lemma {:induction false} ReturnNeverRaises(params: seq<Param>, body: seq<Stmt>)
    requires PlainHints(params, body)
    ensures !InferReturn(params, body).Crash?
  {
    ParamsPlain(params, map[]);
    BodyPlain(body, ParamEnv(params, map[]));
    match LastReturn(body)
    case Some(Return(Some(DictE(items)))) => ItemsTotal(items, LocalEnv(params, body).value, map[], []);
    case _ =>
  }
}
