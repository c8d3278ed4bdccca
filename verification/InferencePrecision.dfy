/**
 How much return inference says.  Soundness alone would hold of an inference that types nothing, so
 here it is shown which expressions are left untyped, that the types given to the others are as
 narrow as they can be, and that plain handlers are typed throughout.
 */
module InferencePrecision {
  import opened Wrappers
  import opened JsonSchema
  import Annotations
  import ShapeTheorems
  import opened Python
  import opened Inference
  import opened InferenceTheorems
  import opened InferenceLimits

  // ------------------------------------------------------------------ what is left untyped

  predicate SaysNumber(s: Schema) {
    s == Type(IntegerT) || s == Type(NumberT)
  }

  predicate SaysString(s: Schema) {
    s == Type(StringT) || s == Base64
  }

  // No string, no list of types, and not two numbers.
  predicate NoRule(l: Schema, r: Schema) {
    !SaysString(l) && !SaysString(r) && !l.Types? && !r.Types? && !(SaysNumber(l) && SaysNumber(r))
  }

  // Unusual constants, names without a recorded type and signs before them, operators on operands that
  // go with no rule, calls of unknown names, branches that differ or are untyped, and expressions the
  // inference does not look at.
  predicate Untyped(e: Expr, env: Env) {
    match e
    case Const(v) => !v.PNone? && !v.PBool? && !v.PInt? && !v.PFloat? && !v.PStr?
    case Var(x) => x in env ==> env[x].Anything?
    case UnaryE(op, operand) => !op.Not? && Untyped(operand, env)
    case BinE(_, l, r) =>
      && Infer(l, env).Some? && Infer(r, env).Some?
      && NoRule(Infer(l, env).value, Infer(r, env).value)
    case Call(f, _) => !IsBuiltin(f)
    case IfE(_, body, orelse) =>
      && Infer(body, env).Some? && Infer(orelse, env).Some?
      && (Untyped(body, env) || !SameToPython(Infer(body, env).value, Infer(orelse, env).value))
    case OtherE(_) => true
    case _ => false
  }

  // Those, and only those, are left untyped.
  lemma {:induction false} UntypedIff(e: Expr, env: Env)
    ensures Infer(e, env) == Some(Anything) <==> Untyped(e, env)
  {
    match e
    case UnaryE(op, operand) => UntypedIff(operand, env);
    case BinE(op, l, r) =>
      if Infer(l, env).Some? && Infer(r, env).Some? { NoRuleIff(op, Infer(l, env).value, Infer(r, env).value); }
    case IfE(_, body, orelse) => UntypedIff(body, env);
    case Call(f, _) => KnownCalls(f);
    case _ =>
  }

  lemma NoRuleIff(op: BinaryOperator, l: Schema, r: Schema)
    ensures InferBinary(op, l, r) == Some(Anything) <==> NoRule(l, r)
  {
  }

  // A list is typed without its elements exactly when it is empty or the first one is untyped, and a
  // dictionary literal without its fields exactly when a key is no text.
  lemma {:induction false} BareDisplayIff(e: Expr, env: Env)
    requires Infer(e, env).Some?
    ensures e.ListE? ==> (Infer(e, env) == Some(Type(ArrayT)) <==> e.elts == [] || Untyped(e.elts[0], env))
    ensures e.DictE? ==> (Infer(e, env) == Some(Type(ObjectT)) <==> !AllText(e.items))
  {
    match e
    case ListE(elts) => if elts != [] { UntypedIff(elts[0], env); }
    case DictE(items) => DynamicIff(items, env, map[], []);
    case _ =>
  }

  lemma KnownCalls(f: string)
    ensures CallSchema(f).Anything? <==> !IsBuiltin(f)
  {
  }

  // ------------------------------------------------------------------ what is recorded

  // The statement gives the variable a new type: an assignment if its value is typed, a declaration if
  // its hint says something.
  predicate Records(s: Stmt, x: string, env: Env) {
    match s
    case Assign(targets, value) => Assigned(targets, x) && !Untyped(value, env)
    case AnnAssign(target, ann, _) => target == Id(x) && !ShapeTheorems.SaysAnything(ann)
    case _ => false
  }

  function RecordedType(s: Stmt, env: Env): Option<Schema> {
    match s
    case Assign(_, value) => Infer(value, env)
    case AnnAssign(_, ann, _) => Some(Annotations.Compile(ann))
    case _ => None
  }

  // Just those variables get that type, and all others keep theirs.
  lemma {:induction false} StatementRecords(s: Stmt, env: Env, x: string)
    requires StmtEnv(s, env).Some?
    ensures var next := StmtEnv(s, env).value;
            if Records(s, x, env) then x in next && Some(next[x]) == RecordedType(s, env)
            else (x in next <==> x in env) && (x in env ==> next[x] == env[x])
  {
    match s
    case Assign(targets, value) =>
      UntypedIff(value, env);
      BindAt(targets, env, Infer(value, env).value, x);
    case AnnAssign(target, ann, _) => ShapeTheorems.AnythingIff(ann);
    case _ =>
  }

  // Over a body, a variable has the type that the last statement to record one gave it.
  lemma {:induction false} LastRecorded(body: seq<Stmt>, env: Env, i: nat, x: string)
    requires i < |body| && BodyEnv(body, env).Some?
    requires BodyEnv(body[..i], env).Some? && Records(body[i], x, BodyEnv(body[..i], env).value)
    requires forall j :: i < j < |body| ==>
               BodyEnv(body[..j], env).Some? && !Records(body[j], x, BodyEnv(body[..j], env).value)
    ensures var after := BodyEnv(body, env).value;
            x in after && Some(after[x]) == RecordedType(body[i], BodyEnv(body[..i], env).value)
    decreases |body|
  {
    var last := |body| - 1;
    BodySplit(body, env);
    if i < last {
      forall j | 0 <= j <= last ensures body[..last][..j] == body[..j] { }
      LastRecorded(body[..last], env, i, x);
    }
    StatementRecords(body[last], BodyEnv(body[..last], env).value, x);
  }

  lemma {:induction false} BodySplit(body: seq<Stmt>, env: Env)
    requires body != [] && BodyEnv(body, env).Some?
    ensures var before := BodyEnv(body[..|body| - 1], env);
            before.Some? && BodyEnv(body, env) == StmtEnv(body[|body| - 1], before.value)
    decreases body
  {
    if |body| > 1 {
      BodySplit(body[1..], StmtEnv(body[0], env).value);
      assert body[..|body| - 1][1..] == body[1..][..|body| - 2];
    } else {
      assert body[..0] == [] && body[1..] == [];
    }
  }

  // Of the parameters, those whose hint says something have its type.
  lemma {:induction false} ParamRecorded(params: seq<Param>, env: Env, i: nat)
    requires i < |params| && forall j :: i < j < |params| ==> params[j].name != params[i].name
    requires params[i].ann.Some? && !ShapeTheorems.SaysAnything(params[i].ann.value)
    ensures var p, after := params[i], ParamEnv(params, env);
            p.name in after && after[p.name] == Annotations.Compile(p.ann.value)
  {
    var p := params[0];
    var next := if p.ann.Some? && !Annotations.Compile(p.ann.value).Anything?
                then env[p.name := Annotations.Compile(p.ann.value)] else env;
    if i == 0 {
      ShapeTheorems.AnythingIff(p.ann.value);
      ParamKept(params[1..], next, p.name);
    } else {
      ParamRecorded(params[1..], next, i - 1);
    }
  }

  lemma {:induction false} ParamKept(params: seq<Param>, env: Env, x: string)
    requires forall j :: 0 <= j < |params| ==> params[j].name != x
    ensures var after := ParamEnv(params, env);
            (x in after <==> x in env) && (x in env ==> after[x] == env[x])
  {
    if params != [] {
      var p := params[0];
      var next := if p.ann.Some? && !Annotations.Compile(p.ann.value).Anything?
                  then env[p.name := Annotations.Compile(p.ann.value)] else env;
      ParamKept(params[1..], next, x);
    }
  }

  // ------------------------------------------------------------------ tightness

  // A value with that JSON form.
  function FromJson(v: Json): Value {
    match v
    case Null => PNone
    case Bool(b) => PBool(b)
    case Num(n) => if Integral(n) then PInt(n.Floor) else PFloat(n)
    case Str(s) => PStr(s)
    case Arr(elems) => PList(seq(|elems|, i requires 0 <= i < |elems| => FromJson(elems[i])))
    case Obj(fields) => PDict(map k | k in fields :: FromJson(fields[k]))
    case Alien => PAlien
  }

  lemma {:induction false} FromJsonBack(v: Json)
    requires IsJson(v)
    ensures ToJson(FromJson(v)) == v
  {
    match v
    case Arr(elems) =>
      forall i | 0 <= i < |elems| ensures ToJson(FromJson(v)).elems[i] == elems[i] { FromJsonBack(elems[i]); }
    case Obj(fields) =>
      assert ToJson(FromJson(v)).fields.Keys == fields.Keys;
      forall k | k in fields ensures ToJson(FromJson(v)).fields[k] == fields[k] { FromJsonBack(fields[k]); }
    case _ =>
  }

  // Some honest world and some state that has the recorded types make v of the expression.
  ghost predicate Reaches(e: Expr, env: Env, v: Json) {
    exists st, w :: HonestBuiltins(w) && EnvFits(env, st) && MakesOf(e, st, w, v)
  }

  ghost predicate MakesOf(e: Expr, st: State, w: World, v: Json) {
    Harmless(e, st.Keys) && Eval(e, st, w).Some? && ToJson(Eval(e, st, w).value) == v
  }

  // A world in which nothing from outside works.
  function Quiet(): World {
    World((_, _) => None, (_, _) => None, (_, _) => None, (_, _) => None, (_, _, _) => None, (_, _) => None,
          (_, _, _) => None, (_, _) => None, (_, _, _) => None)
  }

  // One in which f-strings, comparisons and one built-in yield given results.
  function Yielding(s: string, b: bool, f: string, v: Value): World {
    Quiet().(render := (_, _) => Some(s), compare := (_, _) => Some(b),
             call := (g, _) => if g == f then Some(v) else None)
  }

  predicate SameForm(e: Expr, o: Expr) {
    match e
    case Const(_) => o.Const?
    case FString(_, _) => o.FString?
    case CompareE(_, _) => o.CompareE?
    case BoolE(bop, _) => o.BoolE? && o.bop == bop
    case UnaryE(op, _) => op.Not? && o.UnaryE? && o.uop.Not?
    case BinE(_, _, _) => o.BinE?
    case Call(f, _) => f !in ["set", "tuple"] && o.Call? && o.func == f
    case _ => false
  }

  // The value to take for a JSON value of a given type; a number type takes floats.
  function ValueFor(s: Schema, v: Json): Value {
    if s == Type(NumberT) && v.Num? then PFloat(v.n) else FromJson(v)
  }

  // What changes nothing when a value of the type is added to it.
  function ZeroFor(s: Schema): Value {
    if s == Type(StringT) then PStr("") else if s == Type(NumberT) then PFloat(0.0) else PInt(0)
  }

  // An expression of the form, and the world, that make v.
  function Example(e: Expr, s: Schema, v: Json): (Expr, World) {
    var value := ValueFor(s, v);
    match e
    case Const(_) => (Const(value), Quiet())
    case FString(_, _) => (FString("", []), Yielding(if v.Str? then v.s else "", false, "", PNone))
    case CompareE(_, _) => (CompareE("", []), Yielding("", v == Bool(true), "", PNone))
    case BoolE(bop, _) => (BoolE(bop, [Const(value)]), Quiet())
    case UnaryE(_, _) => (UnaryE(Not, Const(PBool(v != Bool(true)))), Quiet())
    case BinE(_, _, _) =>
      (BinE(Add, Const(ZeroFor(s)), Const(value)), Quiet())
    case Call(f, _) => (Call(f, []), Yielding("", false, f, value))
    case _ => (e, Quiet())
  }

  // Of constants, f-strings, comparisons, `and`, `or`, `not`, operators and known calls: every value
  // that the type of one such expression accepts is made by an expression of the same form and type.
  lemma {:induction false} Tight(e: Expr, env: Env, v: Json)
    requires SameForm(e, e) && Infer(e, env).Some? && !Infer(e, env).value.Anything?
    requires IsJson(v) && Accepts(Infer(e, env).value, v)
    ensures var (o, w) := Example(e, Infer(e, env).value, v);
            && SameForm(e, o) && Infer(o, env) == Infer(e, env) && HonestBuiltins(w) && MakesOf(o, map[], w, v)
  {
    match e
    case Const(_) => ConstTight(e, env, v);
    case BinE(_, _, _) => BinTight(e, env, v);
    case Call(f, _) => CallTight(f, v);
    case FString(_, _) => TextTight(v);
    case _ => TruthTight(e, v);
  }

  lemma {:induction false} ConstTight(e: Expr, env: Env, v: Json)
    requires e.Const? && !Infer(e, env).value.Anything? && IsJson(v) && Accepts(Infer(e, env).value, v)
    ensures var (o, w) := Example(e, Infer(e, env).value, v);
            Infer(o, env) == Infer(e, env) && HonestBuiltins(w) && MakesOf(o, map[], w, v)
  {
    FromJsonBack(v);
  }

  lemma {:induction false} TextTight(v: Json)
    requires v.Str?
    ensures var w := Yielding(v.s, false, "", PNone); HonestBuiltins(w) && MakesOf(FString("", []), map[], w, v)
  {
    assert EvalAll([], map[], Yielding(v.s, false, "", PNone)) == Some([]);
  }

  lemma {:induction false} TruthTight(e: Expr, v: Json)
    requires v.Bool? && (e.CompareE? || e.BoolE? || (e.UnaryE? && e.uop.Not?))
    ensures var (o, w) := Example(e, Type(BooleanT), v); HonestBuiltins(w) && MakesOf(o, map[], w, v)
  {
    match e
    case CompareE(_, _) => assert EvalAll([], map[], Yielding("", v.b, "", PNone)) == Some([]);
    case BoolE(bop, _) => ChoiceTight(bop, v);
    case UnaryE(_, _) => NotTight(v);
    case _ =>
  }

  lemma {:induction false} ChoiceTight(bop: BoolOperator, v: Json)
    requires v.Bool?
    ensures MakesOf(BoolE(bop, [Const(PBool(v.b))]), map[], Quiet(), v)
  {
    var c, none: State := Const(PBool(v.b)), map[];
    ConstantsHarmless(c.v, c.v, none.Keys);
    assert EvalBool(bop, [c], map[], Quiet()) == Eval(c, map[], Quiet());
  }

  lemma {:induction false} NotTight(v: Json)
    requires v.Bool?
    ensures MakesOf(UnaryE(Not, Const(PBool(!v.b))), map[], Quiet(), v)
  {
    var none: State := map[];
    ConstantsHarmless(PBool(!v.b), PBool(!v.b), none.Keys);
  }

  lemma ConstantsHarmless(a: Value, b: Value, vars: set<string>)
    ensures Harmless(BinE(Add, Const(a), Const(b)), vars) && Harmless(UnaryE(Not, Const(a)), vars)
    ensures forall bop :: Harmless(BoolE(bop, [Const(a)]), vars)
  {
    assert Pure(Const(a)) && Pure(Const(b)) && Unhidden(Const(a), vars) && Unhidden(Const(b), vars);
    forall bop ensures Harmless(BoolE(bop, [Const(a)]), vars) {
      assert forall i :: 0 <= i < |[Const(a)]| ==> [Const(a)][i] == Const(a);
    }
  }

  lemma AddZero(v: Value, w: World)
    ensures v.PInt? ==> Binary(Add, PInt(0), v, w) == Some(v)
    ensures v.PFloat? ==> Binary(Add, PFloat(0.0), v, w) == Some(v)
    ensures v.PStr? ==> Binary(Add, PStr(""), v, w) == Some(v)
  {
    if v.PStr? { assert "" + v.s == v.s; }
  }

  lemma {:induction false} BinTight(e: Expr, env: Env, v: Json)
    requires e.BinE? && Infer(e, env).Some? && !Infer(e, env).value.Anything?
    requires IsJson(v) && Accepts(Infer(e, env).value, v)
    ensures var (o, w) := Example(e, Infer(e, env).value, v);
            Infer(o, env) == Infer(e, env) && HonestBuiltins(w) && MakesOf(o, map[], w, v)
  {
    SumTight(Infer(e, env).value, env, v);
  }

  lemma {:induction false} SumTight(s: Schema, env: Env, v: Json)
    requires s == Type(StringT) || s == Type(IntegerT) || s == Type(NumberT)
    requires IsJson(v) && Accepts(s, v)
    ensures var o := BinE(Add, Const(ZeroFor(s)), Const(ValueFor(s, v)));
            Infer(o, env) == Some(s) && MakesOf(o, map[], Quiet(), v)
  {
    var zero, value, w := ZeroFor(s), ValueFor(s, v), Quiet();
    var none: State := map[];
    FromJsonBack(v);
    AddZero(value, w);
    ConstantsHarmless(zero, value, none.Keys);
    assert Eval(Const(zero), map[], w) == Some(zero) && Eval(Const(value), map[], w) == Some(value);
    assert Eval(BinE(Add, Const(zero), Const(value)), map[], w) == Binary(Add, zero, value, w);
    assert Infer(Const(zero), env) == Some(s) && Infer(Const(value), env) == Some(s);
  }

  lemma {:induction false} CallTight(f: string, v: Json)
    requires f !in ["set", "tuple"] && IsBuiltin(f) && IsJson(v) && Accepts(CallSchema(f), v)
    ensures var w := Yielding("", false, f, ValueFor(CallSchema(f), v));
            HonestBuiltins(w) && MakesOf(Call(f, []), map[], w, v)
  {
    FromJsonBack(v);
    var value := ValueFor(CallSchema(f), v);
    var w := Yielding("", false, f, value);
    ResultOfType(f, v);
    YieldingIsHonest(f, value);
    assert EvalAll([], map[], w) == Some([]);
    assert Eval(Call(f, []), map[], w) == w.call(f, []);
  }

  lemma {:induction false} YieldingIsHonest(f: string, v: Value)
    requires BuiltinResult(f, v)
    ensures HonestBuiltins(Yielding("", false, f, v)) && forall vs :: Yielding("", false, f, v).call(f, vs) == Some(v)
  {
  }

  lemma {:induction false} ResultOfType(f: string, v: Json)
    requires f !in ["set", "tuple"] && IsBuiltin(f) && IsJson(v) && Accepts(CallSchema(f), v)
    ensures BuiltinResult(f, ValueFor(CallSchema(f), v))
  {
  }

  // ------------------------------------------------------------------ displays

  // A display of names: of those names, and of those keys with the names of the same spelling.
  function NamesIn(names: seq<string>): seq<Expr> {
    seq(|names|, i requires 0 <= i < |names| => Var(names[i]))
  }

  function FieldsIn(names: seq<string>): seq<Item> {
    seq(|names|, i requires 0 <= i < |names| => Item(TextKey(names[i]), Var(names[i])))
  }

  lemma {:induction false} EvalNames(names: seq<string>, st: State, w: World, vs: seq<Value>)
    requires |vs| == |names| && forall i :: 0 <= i < |names| ==> names[i] in st && st[names[i]] == vs[i]
    ensures EvalAll(NamesIn(names), st, w) == Some(vs)
    decreases names
  {
    if names != [] {
      assert NamesIn(names)[1..] == NamesIn(names[1..]) && NamesIn(names)[0] == Var(names[0]);
      EvalNames(names[1..], st, w, vs[1..]);
      assert vs == [vs[0]] + vs[1..];
    }
  }

  lemma NamesHarmless(names: seq<string>, vars: set<string>)
    ensures Harmless(ListE(NamesIn(names)), vars) && Harmless(DictE(FieldsIn(names)), vars)
  {
  }

  lemma {:induction false} ListTyped(inner: Schema, names: seq<string>, env: Env)
    requires names != [] && (if names[0] in env then env[names[0]] == inner else inner.Anything?)
    ensures Infer(ListE(NamesIn(names)), env) == Some(if inner.Anything? then Type(ArrayT) else Items(inner, false))
  {
    assert NamesIn(names)[0] == Var(names[0]);
  }

  // A value for each name.
  lemma {:induction false} NameValues(names: seq<string>, vs: seq<Value>) returns (st: State)
    requires Distinct(names) && |vs| == |names|
    ensures forall x :: x in st <==> x in names
    ensures forall i :: 0 <= i < |names| ==> names[i] in st && st[names[i]] == vs[i]
  {
    st := map[];
    for n := 0 to |names|
      invariant forall x :: x in st <==> x in names[..n]
      invariant forall i :: 0 <= i < n ==> names[i] in st && st[names[i]] == vs[i]
    {
      st := st[names[n] := vs[n]];
    }
  }

  lemma {:induction false} ListMade(names: seq<string>, st: State, v: Json)
    requires IsJson(v) && v.Arr? && |names| == |v.elems|
    requires forall i :: 0 <= i < |names| ==> names[i] in st && st[names[i]] == FromJson(v.elems[i])
    ensures MakesOf(ListE(NamesIn(names)), st, Quiet(), v)
  {
    NamesHarmless(names, st.Keys);
    EvalNames(names, st, Quiet(), FromJson(v).xs);
    FromJsonBack(v);
  }

  // Any array but the empty one is made by a display of names that have, or do not have, the type of
  // its elements.
  lemma {:induction false} ListTight(inner: Schema, v: Json, names: seq<string>)
    requires IsJson(v) && Accepts(Items(inner, false), v) && v.elems != []
    requires Distinct(names) && |names| == |v.elems|
    ensures var env: Env := if inner.Anything? then map[] else map x | x in names :: inner;
            && Infer(ListE(NamesIn(names)), env) == Some(if inner.Anything? then Type(ArrayT) else Items(inner, false))
            && Reaches(ListE(NamesIn(names)), env, v)
  {
    var env: Env := if inner.Anything? then map[] else map x | x in names :: inner;
    var st := NameValues(names, FromJson(v).xs);
    assert names[0] in names;
    ListTyped(inner, names, env);
    ListMade(names, st, v);
    forall x | x in env && x in st ensures Fits(env[x], st[x]) {
      var i :| 0 <= i < |names| && names[i] == x;
      FromJsonBack(v.elems[i]);
    }
    assert HonestBuiltins(Quiet());
  }

  lemma {:induction false} EvalFields(names: seq<string>, st: State, w: World, acc: map<string, Value>)
    requires forall i :: 0 <= i < |names| ==> names[i] in st
    ensures var m := EvalItems(FieldsIn(names), st, w, acc);
            && m.Some?
            && (forall x :: x in m.value <==> x in acc || x in names)
            && (forall x :: x in m.value ==>
                  if x in names then x in st && m.value[x] == st[x] else m.value[x] == acc[x])
    decreases names
  {
    if names != [] {
      assert FieldsIn(names)[1..] == FieldsIn(names[1..]) && FieldsIn(names)[0].value == Var(names[0]);
      EvalFields(names[1..], st, w, acc[names[0] := st[names[0]]]);
    }
  }

  lemma {:induction false} InferFields(names: seq<string>, env: Env, props: map<string, Schema>, required: seq<string>)
    requires forall i :: 0 <= i < |names| ==> names[i] in env && !env[names[i]].Anything?
    ensures var fields := InferItems(FieldsIn(names), env, props, required);
            && fields.Literal? && fields.required == required + names
            && (forall x :: x in fields.props <==> x in props || x in names)
            && (forall x :: x in fields.props ==>
                  if x in names then x in env && fields.props[x] == env[x] else fields.props[x] == props[x])
    decreases names
  {
    if names == [] {
      assert required + names == required;
    } else {
      var x := names[0];
      assert FieldsIn(names)[1..] == FieldsIn(names[1..]) && FieldsIn(names)[0].value == Var(x);
      InferFields(names[1..], env, props[x := env[x]], required + [x]);
      Reassociate(required, [x], names[1..]);
    }
  }

  lemma {:induction false} DictMade(names: seq<string>, st: State, v: Json)
    requires IsJson(v) && v.Obj? && st == FromJson(v).entries && forall x :: x in names <==> x in st
    ensures MakesOf(DictE(FieldsIn(names)), st, Quiet(), v)
  {
    NamesHarmless(names, st.Keys);
    EvalFields(names, st, Quiet(), map[]);
    assert EvalItems(FieldsIn(names), st, Quiet(), map[]).value == st;
    FromJsonBack(v);
  }

  lemma {:induction false} DictTyped(props: map<string, Schema>, names: seq<string>)
    requires (forall x :: x in names <==> x in props) && forall x :: x in props ==> !props[x].Anything?
    ensures Infer(DictE(FieldsIn(names)), props) == Some(Record(props, names, true))
  {
    InferFields(names, props, map[], []);
    assert InferItems(FieldsIn(names), props, map[], []).props == props && [] + names == names;
  }

  lemma {:induction false} FieldsOf(props: map<string, Schema>, names: seq<string>, v: Json)
    requires IsJson(v) && Accepts(Record(props, names, true), v) && forall x :: x in names <==> x in props
    ensures v.Obj? && (forall x :: x in v.fields <==> x in names)
    ensures EnvFits(props, FromJson(v).entries)
  {
    forall x | x in props && x in v.fields ensures Fits(props[x], FromJson(v).entries[x]) {
      FromJsonBack(v.fields[x]);
    }
  }

  // Any object that a closed record with all fields required accepts is made by a literal of names
  // with the types of its fields.
  lemma {:induction false} DictTight(props: map<string, Schema>, names: seq<string>, v: Json)
    requires IsJson(v) && Accepts(Record(props, names, true), v)
    requires (forall x :: x in names <==> x in props) && forall x :: x in props ==> !props[x].Anything?
    ensures Infer(DictE(FieldsIn(names)), props) == Some(Record(props, names, true))
    ensures Reaches(DictE(FieldsIn(names)), props, v)
  {
    DictTyped(props, names);
    FieldsOf(props, names, v);
    DictMade(names, FromJson(v).entries, v);
    assert HonestBuiltins(Quiet());
  }

  // ------------------------------------------------------------------ plain handlers

  // Constants, names, f-strings, `not`, comparisons, conditional expressions, signed numbers and the
  // arithmetic operators.
  predicate Fragment(e: Expr, env: Env) {
    match e
    case Const(_) => true
    case Var(_) => true
    case FString(_, parts) => forall i :: 0 <= i < |parts| ==> Fragment(parts[i], env)
    case CompareE(_, operands) => forall i :: 0 <= i < |operands| ==> Fragment(operands[i], env)
    case UnaryE(op, operand) =>
      && Fragment(operand, env)
      && (op.Not? || Infer(operand, env) == Some(Type(IntegerT)) || Infer(operand, env) == Some(Type(NumberT)))
    case BinE(op, l, r) =>
      (op.Add? || op.Sub? || op.Mult? || op.Div? || op.FloorDiv? || op.Mod?) && Fragment(l, env) && Fragment(r, env)
    case IfE(test, body, orelse) => Fragment(test, env) && Fragment(body, env) && Fragment(orelse, env)
    case _ => false
  }

  ghost predicate NoListedBooleans(env: Env) {
    forall x :: x in env ==> !ListsBoolean(env[x])
  }

  lemma {:induction false} FragmentHarmless(e: Expr, env: Env, vars: set<string>)
    requires Fragment(e, env)
    ensures Harmless(e, vars)
  {
    match e
    case FString(_, es) =>
      forall i | 0 <= i < |es| ensures Harmless(es[i], vars) { FragmentHarmless(es[i], env, vars); }
    case CompareE(_, es) =>
      forall i | 0 <= i < |es| ensures Harmless(es[i], vars) { FragmentHarmless(es[i], env, vars); }
    case UnaryE(_, operand) => FragmentHarmless(operand, env, vars);
    case BinE(_, l, r) => FragmentHarmless(l, env, vars); FragmentHarmless(r, env, vars);
    case IfE(test, body, orelse) =>
      FragmentHarmless(test, env, vars);
      FragmentHarmless(body, env, vars);
      FragmentHarmless(orelse, env, vars);
    case _ =>
  }

  lemma {:induction false} FragmentListsNoBoolean(e: Expr, env: Env)
    requires Fragment(e, env) && NoListedBooleans(env) && Infer(e, env).Some?
    ensures !ListsBoolean(Infer(e, env).value)
  {
    match e
    case UnaryE(op, operand) => if !op.Not? { FragmentListsNoBoolean(operand, env); }
    case IfE(_, body, _) => FragmentListsNoBoolean(body, env);
    case _ =>
  }

  lemma {:induction false} FragmentSupported(e: Expr, env: Env)
    requires Fragment(e, env) && NoListedBooleans(env)
    ensures Supported(e, env)
  {
    match e
    case UnaryE(op, operand) => FragmentSupported(operand, env);
    case BinE(_, l, r) => FragmentSupported(l, env); FragmentSupported(r, env);
    case IfE(_, body, orelse) =>
      FragmentSupported(body, env);
      FragmentSupported(orelse, env);
      if Infer(body, env).Some? && Infer(orelse, env).Some? {
        FragmentListsNoBoolean(body, env);
        FragmentListsNoBoolean(orelse, env);
        SameOnlyIfEqual(Infer(body, env).value, Infer(orelse, env).value);
      }
    case _ =>
  }

  // Assignments to names and one `return {...}`, all values in the fragment and typed.
  predicate PlainBody(body: seq<Stmt>, env: Env, vars: set<string>) {
    if |body| == 0 then false
    else
      match body[0]
      case Assign(targets, value) =>
        && Fragment(value, env) && !Untyped(value, env)
        && (forall i :: 0 <= i < |targets| ==> targets[i].Id? && targets[i].name in vars)
        && StmtEnv(body[0], env).Some?
        && PlainBody(body[1..], StmtEnv(body[0], env).value, vars)
      case Return(Some(DictE(items))) =>
        && |body| == 1 && AllText(items)
        && (forall i :: 0 <= i < |items| ==> Fragment(items[i].value, env) && !Untyped(items[i].value, env))
      case _ => false
  }

  lemma {:induction false} BindListsNoBoolean(targets: seq<Target>, env: Env, s: Schema)
    requires NoListedBooleans(env) && !ListsBoolean(s)
    ensures NoListedBooleans(Bind(targets, env, s))
  {
    if targets != [] { BindListsNoBoolean(targets[1..], if targets[0].Id? then env[targets[0].name := s] else env, s); }
  }

  lemma {:induction false} PlainItemsSupported(items: seq<Item>, env: Env, vars: set<string>)
    requires NoListedBooleans(env) && AllText(items)
    requires forall i :: 0 <= i < |items| ==> Fragment(items[i].value, env) && !Untyped(items[i].value, env)
    ensures SupportedItems(items, env) && Harmless(DictE(items), vars)
  {
    forall i | 0 <= i < |items| ensures Harmless(items[i].value, vars) { FragmentHarmless(items[i].value, env, vars); }
    if items != [] {
      FragmentSupported(items[0].value, env);
      UntypedIff(items[0].value, env);
      PlainItemsSupported(items[1..], env, vars);
    }
  }

  // Plain handlers are supported: sound throughout, with no value left untyped.
  lemma {:induction false} PlainBodySupported(body: seq<Stmt>, env: Env, vars: set<string>)
    requires PlainBody(body, env, vars) && NoListedBooleans(env)
    ensures SupportedBody(body, env, vars)
  {
    match body[0]
    case Assign(targets, value) =>
      FragmentHarmless(value, env, vars);
      FragmentSupported(value, env);
      FragmentListsNoBoolean(value, env);
      UntypedIff(value, env);
      BindListsNoBoolean(targets, env, Infer(value, env).value);
      PlainBodySupported(body[1..], StmtEnv(body[0], env).value, vars);
    case Return(Some(DictE(items))) => PlainItemsSupported(items, env, vars);
  }

  lemma {:induction false} ParamsListNoBoolean(params: seq<Param>, env: Env)
    requires NoListedBooleans(env)
    requires forall p :: p in params && p.ann.Some? ==> !ListsBoolean(Annotations.Compile(p.ann.value))
    ensures NoListedBooleans(ParamEnv(params, env))
  {
    if params != [] {
      var p := params[0];
      assert p in params && forall q :: q in params[1..] ==> q in params;
      var next := if p.ann.Some? && !Annotations.Compile(p.ann.value).Anything?
                  then env[p.name := Annotations.Compile(p.ann.value)] else env;
      ParamsListNoBoolean(params[1..], next);
    }
  }

  // So every conforming call of a plain handler, under hints that list no boolean, returns a value the
  // inferred schema accepts.
  lemma {:induction false} PlainReturnSound(params: seq<Param>, body: seq<Stmt>, st: State, w: World, vars: set<string>)
    requires PlainBody(body, ParamEnv(params, map[]), vars) && HonestBuiltins(w)
    requires forall p :: p in params && p.ann.Some? ==> !ListsBoolean(Annotations.Compile(p.ann.value))
    requires Conforming(params, st) && st.Keys <= vars && Run(body, st, w).Some?
    requires InferReturn(params, body).Literal?
    ensures var fields := InferReturn(params, body);
            Fits(Record(fields.props, fields.required, true), Run(body, st, w).value)
  {
    ParamsListNoBoolean(params, map[]);
    PlainBodySupported(body, ParamEnv(params, map[]), vars);
    SupportedReturnSound(params, body, st, w, vars);
  }
}
