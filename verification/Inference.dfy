/**
 libs/toollab/codegen.py, second half: a return schema inferred from the body of a handler.

 `Infer` is an abstract interpreter over the expressions of module Python; `None` stands for the
 TypeError Python raises when a list-valued "type" is put in a set (line 295).
 */
module Inference {
  import opened Wrappers
  import opened JsonSchema
  import Annotations
  import opened Python

  type Env = map<string, Schema>

  function ConstSchema(v: Value): Schema {
    match v
    case PBool(_) => Type(BooleanT)
    case PInt(_) => Type(IntegerT)
    case PFloat(_) => Type(NumberT)
    case PStr(_) => Type(StringT)
    case PNone => Type(NullT)
    case _ => Anything
  }

  // The result type the compiler assumes for a call to a built-in, by name alone.
  function CallSchema(func: string): Schema {
    if func in ["int", "len"] then Type(IntegerT)
    else if func in ["float", "abs", "round", "min", "max", "sum"] then Type(NumberT)
    else if func == "str" then Type(StringT)
    else if func == "bool" then Type(BooleanT)
    else if func in ["list", "set", "tuple"] then Type(ArrayT)
    else if func == "dict" then Type(ObjectT)
    else Anything
  }

  function InferBinary(op: BinaryOperator, l: Schema, r: Schema): Option<Schema> {
    var lt, rt := TypeOf(l), TypeOf(r);
    if lt == One(StringT) || rt == One(StringT) then Some(Type(StringT))
    else if lt == One(IntegerT) && rt == One(IntegerT) && op != Div then Some(Type(IntegerT))
    else if lt.Many? || rt.Many? then None
    else if (lt == One(IntegerT) || lt == One(NumberT)) && (rt == One(IntegerT) || rt == One(NumberT)) then
      Some(Type(NumberT))
    else Some(Anything)
  }

  // `a == b` of two constants, and of two schemas: True equals 1, and False equals 0.
  predicate SameConstant(a: Json, b: Json) {
    || a == b
    || (a.Bool? && b.Num? && b.n == (if a.b then 1.0 else 0.0))
    || (b.Bool? && a.Num? && a.n == (if b.b then 1.0 else 0.0))
  }

  predicate SameToPython(a: Schema, b: Schema)
    decreases a
  {
    match (a, b)
    case (Enum(vs), Enum(us)) => |vs| == |us| && forall i :: 0 <= i < |vs| ==> SameConstant(vs[i], us[i])
    case (Items(x, unique), Items(y, other)) => unique == other && SameToPython(x, y)
    case (Fixed(xs), Fixed(ys)) => |xs| == |ys| && forall i :: 0 <= i < |xs| ==> SameToPython(xs[i], ys[i])
    case (Values(x), Values(y)) => SameToPython(x, y)
    case (Record(ps, required, closed), Record(qs, names, other)) =>
      && required == names && closed == other && ps.Keys == qs.Keys
      && forall k :: k in ps ==> SameToPython(ps[k], qs[k])
    case (AnyOf(xs), AnyOf(ys)) => |xs| == |ys| && forall i :: 0 <= i < |xs| ==> SameToPython(xs[i], ys[i])
    case _ => a == b
  }

  function Infer(e: Expr, env: Env): Option<Schema>
    decreases e, 0
  {
    match e
    case Const(v) => Some(ConstSchema(v))
    case Var(x) => Some(if x in env then env[x] else Anything)
    case FString(_, _) => Some(Type(StringT))
    case ListE(elts) =>
      if elts == [] then Some(Type(ArrayT))
      else var inner :- Infer(elts[0], env); Some(if inner.Anything? then Type(ArrayT) else Items(inner, false))
    case TupleE(_) => Some(Type(ArrayT))
    case SetE(_) => Some(Type(ArrayT))
    case DictE(items) =>
      (match InferItems(items, env, map[], [])
       case Crash => None
       case Dynamic => Some(Type(ObjectT))
       case Literal(props, required) => Some(Record(props, required, true)))
    case BoolE(_, _) => Some(Type(BooleanT))
    case CompareE(_, _) => Some(Type(BooleanT))
    case UnaryE(op, operand) => if op.Not? then Some(Type(BooleanT)) else Infer(operand, env)
    case BinE(op, l, r) => var ls :- Infer(l, env); var rs :- Infer(r, env); InferBinary(op, ls, rs)
    case Call(f, _) => Some(CallSchema(f))
    case IfE(_, body, orelse) =>
      var a :- Infer(body, env);
      var b :- Infer(orelse, env);
      Some(if !a.Anything? && SameToPython(a, b) then a else Anything)
    case OtherE(_) => Some(Anything)
  }

  // What the scan of a dictionary literal finds: an exception, a key it cannot read, or the fields.
  datatype Fields = Crash | Dynamic | Literal(props: map<string, Schema>, required: seq<string>)

  function OrString(s: Schema): Schema {
    if s.Anything? then Type(StringT) else s
  }

  function InferItems(items: seq<Item>, env: Env, props: map<string, Schema>, required: seq<string>): Fields
    decreases items, 0
  {
    if items == [] then Literal(props, required)
    else
      var first := items[0];
      assert first.value < first;
      match first.key
      case TextKey(k) =>
        (match Infer(first.value, env)
         case None => Crash
         case Some(s) => InferItems(items[1..], env, props[k := OrString(s)], required + [k]))
      case _ => Dynamic
  }

  // The scan as the source runs it: a loop filling a dictionary and a list.
  method DictLiteralToSchema(items: seq<Item>, env: Env) returns (fields: Fields)
    ensures fields == InferItems(items, env, map[], [])
  {
    var props: map<string, Schema>, required := map[], [];
    for n := 0 to |items|
      invariant InferItems(items, env, map[], []) == InferItems(items[n..], env, props, required)
    {
      assert items[n..][1..] == items[n + 1..];
      if !items[n].key.TextKey? { return Dynamic; }
      var inferred := Infer(items[n].value, env);
      if inferred.None? { return Crash; }
      props := props[items[n].key.text := OrString(inferred.value)];
      required := required + [items[n].key.text];
    }
    return Literal(props, required);
  }

  // ------------------------------------------------------------------ statements

  // `Place` is any target that is not a plain name: an attribute, an element, an unpacking.
  datatype Target = Id(name: string) | Place(text: string)

  // A straight-line body, one statement to a line.
  datatype Stmt =
    | Assign(targets: seq<Target>, value: Expr)
    | AnnAssign(target: Target, ann: Annotations.Ann, init: Option<Expr>)
    | Do(effect: Expr)
    | Return(result: Option<Expr>)

  datatype Param = Param(name: string, ann: Option<Annotations.Ann>)

  function ParamEnv(params: seq<Param>, env: Env): Env {
    if params == [] then env
    else
      var p := params[0];
      var next := if p.ann.Some? && !Annotations.Compile(p.ann.value).Anything?
                  then env[p.name := Annotations.Compile(p.ann.value)] else env;
      ParamEnv(params[1..], next)
  }

  function Bind<T>(targets: seq<Target>, m: map<string, T>, t: T): map<string, T> {
    if targets == [] then m
    else Bind(targets[1..], if targets[0].Id? then m[targets[0].name := t] else m, t)
  }

  // An assignment whose value cannot be typed leaves the environment as it was.
  function StmtEnv(s: Stmt, env: Env): Option<Env> {
    match s
    case Assign(targets, value) =>
      var inferred :- Infer(value, env);
      Some(if inferred.Anything? then env else Bind(targets, env, inferred))
    case AnnAssign(target, ann, _) =>
      var declared := Annotations.Compile(ann);
      Some(if target.Id? && !declared.Anything? then env[target.name := declared] else env)
    case _ => Some(env)
  }

  function BodyEnv(body: seq<Stmt>, env: Env): Option<Env> {
    if body == [] then Some(env)
    else var next :- StmtEnv(body[0], env); BodyEnv(body[1..], next)
  }

  function LocalEnv(params: seq<Param>, body: seq<Stmt>): Option<Env> {
    BodyEnv(body, ParamEnv(params, map[]))
  }

  // The environment as the source builds it.
  method BuildLocalEnv(params: seq<Param>, body: seq<Stmt>) returns (result: Option<Env>)
    ensures result == LocalEnv(params, body)
  {
    var env: Env := map[];
    for n := 0 to |params|
      invariant ParamEnv(params, map[]) == ParamEnv(params[n..], env)
    {
      assert params[n..][1..] == params[n + 1..];
      if params[n].ann.Some? {
        var schema := Annotations.Compile(params[n].ann.value);
        if !schema.Anything? { env := env[params[n].name := schema]; }
      }
    }
    for n := 0 to |body|
      invariant LocalEnv(params, body) == BodyEnv(body[n..], env)
    {
      assert body[n..][1..] == body[n + 1..];
      match body[n] {
        case Assign(targets, value) =>
          var schema := Infer(value, env);
          if schema.None? { return None; }
          if !schema.value.Anything? {
            ghost var before := env;
            for t := 0 to |targets|
              invariant Bind(targets, before, schema.value) == Bind(targets[t..], env, schema.value)
            {
              assert targets[t..][1..] == targets[t + 1..];
              if targets[t].Id? { env := env[targets[t].name := schema.value]; }
            }
          }
        case AnnAssign(target, ann, _) =>
          if target.Id? {
            var schema := Annotations.Compile(ann);
            if !schema.Anything? { env := env[target.name := schema]; }
          }
        case _ =>
      }
    }
    return Some(env);
  }

  function LastReturn(body: seq<Stmt>): (r: Option<Stmt>)
    ensures r.Some? ==> r.value in body && r.value.Return?
  {
    if body == [] then None
    else if body[|body| - 1].Return? then Some(body[|body| - 1])
    else LastReturn(body[..|body| - 1])
  }

  method FindLastReturn(body: seq<Stmt>) returns (latest: Option<Stmt>)
    ensures latest == LastReturn(body)
  {
    latest := None;
    for n := 0 to |body|
      invariant latest == LastReturn(body[..n])
    {
      assert body[..n + 1][..n] == body[..n];
      if body[n].Return? { latest := Some(body[n]); }
    }
    assert body[..|body|] == body;
  }

  // The outcome of typing the last `return {...}`: `Dynamic` also when there is no such literal.
  function InferReturn(params: seq<Param>, body: seq<Stmt>): Fields {
    match LastReturn(body)
    case Some(Return(Some(DictE(items)))) =>
      (match LocalEnv(params, body)
       case None => Crash
       case Some(env) => InferItems(items, env, map[], []))
    case _ => Dynamic
  }

  method InferDictReturnSchema(params: seq<Param>, body: seq<Stmt>) returns (fields: Fields)
    ensures fields == InferReturn(params, body)
  {
    var last := FindLastReturn(body);
    if last.None? || last.value.result.None? || !last.value.result.value.DictE? { return Dynamic; }
    var env := BuildLocalEnv(params, body);
    if env.None? { return Crash; }
    fields := DictLiteralToSchema(last.value.result.value.items, env.value);
  }

  // ------------------------------------------------------------------ running a body

  // Storing a value in each target, left to right.
  function Store(targets: seq<Target>, st: State, v: Value, w: World): Option<State>
    decreases targets
  {
    if targets == [] then Some(st)
    else
      var next :- (match targets[0] case Id(x) => Some(st[x := v]) case Place(text) => w.place(text, v, st));
      Store(targets[1..], next, v, w)
  }

  // The state after a statement; `None` when it raises.
  function Exec(s: Stmt, st: State, w: World): Option<State> {
    match s
    case Assign(targets, value) =>
      var (v, next) :- Evaluate(value, st, w);
      Store(targets, next, v, w)
    case AnnAssign(target, _, init) =>
      if init.None? then Some(st)
      else
        var (v, next) :- Evaluate(init.value, st, w);
        Store([target], next, v, w)
    case Do(e) =>
      var (_, next) :- Evaluate(e, st, w);
      Some(next)
    case Return(_) => Some(st)
  }

  // The value a call of the handler returns; `None` when it raises.
  function Run(body: seq<Stmt>, st: State, w: World): Option<Value> {
    if body == [] then Some(PNone)
    else if body[0].Return? then
      if body[0].result.None? then Some(PNone)
      else
        var (v, _) :- Evaluate(body[0].result.value, st, w);
        Some(v)
    else
      var next :- Exec(body[0], st, w);
      Run(body[1..], next, w)
  }
}
