/**
 The part of Python a tool handler's body uses: values, expressions, and what they evaluate to.

 Integers are unbounded as in Python; a float is modelled as the real number it denotes, so
 rounding, overflow, infinities and NaN are outside the model.  Evaluation yields `None` when
 an exception is raised.
 */
module Python {
  import opened Wrappers
  import opened JsonSchema

  datatype Value =
    | PNone
    | PBool(b: bool)
    | PInt(i: int)
    | PFloat(f: real)
    | PStr(s: string)
    | PList(xs: seq<Value>)
    | PDict(entries: map<string, Value>)
    | PTuple(xs: seq<Value>)
    | PSet(xs: seq<Value>)
    | PAlien                              // any other object: bytes, Ellipsis, ...

  // The value as the JSON validator sees it.
  function ToJson(v: Value): Json {
    match v
    case PNone => Null
    case PBool(b) => Bool(b)
    case PInt(i) => Num(i as real)
    case PFloat(f) => Num(f)
    case PStr(s) => Str(s)
    case PList(xs) => Arr(seq(|xs|, i requires 0 <= i < |xs| => ToJson(xs[i])))
    case PDict(m) => Obj(map k | k in m :: ToJson(m[k]))
    case _ => Alien
  }

  datatype BoolOperator = And | Or
  datatype UnaryOperator = Not | Minus | Plus | Invert
  datatype BinaryOperator =
    Add | Sub | Mult | Div | FloorDiv | Mod | Pow | LShift | RShift | BitAnd | BitXor | BitOr | MatMult

  datatype Key = TextKey(text: string) | DynamicKey(key: Expr) | Spread   // "k": ...   e: ...   **e
  datatype Item = Item(key: Key, value: Expr)

  datatype Expr =
    | Const(v: Value)
    | Var(name: string)
    | FString(format: string, parts: seq<Expr>)
    | ListE(elts: seq<Expr>)
    | TupleE(elts: seq<Expr>)
    | SetE(elts: seq<Expr>)
    | DictE(items: seq<Item>)
    | BoolE(bop: BoolOperator, operands: seq<Expr>)
    | CompareE(ops: string, operands: seq<Expr>)
    | UnaryE(uop: UnaryOperator, operand: Expr)
    | BinE(op: BinaryOperator, left: Expr, right: Expr)
    | Call(func: string, args: seq<Expr>)      // of a plain name; a keyword or starred argument is an `OtherE`
    | IfE(test: Expr, body: Expr, orelse: Expr)
    | OtherE(text: string)                      // any other expression, such as d.pop("a")

  type State = map<string, Value>

  // Everything an evaluation takes from outside the modelled fragment.  An expression that may have
  // effects is evaluated as a whole by `act`, which may change any name, and whatever it refers to.
  datatype World = World(
    format: (string, Value) -> Option<string>,              // "..." % v
    render: (string, seq<Value>) -> Option<string>,         // f"..."
    compare: (string, seq<Value>) -> Option<bool>,
    call: (string, seq<Value>) -> Option<Value>,            // the built-ins
    bits: (BinaryOperator, int, int) -> Option<int>,        // shifts and bitwise operators
    power: (Value, Value) -> Option<Value>,
    merge: (map<string, Value>, Option<Value>, Value) -> Option<map<string, Value>>,  // a computed key, or a ** spread
    act: (Expr, State) -> Option<(Value, State)>,
    place: (string, Value, State) -> Option<State>)         // storing to an attribute, an element, an unpacking

  // The built-ins whose calls the compiler knows the type of.
  predicate IsBuiltin(f: string) {
    f in {"int", "float", "str", "bool", "list", "dict", "set", "tuple", "len", "abs", "round", "min", "max", "sum"}
  }

  // Nothing in the expression can have an effect, as long as the built-ins are what they are called.
  predicate Pure(e: Expr)
    decreases e
  {
    match e
    case FString(_, parts) => forall i :: 0 <= i < |parts| ==> Pure(parts[i])
    case ListE(elts) => forall i :: 0 <= i < |elts| ==> Pure(elts[i])
    case TupleE(elts) => forall i :: 0 <= i < |elts| ==> Pure(elts[i])
    case SetE(elts) => forall i :: 0 <= i < |elts| ==> Pure(elts[i])
    case DictE(items) =>
      forall i :: 0 <= i < |items| ==>
        var item := items[i];
        assert item.value < item;
        Pure(item.value) && (item.key.DynamicKey? ==> Pure(item.key.key))
    case BoolE(_, operands) => forall i :: 0 <= i < |operands| ==> Pure(operands[i])
    case CompareE(_, operands) => forall i :: 0 <= i < |operands| ==> Pure(operands[i])
    case UnaryE(_, operand) => Pure(operand)
    case BinE(_, l, r) => Pure(l) && Pure(r)
    case Call(f, args) => IsBuiltin(f) && forall i :: 0 <= i < |args| ==> Pure(args[i])
    case IfE(test, body, orelse) => Pure(test) && Pure(body) && Pure(orelse)
    case OtherE(_) => false
    case _ => true
  }

  // No name that the expression calls is one of the variables.
  predicate Unhidden(e: Expr, vars: set<string>)
    decreases e
  {
    match e
    case FString(_, parts) => forall i :: 0 <= i < |parts| ==> Unhidden(parts[i], vars)
    case ListE(elts) => forall i :: 0 <= i < |elts| ==> Unhidden(elts[i], vars)
    case TupleE(elts) => forall i :: 0 <= i < |elts| ==> Unhidden(elts[i], vars)
    case SetE(elts) => forall i :: 0 <= i < |elts| ==> Unhidden(elts[i], vars)
    case DictE(items) =>
      forall i :: 0 <= i < |items| ==>
        var item := items[i];
        assert item.value < item;
        Unhidden(item.value, vars) && (item.key.DynamicKey? ==> Unhidden(item.key.key, vars))
    case BoolE(_, operands) => forall i :: 0 <= i < |operands| ==> Unhidden(operands[i], vars)
    case CompareE(_, operands) => forall i :: 0 <= i < |operands| ==> Unhidden(operands[i], vars)
    case UnaryE(_, operand) => Unhidden(operand, vars)
    case BinE(_, l, r) => Unhidden(l, vars) && Unhidden(r, vars)
    case Call(f, args) => f !in vars && forall i :: 0 <= i < |args| ==> Unhidden(args[i], vars)
    case IfE(test, body, orelse) => Unhidden(test, vars) && Unhidden(body, vars) && Unhidden(orelse, vars)
    case _ => true
  }

  lemma {:induction false} FewerHide(e: Expr, vars: set<string>, fewer: set<string>)
    requires Unhidden(e, vars) && fewer <= vars
    ensures Unhidden(e, fewer)
    decreases e
  {
    match e
    case FString(_, parts) => AllFewerHide(parts, vars, fewer);
    case ListE(elts) => AllFewerHide(elts, vars, fewer);
    case TupleE(elts) => AllFewerHide(elts, vars, fewer);
    case SetE(elts) => AllFewerHide(elts, vars, fewer);
    case DictE(items) =>
      forall i | 0 <= i < |items|
        ensures Unhidden(items[i].value, fewer) && (items[i].key.DynamicKey? ==> Unhidden(items[i].key.key, fewer))
      {
        var item := items[i];
        assert item.value < item;
        FewerHide(item.value, vars, fewer);
        if item.key.DynamicKey? { FewerHide(item.key.key, vars, fewer); }
      }
    case BoolE(_, operands) => AllFewerHide(operands, vars, fewer);
    case CompareE(_, operands) => AllFewerHide(operands, vars, fewer);
    case UnaryE(_, operand) => FewerHide(operand, vars, fewer);
    case BinE(_, l, r) => FewerHide(l, vars, fewer); FewerHide(r, vars, fewer);
    case Call(_, args) => AllFewerHide(args, vars, fewer);
    case IfE(test, body, orelse) =>
      FewerHide(test, vars, fewer);
      FewerHide(body, vars, fewer);
      FewerHide(orelse, vars, fewer);
    case _ =>
  }

  lemma {:induction false} AllFewerHide(es: seq<Expr>, vars: set<string>, fewer: set<string>)
    requires (forall i :: 0 <= i < |es| ==> Unhidden(es[i], vars)) && fewer <= vars
    ensures forall i :: 0 <= i < |es| ==> Unhidden(es[i], fewer)
    decreases es
  {
    forall i | 0 <= i < |es| ensures Unhidden(es[i], fewer) { FewerHide(es[i], vars, fewer); }
  }

  // The expression has no effect, and calls built-ins only.
  predicate Harmless(e: Expr, vars: set<string>) {
    Pure(e) && Unhidden(e, vars)
  }

  function Truthy(v: Value): bool {
    match v
    case PNone => false
    case PBool(b) => b
    case PInt(i) => i != 0
    case PFloat(f) => f != 0.0
    case PStr(s) => s != ""
    case PList(xs) => xs != []
    case PDict(m) => m != map[]
    case PTuple(xs) => xs != []
    case PSet(xs) => xs != []
    case PAlien => true
  }

  // A boolean is an integer to every arithmetic operator.
  function AsInt(v: Value): Option<int> {
    match v
    case PInt(i) => Some(i)
    case PBool(b) => Some(if b then 1 else 0)
    case _ => None
  }

  function AsReal(v: Value): Option<real> {
    match v
    case PFloat(f) => Some(f)
    case _ => var i :- AsInt(v); Some(i as real)
  }

  // Python's floor division; Dafny's `/` rounds so that the remainder is not negative.
  function IntFloorDiv(a: int, b: int): int
    requires b != 0
  {
    if b > 0 then a / b else (-a) / (-b)
  }

  // The remainder that goes with it has the sign of the divisor.
  lemma {:induction false} FloorDivision(a: int, b: int)
    requires b != 0
    ensures var r := a - b * IntFloorDiv(a, b); if b > 0 then 0 <= r < b else b < r <= 0
  {
  }

  function IntArith(op: BinaryOperator, a: int, b: int, w: World): Option<Value> {
    match op
    case Add => Some(PInt(a + b))
    case Sub => Some(PInt(a - b))
    case Mult => Some(PInt(a * b))
    case Div => if b == 0 then None else Some(PFloat(a as real / b as real))
    case FloorDiv => if b == 0 then None else Some(PInt(IntFloorDiv(a, b)))
    case Mod => if b == 0 then None else Some(PInt(a - b * IntFloorDiv(a, b)))
    case Pow => w.power(PInt(a), PInt(b))
    case MatMult => None
    case _ => var r :- w.bits(op, a, b); Some(PInt(r))
  }

  function RealFloorDiv(a: real, b: real): real
    requires b != 0.0
  {
    (a / b).Floor as real
  }

  function RealMod(a: real, b: real): real
    requires b != 0.0
  {
    a - b * RealFloorDiv(a, b)
  }

  function RealArith(op: BinaryOperator, a: real, b: real, w: World): Option<Value> {
    match op
    case Add => Some(PFloat(a + b))
    case Sub => Some(PFloat(a - b))
    case Mult => Some(PFloat(a * b))
    case Div => if b == 0.0 then None else Some(PFloat(a / b))
    case FloorDiv => if b == 0.0 then None else Some(PFloat(RealFloorDiv(a, b)))
    case Mod => if b == 0.0 then None else Some(PFloat(RealMod(a, b)))
    case Pow => w.power(PFloat(a), PFloat(b))
    case _ => None
  }

  function Repeat<T>(xs: seq<T>, n: int): seq<T>
    decreases n
  {
    if n <= 0 then [] else xs + Repeat(xs, n - 1)
  }

  function Binary(op: BinaryOperator, a: Value, b: Value, w: World): Option<Value> {
    if AsInt(a).Some? && AsInt(b).Some? then
      // `|`, `&` and `^` of two booleans are booleans
      if a.PBool? && b.PBool? && (op.BitAnd? || op.BitOr? || op.BitXor?) then
        Some(PBool(match op case BitAnd => a.b && b.b case BitOr => a.b || b.b case _ => a.b != b.b))
      else IntArith(op, AsInt(a).value, AsInt(b).value, w)
    else if AsReal(a).Some? && AsReal(b).Some? then RealArith(op, AsReal(a).value, AsReal(b).value, w)
    else if a.PStr? && op.Mod? then var s :- w.format(a.s, b); Some(PStr(s))
    else if op.Add? then
      if a.PStr? && b.PStr? then Some(PStr(a.s + b.s))
      else if a.PList? && b.PList? then Some(PList(a.xs + b.xs))
      else if a.PTuple? && b.PTuple? then Some(PTuple(a.xs + b.xs))
      else None
    else if op.Mult? && AsInt(b).Some? then Times(a, AsInt(b).value)
    else if op.Mult? && AsInt(a).Some? then Times(b, AsInt(a).value)
    else if op.BitOr? && a.PDict? && b.PDict? then Some(PDict(a.entries + b.entries))
    else None
  }

  function Times(a: Value, n: int): Option<Value> {
    match a
    case PStr(s) => Some(PStr(Repeat(s, n)))
    case PList(xs) => Some(PList(Repeat(xs, n)))
    case PTuple(xs) => Some(PTuple(Repeat(xs, n)))
    case _ => None
  }

  function Unary(op: UnaryOperator, v: Value): Option<Value> {
    if op.Not? then Some(PBool(!Truthy(v)))
    else if AsInt(v).Some? then
      var i := AsInt(v).value;
      Some(PInt(if op.Minus? then -i else if op.Plus? then i else -i - 1))
    else if v.PFloat? && !op.Invert? then Some(PFloat(if op.Minus? then -v.f else v.f))
    else None
  }

  // The value of an expression, and the state it leaves.
  function Evaluate(e: Expr, st: State, w: World): Option<(Value, State)> {
    if Harmless(e, st.Keys) then var v :- Eval(e, st, w); Some((v, st)) else w.act(e, st)
  }

  // The value of a pure expression.
  function Eval(e: Expr, st: State, w: World): Option<Value>
    decreases e, 0
  {
    match e
    case Const(v) => Some(v)
    case Var(x) => if x in st then Some(st[x]) else None
    case FString(format, parts) => var vs :- EvalAll(parts, st, w); var s :- w.render(format, vs); Some(PStr(s))
    case ListE(elts) => var vs :- EvalAll(elts, st, w); Some(PList(vs))
    case TupleE(elts) => var vs :- EvalAll(elts, st, w); Some(PTuple(vs))
    case SetE(elts) => var vs :- EvalAll(elts, st, w); Some(PSet(vs))
    case DictE(items) => var m :- EvalItems(items, st, w, map[]); Some(PDict(m))
    case BoolE(bop, operands) => EvalBool(bop, operands, st, w)
    case CompareE(ops, operands) => var vs :- EvalAll(operands, st, w); var b :- w.compare(ops, vs); Some(PBool(b))
    case UnaryE(op, operand) => var v :- Eval(operand, st, w); Unary(op, v)
    case BinE(op, l, r) => var a :- Eval(l, st, w); var b :- Eval(r, st, w); Binary(op, a, b, w)
    case Call(f, args) => var vs :- EvalAll(args, st, w); w.call(f, vs)
    case IfE(test, body, orelse) =>
      var t :- Eval(test, st, w);
      if Truthy(t) then Eval(body, st, w) else Eval(orelse, st, w)
    case OtherE(_) => None
  }

  function EvalAll(es: seq<Expr>, st: State, w: World): (r: Option<seq<Value>>)
    ensures r.Some? ==> |r.value| == |es|
    ensures r.Some? ==> forall i :: 0 <= i < |es| ==> Eval(es[i], st, w) == Some(r.value[i])
    decreases es, 0
  {
    if es == [] then Some([])
    else
      var v :- Eval(es[0], st, w);
      var rest :- EvalAll(es[1..], st, w);
      Some([v] + rest)
  }

  // `and` and `or` yield one of their operands, not a boolean.
  function EvalBool(bop: BoolOperator, es: seq<Expr>, st: State, w: World): Option<Value>
    decreases es, 0
  {
    if es == [] then None
    else
      var v :- Eval(es[0], st, w);
      if |es| == 1 || Truthy(v) == bop.Or? then Some(v) else EvalBool(bop, es[1..], st, w)
  }

  function EvalItems(items: seq<Item>, st: State, w: World, acc: map<string, Value>): Option<map<string, Value>>
    decreases items, 0
  {
    if items == [] then Some(acc)
    else
      var first := items[0];
      assert first.value < first;
      var next :- (match first.key
                   case TextKey(k) => var v :- Eval(first.value, st, w); Some(acc[k := v])
                   case DynamicKey(e) =>
                     var k :- Eval(e, st, w);
                     var v :- Eval(first.value, st, w);
                     w.merge(acc, Some(k), v)
                   case Spread => var v :- Eval(first.value, st, w); w.merge(acc, None, v));
      EvalItems(items[1..], st, w, next)
  }
}
