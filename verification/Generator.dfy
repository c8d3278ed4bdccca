/**
 libs/toollab/codegen.py `generate_schemas_from_code` for one parsed `def handler`, and the
 signature check of libs/toollab/sandbox.py `compile_handler` that its output must pass.
 */
module Generator {
  import opened Wrappers
  import opened JsonSchema
  import A = Annotations
  import opened Python
  import opened Inference

  // The parts of `ast.FunctionDef` that are looked at.
  datatype Handler = Handler(
    posonly: seq<Param>, args: seq<Param>, defaults: seq<Expr>,
    vararg: Option<string>,
    kwonly: seq<Param>, kwDefaults: seq<Option<Expr>>,
    kwarg: Option<string>,
    hint: Option<A.Ann>, body: seq<Stmt>)

  function Positional(h: Handler): seq<Param> {
    h.posonly + h.args
  }

  function Params(h: Handler): seq<Param> {
    h.posonly + h.args + h.kwonly
  }

  function OptionNames(o: Option<string>): seq<string> {
    if o.Some? then [o.value] else []
  }

  function ParamNames(params: seq<Param>): seq<string> {
    seq(|params|, i requires 0 <= i < |params| => params[i].name)
  }

  // What Python's parser guarantees of any function it accepts.
  predicate Parsed(h: Handler) {
    && |h.defaults| <= |Positional(h)|
    && |h.kwDefaults| == |h.kwonly|
    && Distinct(ParamNames(Params(h)) + OptionNames(h.vararg) + OptionNames(h.kwarg))
  }

  // ------------------------------------------------------------------ the generator

  datatype Outcome =
    | Schemas(parameters: Schema, output: Schema)
    | Failed(kind: string)
    | Raised                                   // an exception the source does not catch

  datatype Slot = Slot(param: Param, optional: bool)

  // Defaults belong to the last positional parameters.
  function PositionalSlots(h: Handler): seq<Slot>
    requires Parsed(h)
  {
    var ps := Positional(h);
    seq(|ps|, i requires 0 <= i < |ps| => Slot(ps[i], i >= |ps| - |h.defaults|))
  }

  function KeywordSlots(h: Handler): seq<Slot>
    requires Parsed(h)
  {
    seq(|h.kwonly|, i requires 0 <= i < |h.kwonly| => Slot(h.kwonly[i], h.kwDefaults[i].Some?))
  }

  datatype Collected = MissingHint | Collected(props: map<string, Schema>, required: seq<string>)

  function Collect(slots: seq<Slot>, props: map<string, Schema>, required: seq<string>): Collected {
    if slots == [] then Collected(props, required)
    else
      var p := slots[0].param;
      if p.ann.None? then MissingHint
      else Collect(slots[1..], props[p.name := A.Compile(p.ann.value)],
                   if slots[0].optional then required else required + [p.name])
  }

  predicate Ambiguous(s: Schema) {
    s.Anything? || s == Type(ObjectT)
  }

  function Normalise(s: Schema): Schema {
    if s.Anything? then Type(ObjectT)
    else if TypeOf(s) == One(ObjectT) then s
    else if TypeOf(s).Many? && ObjectT in TypeOf(s).ts then s
    else Record(map["result" := s], ["result"], false)
  }

  function Returns(h: Handler): Option<Schema>
    requires h.hint.Some?
  {
    var declared := A.Compile(h.hint.value);
    if !Ambiguous(declared) then Some(Normalise(declared))
    else
      match InferReturn(Params(h), h.body)
      case Crash => None
      case Dynamic => Some(Normalise(declared))
      case Literal(props, required) => Some(Normalise(Record(props, required, true)))
  }

  function Generate(h: Handler): Outcome
    requires Parsed(h)
  {
    match Collect(PositionalSlots(h) + KeywordSlots(h), map[], [])
    case MissingHint => Failed("missing_param_annotation")
    case Collected(props, required) =>
      if h.hint.None? then Failed("missing_return_annotation")
      else
        match Returns(h)
        case None => Raised
        case Some(output) => Schemas(Record(props, required, true), output)
  }

  lemma {:induction false} CollectConcat(xs: seq<Slot>, ys: seq<Slot>, props: map<string, Schema>,
                                         required: seq<string>)
    ensures var c := Collect(xs, props, required);
            Collect(xs + ys, props, required) ==
            if c.MissingHint? then MissingHint else Collect(ys, c.props, c.required)
  {
    if xs == [] {
      assert xs + ys == ys;
    } else {
      assert (xs + ys)[1..] == xs[1..] + ys;
      var p := xs[0].param;
      if p.ann.Some? {
        CollectConcat(xs[1..], ys, props[p.name := A.Compile(p.ann.value)],
                      if xs[0].optional then required else required + [p.name]);
      }
    }
  }

  // The generator as the source runs it.
  method GenerateSchemas(h: Handler) returns (outcome: Outcome)
    requires Parsed(h)
    ensures outcome == Generate(h)
  {
    var props: map<string, Schema>, required: seq<string> := map[], [];
    var positional := Positional(h);
    var pad := |positional| - |h.defaults|;
    CollectConcat(PositionalSlots(h), KeywordSlots(h), map[], []);
    for n := 0 to |positional|
      invariant Collect(PositionalSlots(h), map[], []) == Collect(PositionalSlots(h)[n..], props, required)
    {
      assert PositionalSlots(h)[n..][1..] == PositionalSlots(h)[n + 1..];
      var p := positional[n];
      if p.ann.None? { return Failed("missing_param_annotation"); }
      props := props[p.name := A.Compile(p.ann.value)];
      if n < pad { required := required + [p.name]; }
    }
    ghost var props0, required0 := props, required;
    for n := 0 to |h.kwonly|
      invariant Collect(KeywordSlots(h), props0, required0) == Collect(KeywordSlots(h)[n..], props, required)
    {
      assert KeywordSlots(h)[n..][1..] == KeywordSlots(h)[n + 1..];
      var p := h.kwonly[n];
      if p.ann.None? { return Failed("missing_param_annotation"); }
      props := props[p.name := A.Compile(p.ann.value)];
      if h.kwDefaults[n].None? { required := required + [p.name]; }
    }
    var parameters := Record(props, required, true);
    if h.hint.None? { return Failed("missing_return_annotation"); }
    var output := A.Compile(h.hint.value);
    if Ambiguous(output) {
      var fields := InferDictReturnSchema(Params(h), h.body);
      if fields.Crash? { return Raised; }
      if fields.Literal? { output := Record(fields.props, fields.required, true); }
    }
    return Schemas(parameters, Normalise(output));
  }

  // ------------------------------------------------------------------ the checker

  datatype Kind = PositionalOnly | PositionalOrKeyword | VarPositional | KeywordOnly | VarKeyword

  datatype SigParam = SigParam(name: string, kind: Kind, hasDefault: bool)

  predicate Variadic(p: SigParam) {
    p.kind.VarPositional? || p.kind.VarKeyword?
  }

  // `inspect.signature(handler)`: positional parameter i has a default when it is one of the last
  // |defaults|, and a keyword-only one when its own entry is not None.
  function Signature(h: Handler): seq<SigParam>
    requires Parsed(h)
  {
    SigPositional(h)
    + (if h.vararg.Some? then [SigParam(h.vararg.value, VarPositional, false)] else [])
    + SigKeywordOnly(h)
    + (if h.kwarg.Some? then [SigParam(h.kwarg.value, VarKeyword, false)] else [])
  }

  function SigPositional(h: Handler): seq<SigParam> {
    var first := |Positional(h)| - |h.defaults|;
    seq(|Positional(h)|, i requires 0 <= i < |Positional(h)| =>
          SigParam(Positional(h)[i].name, if i < |h.posonly| then PositionalOnly else PositionalOrKeyword, first <= i))
  }

  function SigKeywordOnly(h: Handler): seq<SigParam>
    requires Parsed(h)
  {
    seq(|h.kwonly|, i requires 0 <= i < |h.kwonly| => SigParam(h.kwonly[i].name, KeywordOnly, h.kwDefaults[i].Some?))
  }

  datatype Verdict = Accepted | ArgsMismatch | RequiredMismatch

  // The check against the "properties" and "required" of a parameters schema.
  function CheckSignature(keys: set<string>, required: set<string>, sig: seq<SigParam>): Verdict {
    var actual := set p | p in sig :: p.name;
    var actualRequired := set p | p in sig && !p.hasDefault && !Variadic(p) :: p.name;
    var missing := keys - actual;
    var extraStrict := set p | p in sig && p.name !in keys && !Variadic(p) :: p.name;
    if missing != {} || extraStrict != {} then ArgsMismatch
    else if actualRequired - required != {} then RequiredMismatch
    else Accepted
  }

  // Whether Python can bind the call `handler(**{keys})`.
  predicate BindsKeywords(sig: seq<SigParam>, keys: set<string>) {
    && (forall p :: p in sig && p.kind.PositionalOnly? ==> p.hasDefault)
    && (forall p :: p in sig && (p.kind.PositionalOrKeyword? || p.kind.KeywordOnly?) && !p.hasDefault ==>
          p.name in keys)
    && (forall k :: k in keys ==>
          || (exists p :: p in sig && p.name == k && (p.kind.PositionalOrKeyword? || p.kind.KeywordOnly?))
          || (exists p :: p in sig && p.kind.VarKeyword?))
  }
}
