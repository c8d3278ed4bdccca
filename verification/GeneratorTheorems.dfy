/**
 The generated schemas meet the code they were generated from: the registration check accepts
 them, a schema-valid call binds, and a supported handler's result validates.
 */
module GeneratorTheorems {
  import opened Wrappers
  import opened JsonSchema
  import opened SchemaTheorems
  import A = Annotations
  import opened DocumentTheorems
  import opened ShapeTheorems
  import opened Python
  import opened Inference
  import opened InferenceTheorems
  import opened Generator

  function Slots(h: Handler): seq<Slot>
    requires Parsed(h)
  {
    PositionalSlots(h) + KeywordSlots(h)
  }

  predicate HasSlot(slots: seq<Slot>, k: string, optional: bool) {
    exists i :: 0 <= i < |slots| && slots[i].param.name == k && slots[i].optional == optional
  }

  lemma {:induction false} HasSlotHead(slots: seq<Slot>, k: string, optional: bool)
    requires slots != []
    ensures HasSlot(slots, k, optional) <==>
            (slots[0].param.name == k && slots[0].optional == optional) || HasSlot(slots[1..], k, optional)
  {
    assert forall i :: 0 < i < |slots| ==> slots[i] == slots[1..][i - 1];
  }

  // The collected keys are the slot names, and the required ones those of the slots with no default.
  lemma {:induction false} CollectKeys(slots: seq<Slot>, props: map<string, Schema>, required: seq<string>, k: string)
    requires Collect(slots, props, required).Collected?
    ensures var c := Collect(slots, props, required);
            && (k in c.props <==> k in props || HasSlot(slots, k, true) || HasSlot(slots, k, false))
            && (k in c.required <==> k in required || HasSlot(slots, k, false))
  {
    if slots != [] {
      var p := slots[0].param;
      var r := if slots[0].optional then required else required + [p.name];
      CollectKeys(slots[1..], props[p.name := A.Compile(p.ann.value)], r, k);
      HasSlotHead(slots, k, true);
      HasSlotHead(slots, k, false);
    }
  }

  // The signature declares a non-variadic parameter of that name and required-ness.
  predicate Declares(h: Handler, k: string, optional: bool)
    requires Parsed(h)
  {
    exists p :: p in Signature(h) && p.name == k && p.hasDefault == optional && !Variadic(p)
  }

  // Where slot i stands in the signature: `*args` sits between positional and keyword-only ones.
  function SigIndex(h: Handler, i: nat): nat {
    if i < |Positional(h)| then i else i + |OptionNames(h.vararg)|
  }

  lemma {:induction false} SlotInSignature(h: Handler, i: nat)
    requires Parsed(h) && i < |Slots(h)|
    ensures var j := SigIndex(h, i); var sig := Signature(h);
            && j < |sig| && sig[j].name == Slots(h)[i].param.name
            && sig[j].hasDefault == Slots(h)[i].optional && !Variadic(sig[j])
  {
  }

  lemma {:induction false} SignatureIsSlot(h: Handler, j: nat) returns (i: nat)
    requires Parsed(h) && j < |Signature(h)| && !Variadic(Signature(h)[j])
    ensures i < |Slots(h)| && j == SigIndex(h, i)
  {
    i := if j < |Positional(h)| then j else j - |OptionNames(h.vararg)|;
  }

  lemma {:induction false} SignatureSlots(h: Handler, k: string, optional: bool)
    requires Parsed(h)
    ensures HasSlot(Slots(h), k, optional) <==> Declares(h, k, optional)
  {
    var slots, sig := Slots(h), Signature(h);
    if i :| 0 <= i < |slots| && slots[i].param.name == k && slots[i].optional == optional {
      SlotInSignature(h, i);
      assert sig[SigIndex(h, i)] in sig;
    }
    if p :| p in sig && p.name == k && p.hasDefault == optional && !Variadic(p) {
      var j :| 0 <= j < |sig| && sig[j] == p;
      var i := SignatureIsSlot(h, j);
      SlotInSignature(h, i);
    }
  }

  // The generated properties are exactly the non-variadic parameters, and the generated required
  // list exactly those without a default.
  lemma {:induction false} GeneratedKeys(h: Handler)
    requires Parsed(h) && Generate(h).Schemas?
    ensures var parameters := Generate(h).parameters;
            && parameters.Record? && parameters.closed
            && (forall k :: k in parameters.props <==> Declares(h, k, true) || Declares(h, k, false))
            && (forall k :: k in parameters.required <==> Declares(h, k, false))
  {
    var parameters := Generate(h).parameters;
    forall k
      ensures k in parameters.props <==> Declares(h, k, true) || Declares(h, k, false)
      ensures k in parameters.required <==> Declares(h, k, false)
    {
      CollectKeys(Slots(h), map[], [], k);
      SignatureSlots(h, k, true);
      SignatureSlots(h, k, false);
    }
  }

  // Whatever mix of parameters the handler has, the generated `parameters` pass the check that
  // registration runs on the compiled handler.
  lemma {:induction false} GeneratorMeetsChecker(h: Handler)
    requires Parsed(h) && Generate(h).Schemas?
    ensures var parameters := Generate(h).parameters;
            && parameters.Record?
            && CheckSignature(parameters.props.Keys, (set k | k in parameters.required), Signature(h)) == Accepted
  {
    GeneratedKeys(h);
    var sig := Signature(h);
    forall p | p in sig && !Variadic(p) ensures Declares(h, p.name, p.hasDefault) { }
  }

  // The argument names of an object that a closed parameters schema accepts.
  predicate AllowedKeys(parameters: Schema, keys: set<string>)
    requires parameters.Record?
  {
    (forall k :: k in parameters.required ==> k in keys) && keys <= parameters.props.Keys
  }

  lemma {:induction false} ValidArgumentsHaveAllowedKeys(parameters: Schema, v: Json)
    requires parameters.Record? && parameters.closed && Accepts(parameters, v)
    ensures v.Obj? && AllowedKeys(parameters, v.fields.Keys)
  {
  }

  predicate PositionalOnlyHaveDefaults(h: Handler) {
    h.posonly == [] || |h.args| + |h.posonly| <= |h.defaults|
  }

  // No positional-only parameter must be given, and if one can be given then `**kwargs` takes it.
  predicate PositionalOnlyIsHarmless(h: Handler) {
    && PositionalOnlyHaveDefaults(h)
    && (h.kwarg.Some? || forall i :: 0 <= i < |h.posonly| ==> !CanBeGiven(h.posonly[i]))
  }

  predicate CanBeGiven(p: Param) {
    p.ann.Some? && Fulfillable(A.Compile(p.ann.value))
  }

  ghost predicate EveryValidCallBinds(h: Handler)
    requires Parsed(h) && Generate(h).Schemas?
  {
    forall v :: IsJson(v) && Validates(Generate(h).parameters, v) ==>
      v.Obj? && BindsKeywords(Signature(h), v.fields.Keys)
  }

  // The check lets positional-only parameters through, but the sandbox calls `handler(**args)`:
  // every schema-valid call binds if and only if no call is valid at all, because some hint gives no
  // valid document or the schema accepts nothing, or the positional-only parameters are harmless.
  lemma {:induction false} ValidCallsBindIff(h: Handler)
    requires Parsed(h) && Generate(h).Schemas?
    ensures EveryValidCallBinds(h) <==>
            !HintsDocumented(h) || !Fulfillable(Generate(h).parameters) || PositionalOnlyIsHarmless(h)
  {
    GeneratedKeys(h);
    ParametersDocumentIff(h);
    var parameters := Generate(h).parameters;
    if PositionalOnlyIsHarmless(h) {
      forall v | IsJson(v) && Validates(parameters, v) ensures v.Obj? && BindsKeywords(Signature(h), v.fields.Keys) {
        HarmlessBinds(h, v);
      }
    } else if Fulfillable(parameters) && HintsDocumented(h) {
      var v := UnboundCall(h);
    } else {
      forall v | IsJson(v) && Validates(parameters, v) ensures false { AcceptedFulfils(parameters, v); }
    }
  }

  // The generated schema of a parameter is that of its hint.
  lemma {:induction false} ParamSchema(h: Handler, i: nat)
    requires Parsed(h) && Generate(h).Schemas? && i < |Params(h)|
    ensures var parameters := Generate(h).parameters; var p := Params(h)[i];
            && parameters.Record? && p.ann.Some?
            && p.name in parameters.props && parameters.props[p.name] == A.Compile(p.ann.value)
  {
    var slots, names := Slots(h), ParamNames(Params(h)) + OptionNames(h.vararg) + OptionNames(h.kwarg);
    assert slots[i].param == Params(h)[i];
    forall j | i < j < |slots| ensures slots[j].param.name != slots[i].param.name {
      assert names[i] == Params(h)[i].name && names[j] == slots[j].param.name;
    }
    CollectValue(slots, map[], [], i);
  }

  // Every parameter's hint compiles to a valid document.
  predicate HintsDocumented(h: Handler) {
    forall i :: 0 <= i < |Params(h)| && Params(h)[i].ann.Some? ==> Documented(Params(h)[i].ann.value)
  }

  function SlotNames(slots: seq<Slot>): seq<string> {
    seq(|slots|, i requires 0 <= i < |slots| => slots[i].param.name)
  }

  lemma {:induction false} CollectDistinct(slots: seq<Slot>, props: map<string, Schema>, required: seq<string>)
    requires Collect(slots, props, required).Collected? && Distinct(required + SlotNames(slots))
    ensures Distinct(Collect(slots, props, required).required)
  {
    if slots == [] {
      assert required + SlotNames(slots) == required;
    } else {
      var p := slots[0].param;
      var all, rest := required + SlotNames(slots), SlotNames(slots[1..]);
      assert SlotNames(slots) == [p.name] + rest;
      assert (required + [p.name]) + rest == all;
      forall i, j | 0 <= i < j < |required + rest| ensures (required + rest)[i] != (required + rest)[j] {
        assert (required + rest)[i] == all[if i < |required| then i else i + 1];
        assert (required + rest)[j] == all[if j < |required| then j else j + 1];
      }
      CollectDistinct(slots[1..], props[p.name := A.Compile(p.ann.value)],
                      if slots[0].optional then required else required + [p.name]);
    }
  }

  // The generated parameters are a valid document exactly when every hint gives one.
  lemma {:induction false} ParametersDocumentIff(h: Handler)
    requires Parsed(h) && Generate(h).Schemas?
    ensures ValidDocument(Generate(h).parameters) <==> HintsDocumented(h)
  {
    var parameters, slots := Generate(h).parameters, Slots(h);
    RequiredDistinct(h);
    forall i | 0 <= i < |Params(h)|
      ensures Params(h)[i].ann.Some? && Params(h)[i].name in parameters.props
      ensures ValidDocument(parameters.props[Params(h)[i].name]) <==> Documented(Params(h)[i].ann.value)
    {
      ParamSchema(h, i);
      DocumentIff(Params(h)[i].ann.value);
    }
    forall k | k in parameters.props ensures exists i :: 0 <= i < |Params(h)| && Params(h)[i].name == k {
      CollectKeys(slots, map[], [], k);
      var i :| 0 <= i < |slots| && slots[i].param.name == k;
      assert slots[i].param == Params(h)[i];
    }
  }

  lemma {:induction false} DistinctPrefix<T>(xs: seq<T>, n: nat)
    requires Distinct(xs) && n <= |xs|
    ensures Distinct(xs[..n])
  {
  }

  lemma {:induction false} SlotNamesDistinct(h: Handler)
    requires Parsed(h)
    ensures Distinct(SlotNames(Slots(h)))
  {
    var slots, names := Slots(h), ParamNames(Params(h)) + OptionNames(h.vararg) + OptionNames(h.kwarg);
    assert |slots| == |Params(h)| && forall i :: 0 <= i < |slots| ==> SlotNames(slots)[i] == names[i];
    assert SlotNames(slots) == names[..|slots|];
    DistinctPrefix(names, |slots|);
  }

  lemma {:induction false} RequiredDistinct(h: Handler)
    requires Parsed(h) && Generate(h).Schemas?
    ensures Distinct(Generate(h).parameters.required)
  {
    SlotNamesDistinct(h);
    assert [] + SlotNames(Slots(h)) == SlotNames(Slots(h));
    CollectDistinct(Slots(h), map[], []);
  }

  // The generated return schema is one exactly when the declared hint gives one, or the literal that
  // stands in for a hint that says no more than "an object" is typed by one.
  predicate OutputDocumented(h: Handler)
    requires h.hint.Some?
  {
    if SaysNoMoreThanObject(h.hint.value) && InferReturn(Params(h), h.body).Literal?
    then ReturnDocumented(Params(h), h.body)
    else Documented(h.hint.value)
  }

  lemma {:induction false} OutputDocumentIff(h: Handler)
    requires Parsed(h) && Generate(h).Schemas?
    ensures ValidDocument(Generate(h).output) <==> OutputDocumented(h)
  {
    var declared := A.Compile(h.hint.value);
    ObjectHintIff(h.hint.value);
    DocumentIff(h.hint.value);
    NormaliseDocument(declared);
    var fields := InferReturn(Params(h), h.body);
    if Ambiguous(declared) && fields.Literal? {
      ReturnDocumentIff(Params(h), h.body);
      NormaliseDocument(Record(fields.props, fields.required, true));
    }
  }

  lemma NormaliseDocument(s: Schema)
    ensures ValidDocument(Normalise(s)) <==> ValidDocument(s)
  {
    var wrapped := Record(map["result" := s], ["result"], false);
    assert wrapped.props["result"] == s;
  }

  predicate TakesKeyword(sig: seq<SigParam>, k: string) {
    || (exists p :: p in sig && p.name == k && (p.kind.PositionalOrKeyword? || p.kind.KeywordOnly?))
    || (exists p :: p in sig && p.kind.VarKeyword?)
  }

  lemma {:induction false} HarmlessTakes(h: Handler, v: Json, p: SigParam)
    requires Parsed(h) && Generate(h).Schemas? && PositionalOnlyIsHarmless(h)
    requires IsJson(v) && Accepts(Generate(h).parameters, v)
    requires v.Obj? && p in Signature(h) && p.name in v.fields && !Variadic(p)
    ensures TakesKeyword(Signature(h), p.name)
  {
    var sig := Signature(h);
    if p.kind.PositionalOnly? {
      var i := PositionalOnlyPosition(h, p);
      if h.kwarg.None? {
        ParamSchema(h, i);
        AcceptedFulfils(A.Compile(h.posonly[i].ann.value), v.fields[p.name]);
        assert false;
      } else {
        assert sig[|sig| - 1] in sig && sig[|sig| - 1].kind.VarKeyword?;
      }
    }
  }

  lemma {:induction false} PositionalOnlyPosition(h: Handler, p: SigParam) returns (i: nat)
    requires Parsed(h) && p in Signature(h) && p.kind.PositionalOnly?
    ensures i < |h.posonly| && h.posonly[i] == Params(h)[i] && h.posonly[i].name == p.name
    ensures p.hasDefault <==> |Positional(h)| - |h.defaults| <= i
  {
    assert p in SigPositional(h);
    i :| 0 <= i < |SigPositional(h)| && SigPositional(h)[i] == p;
  }

  lemma {:induction false} HarmlessBinds(h: Handler, v: Json)
    requires Parsed(h) && Generate(h).Schemas? && PositionalOnlyIsHarmless(h)
    requires IsJson(v) && Accepts(Generate(h).parameters, v)
    ensures v.Obj? && BindsKeywords(Signature(h), v.fields.Keys)
  {
    GeneratedKeys(h);
    var sig := Signature(h);
    ValidArgumentsHaveAllowedKeys(Generate(h).parameters, v);
    forall p | p in sig && !p.hasDefault && !Variadic(p) ensures p.name in v.fields {
      assert Declares(h, p.name, false);
    }
    forall p | p in sig && p.kind.PositionalOnly? ensures p.hasDefault { var i := PositionalOnlyPosition(h, p); }
    forall k | k in v.fields ensures TakesKeyword(sig, k) {
      assert Declares(h, k, true) || Declares(h, k, false);
      var p :| p in sig && p.name == k && !Variadic(p);
      HarmlessTakes(h, v, p);
    }
  }

  // A valid call that does not bind: any, if a positional-only parameter has no default, and
  // otherwise one that gives such a parameter by name.
  lemma {:induction false} UnboundCall(h: Handler) returns (v: Json)
    requires Parsed(h) && Generate(h).Schemas? && !PositionalOnlyIsHarmless(h)
    requires Fulfillable(Generate(h).parameters)
    ensures IsJson(v) && Accepts(Generate(h).parameters, v)
    ensures v.Obj? && !BindsKeywords(Signature(h), v.fields.Keys)
  {
    var parameters, sig := Generate(h).parameters, Signature(h);
    v := Witness(parameters);
    if !PositionalOnlyHaveDefaults(h) {
      assert sig[0] in sig && sig[0].kind.PositionalOnly? && !sig[0].hasDefault;
    } else {
      var i :| 0 <= i < |h.posonly| && CanBeGiven(h.posonly[i]);
      assert Params(h)[i] == h.posonly[i];
      ParamSchema(h, i);
      v := Obj(v.fields[h.posonly[i].name := Witness(A.Compile(h.posonly[i].ann.value))]);
      GivenByNameIsUnbound(h, i, v.fields.Keys);
    }
  }

  lemma {:induction false} GivenByNameIsUnbound(h: Handler, i: nat, keys: set<string>)
    requires Parsed(h) && h.kwarg.None? && i < |h.posonly| && h.posonly[i].name in keys
    ensures !BindsKeywords(Signature(h), keys)
  {
    var sig, k := Signature(h), h.posonly[i].name;
    if p :| p in sig && p.name == k && (p.kind.PositionalOrKeyword? || p.kind.KeywordOnly?) {
      PositionalOnlyNameIsNotKeyword(h, i, p);
    }
  }

  // Parameter names are distinct, so a positional-only name is no keyword's name.
  lemma {:induction false} PositionalOnlyNameIsNotKeyword(h: Handler, i: nat, p: SigParam)
    requires Parsed(h) && i < |h.posonly| && p in Signature(h)
    requires p.kind.PositionalOrKeyword? || p.kind.KeywordOnly?
    ensures p.name != h.posonly[i].name
  {
    var params := Params(h);
    var names := ParamNames(params) + OptionNames(h.vararg) + OptionNames(h.kwarg);
    var n := KeywordPosition(h, p);
    assert names[n] == params[n].name && names[i] == params[i].name && params[i] == h.posonly[i];
  }

  lemma {:induction false} KeywordPosition(h: Handler, p: SigParam) returns (n: nat)
    requires Parsed(h) && p in Signature(h)
    requires p.kind.PositionalOrKeyword? || p.kind.KeywordOnly?
    ensures |h.posonly| <= n < |Params(h)| && Params(h)[n].name == p.name
  {
    if p in SigPositional(h) {
      n :| 0 <= n < |SigPositional(h)| && SigPositional(h)[n] == p;
    } else {
      assert p in SigKeywordOnly(h);
      var i :| 0 <= i < |h.kwonly| && SigKeywordOnly(h)[i] == p;
      n := |Positional(h)| + i;
    }
  }

  lemma {:induction false} CollectFailsIff(slots: seq<Slot>, props: map<string, Schema>, required: seq<string>)
    ensures Collect(slots, props, required).MissingHint? <==> exists i :: 0 <= i < |slots| && slots[i].param.ann.None?
  {
    if slots != [] {
      var p := slots[0].param;
      assert forall i :: 0 < i < |slots| ==> slots[1..][i - 1] == slots[i];
      if p.ann.Some? {
        CollectFailsIff(slots[1..], props[p.name := A.Compile(p.ann.value)],
                        if slots[0].optional then required else required + [p.name]);
      }
    }
  }

  // Generation is refused exactly when a hint is missing, parameters being looked at first.
  lemma {:induction false} GenerateFailsIff(h: Handler)
    requires Parsed(h)
    ensures Generate(h) == Failed("missing_param_annotation") <==> exists p :: p in Params(h) && p.ann.None?
    ensures Generate(h) == Failed("missing_return_annotation") <==>
            h.hint.None? && forall p :: p in Params(h) ==> p.ann.Some?
  {
    var slots := Slots(h);
    CollectFailsIff(slots, map[], []);
    assert |slots| == |Params(h)| && forall i :: 0 <= i < |slots| ==> slots[i].param == Params(h)[i];
    assert (exists i :: 0 <= i < |slots| && slots[i].param.ann.None?) <==>
           (exists p :: p in Params(h) && p.ann.None?) by {
      if p :| p in Params(h) && p.ann.None? {
        var i :| 0 <= i < |Params(h)| && Params(h)[i] == p;
        assert slots[i].param == p;
      }
      if i :| 0 <= i < |slots| && slots[i].param.ann.None? { assert Params(h)[i] in Params(h); }
    }
    assert "missing_param_annotation"[8] != "missing_return_annotation"[8];
  }

  predicate AllHinted(h: Handler) {
    h.hint.Some? && forall p :: p in Params(h) ==> p.ann.Some?
  }

  // Generation raises exactly when every hint is there, the return hint says no more than "an
  // object", and operands clash in what the inference looks at; it succeeds in all other cases
  // where no hint is missing.
  lemma {:induction false} GenerateRaisesIff(h: Handler)
    requires Parsed(h)
    ensures var clashes := AllHinted(h) && SaysNoMoreThanObject(h.hint.value) && ReturnClashes(Params(h), h.body);
            && (Generate(h).Raised? <==> clashes)
            && (Generate(h).Schemas? <==> AllHinted(h) && !clashes)
  {
    GenerateFailsIff(h);
    ReturnRaisesIff(Params(h), h.body);
    if h.hint.Some? { ObjectHintIff(h.hint.value); }
  }

  // If no hint has a list-valued type, generation never raises: it succeeds exactly when no hint
  // is missing.
  lemma {:induction false} PlainGenerationSucceedsIff(h: Handler)
    requires Parsed(h) && PlainHints(Params(h), h.body)
    ensures !Generate(h).Raised?
    ensures Generate(h).Schemas? <==> AllHinted(h)
  {
    GenerateRaisesIff(h);
    ReturnRaisesIff(Params(h), h.body);
    ReturnNeverRaises(Params(h), h.body);
  }

  // `def handler(x: Optional[int]) -> dict: return {"y": x + 1}`.
  function NullableSum(): Handler {
    var hint := A.Subscript(A.Name(A.Optional), A.Name(A.Int));
    Handler([], [Param("x", Some(hint))], [], None, [], [], None, Some(A.Name(A.LowerDict)),
            [Return(Some(DictE([Item(TextKey("y"), BinE(Add, Var("x"), Const(PInt(1))))])))])
  }

  // A nullable operand makes generation raise.
  lemma NullableOperandRaises()
    ensures Parsed(NullableSum()) && Generate(NullableSum()) == Raised
  {
    var h := NullableSum();
    assert Params(h) == h.args && |h.args| == 1;
    assert Parsed(h);
    NullableSumClashes(h.args, h.body);
    GenerateRaisesIff(h);
  }

  lemma {:induction false} NullableSumClashes(params: seq<Param>, body: seq<Stmt>)
    requires params == NullableSum().args && body == NullableSum().body
    ensures ReturnClashes(params, body)
  {
    var env: Env := map["x" := Types([IntegerT, NullT])];
    assert params[1..] == [] && ParamEnv(params, map[]) == env;
    assert body[1..] == [] && BodyEnv([], env) == Some(env) && LocalEnv(params, body) == Some(env);
    var items := body[0].result.value.items;
    assert Clashes(items[0].value, env) by { assert Clash(Types([IntegerT, NullT]), Type(IntegerT)); }
    assert ItemsClash(items, env);
  }

  // ------------------------------------------------------------------ which schema is generated

  // The returned literal is looked at exactly under the hints that say no more than "an object".
  lemma ObjectHintIff(a: A.Ann)
    ensures Ambiguous(A.Compile(a)) <==> SaysNoMoreThanObject(a)
  {
    AnythingIff(a);
    PlainIff(a, ObjectT);
  }

  // Every item after which the key is not given again has its field, with the type of its value.
  ghost predicate TypedAs(items: seq<Item>, env: Env, props: map<string, Schema>) {
    forall i :: 0 <= i < |items| && (forall j :: i < j < |items| ==> items[j].key != items[i].key) ==>
      var inferred := Infer(items[i].value, env);
      && inferred.Some? && items[i].key.TextKey? && items[i].key.text in props
      && props[items[i].key.text] == OrString(inferred.value)
  }

  // Its keys are then the generated fields, all required, nothing else is allowed, and each has the
  // type of the last value given for it.
  lemma {:induction false} LiteralFillsIn(h: Handler, items: seq<Item>)
    requires Parsed(h) && Generate(h).Schemas? && SaysNoMoreThanObject(h.hint.value)
    requires LastReturn(h.body) == Some(Return(Some(DictE(items)))) && AllText(items)
    ensures var output := Generate(h).output;
            && output.Record? && output.closed && output.required == Texts(items)
            && (forall k :: k in output.props <==> k in Texts(items))
            && LocalEnv(Params(h), h.body).Some?
            && TypedAs(items, LocalEnv(Params(h), h.body).value, output.props)
  {
    var env := LiteralStands(h, items);
    LiteralFields(items, env);
    LiteralTypes(items, env);
  }

  lemma {:induction false} LiteralStands(h: Handler, items: seq<Item>) returns (env: Env)
    requires Parsed(h) && Generate(h).Schemas? && SaysNoMoreThanObject(h.hint.value)
    requires LastReturn(h.body) == Some(Return(Some(DictE(items)))) && AllText(items)
    ensures LocalEnv(Params(h), h.body) == Some(env)
    ensures var fields := InferItems(items, env, map[], []);
            fields.Literal? && Generate(h).output == Record(fields.props, fields.required, true)
  {
    ObjectHintIff(h.hint.value);
    env := LocalEnv(Params(h), h.body).value;
    DynamicIff(items, env, map[], []);
  }

  lemma {:induction false} LiteralFields(items: seq<Item>, env: Env)
    requires InferItems(items, env, map[], []).Literal?
    ensures var fields := InferItems(items, env, map[], []);
            fields.required == Texts(items) && forall k :: k in fields.props <==> k in Texts(items)
  {
    var fields := InferItems(items, env, map[], []);
    forall k ensures k in fields.props <==> k in Texts(items) { FieldsAreKeys(items, env, map[], [], k); }
    FieldsAreKeys(items, env, map[], [], "");
    assert [] + Texts(items) == Texts(items);
  }

  lemma {:induction false} LiteralTypes(items: seq<Item>, env: Env)
    requires InferItems(items, env, map[], []).Literal?
    ensures TypedAs(items, env, InferItems(items, env, map[], []).props)
  {
    var props := InferItems(items, env, map[], []).props;
    forall i | 0 <= i < |items| && (forall j :: i < j < |items| ==> items[j].key != items[i].key)
      ensures Infer(items[i].value, env).Some? && items[i].key.TextKey? && items[i].key.text in props
      ensures props[items[i].key.text] == OrString(Infer(items[i].value, env).value)
    {
      LastFieldTyped(items, env, map[], [], i);
    }
  }

  // In all other cases the hint alone decides: under a hint that says no more than "an object" any
  // object is allowed, a hint for objects stands as compiled, and any other is wrapped.
  lemma {:induction false} HintDecides(h: Handler)
    requires Parsed(h) && Generate(h).Schemas?
    requires SaysNoMoreThanObject(h.hint.value) ==>
               forall items :: LastReturn(h.body) == Some(Return(Some(DictE(items)))) ==> !AllText(items)
    ensures var hint, output := h.hint.value, Generate(h).output;
            if SaysNoMoreThanObject(hint) then output == Type(ObjectT)
            else if SaysOneType(hint, ObjectT) || SaysList(hint, [ObjectT, NullT]) then output == A.Compile(hint)
            else output == Record(map["result" := A.Compile(hint)], ["result"], false)
  {
    var hint := h.hint.value;
    ObjectHintIff(hint);
    OneTypeIff(hint, ObjectT);
    ListIff(hint, [ObjectT, NullT]);
    CompiledList(hint);
    if SaysNoMoreThanObject(hint) {
      match LastReturn(h.body)
      case Some(Return(Some(DictE(items)))) => DynamicIff(items, LocalEnv(Params(h), h.body).value, map[], []);
      case _ =>
    }
  }

  lemma {:induction false} CompiledList(a: A.Ann)
    ensures var s := A.Compile(a);
            s.Types? && ObjectT in s.ts ==> s == Types([ObjectT, NullT])
    decreases a
  {
    var s := A.Compile(a);
    if s.Types? {
      ListIff(a, s.ts);
      SaidLists(a, s.ts);
      if ObjectT in s.ts { assert s.ts == [s.ts[0], NullT]; }
    }
  }

  // ------------------------------------------------------------------ returned values

  // What the normalised return schema accepts: the declared values when they are objects, and
  // otherwise only an object that carries such a value under "result".
  lemma NormaliseMeaning(s: Schema, v: Json)
    ensures Accepts(Normalise(s), v) <==>
            if s.Anything? then v.Obj?
            else if TypeOf(s) == One(ObjectT) || (TypeOf(s).Many? && ObjectT in TypeOf(s).ts) then Accepts(s, v)
            else v.Obj? && "result" in v.fields && Accepts(s, v.fields["result"])
  {
  }

  // Nothing wraps the returned value at run time, so a handler declared to return one non-object
  // type never passes its own return schema.
  lemma {:induction false} ScalarReturnNeverValidates(s: Schema, v: Json)
    requires TypeOf(s).One? && TypeOf(s).t != ObjectT && Accepts(s, v)
    ensures !Accepts(Normalise(s), v)
  {
    TypedValues(s, v);
    NormaliseMeaning(s, v);
  }

  lemma {:induction false} ObjectOutput(h: Handler)
    requires Parsed(h) && Generate(h).Schemas? && SaysNoMoreThanObject(h.hint.value)
    ensures var fields := InferReturn(Params(h), h.body);
            Generate(h).output == if fields.Literal? then Record(fields.props, fields.required, true) else Type(ObjectT)
  {
    ObjectHintIff(h.hint.value);
  }

  // A handler whose hint says no more than "an object": whatever a conforming call returns, in a run
  // that keeps track of its types, passes the generated return schema.
  lemma {:induction false} GeneratedReturnsValidate(h: Handler, st: State, w: World, vars: set<string>)
    requires Parsed(h) && Generate(h).Schemas? && SaysNoMoreThanObject(h.hint.value)
    requires TrackedRun(h.body, ParamEnv(Params(h), map[]), st, w, vars) && HonestBuiltins(w)
    requires Conforming(Params(h), st) && st.Keys <= vars
    requires Run(h.body, st, w).Some?
    ensures Accepts(Generate(h).output, ToJson(Run(h.body, st, w).value))
    ensures Validates(Generate(h).output, ToJson(Run(h.body, st, w).value)) <==> OutputDocumented(h)
  {
    OutputDocumentIff(h);
    ObjectOutput(h);
    if InferReturn(Params(h), h.body).Literal? {
      ReturnSound(Params(h), h.body, st, w, vars);
    } else {
      ParamsFit(Params(h), map[], st);
      BodySound(h.body, ParamEnv(Params(h), map[]), st, w, vars);
    }
  }

  // ------------------------------------------------------------------ end to end

  lemma {:induction false} CollectKeeps(slots: seq<Slot>, props: map<string, Schema>, required: seq<string>, k: string)
    requires Collect(slots, props, required).Collected? && k in props
    requires forall j :: 0 <= j < |slots| ==> slots[j].param.name != k
    ensures var c := Collect(slots, props, required); k in c.props && c.props[k] == props[k]
  {
    if slots != [] {
      var p := slots[0].param;
      CollectKeeps(slots[1..], props[p.name := A.Compile(p.ann.value)],
                   if slots[0].optional then required else required + [p.name], k);
    }
  }

  lemma {:induction false} CollectValue(slots: seq<Slot>, props: map<string, Schema>, required: seq<string>, i: nat)
    requires Collect(slots, props, required).Collected? && i < |slots|
    requires forall j :: i < j < |slots| ==> slots[j].param.name != slots[i].param.name
    ensures var c := Collect(slots, props, required); var p := slots[i].param;
            p.ann.Some? && p.name in c.props && c.props[p.name] == A.Compile(p.ann.value)
  {
    var p := slots[0].param;
    var next := props[p.name := A.Compile(p.ann.value)];
    var r := if slots[0].optional then required else required + [p.name];
    if i == 0 {
      CollectKeeps(slots[1..], next, r, p.name);
    } else {
      CollectValue(slots[1..], next, r, i - 1);
    }
  }

  // Arguments that the generated `parameters` accept conform to the hints they came from.
  lemma {:induction false} ValidArgumentsConform(h: Handler, args: State)
    requires Parsed(h) && Generate(h).Schemas? && Accepts(Generate(h).parameters, ToJson(PDict(args)))
    ensures Conforming(Params(h), args)
  {
    forall p | p in Params(h) && p.ann.Some? && p.name in args ensures Fits(A.Compile(p.ann.value), args[p.name]) {
      var i :| 0 <= i < |Params(h)| && Params(h)[i] == p;
      ParamSchema(h, i);
      assert ToJson(PDict(args)).fields[p.name] == ToJson(args[p.name]);
    }
  }

  // The two generated schemas fit together: a supported handler called with arguments the first
  // accepts, and conforming defaults for the rest, returns only values the second accepts.
  lemma {:induction false} ValidCallsReturnValidResults(h: Handler, args: State, defaults: State, w: World,
                                                        vars: set<string>)
    requires Parsed(h) && Generate(h).Schemas? && SaysNoMoreThanObject(h.hint.value)
    requires SupportedBody(h.body, ParamEnv(Params(h), map[]), vars) && HonestBuiltins(w)
    requires Accepts(Generate(h).parameters, ToJson(PDict(args))) && Conforming(Params(h), defaults)
    requires (defaults + args).Keys <= vars
    requires Run(h.body, defaults + args, w).Some?
    ensures Accepts(Generate(h).output, ToJson(Run(h.body, defaults + args, w).value))
    ensures Validates(Generate(h).output, ToJson(Run(h.body, defaults + args, w).value)) <==> OutputDocumented(h)
  {
    ValidArgumentsConform(h, args);
    SupportedIsTracked(h.body, ParamEnv(Params(h), map[]), defaults + args, w, vars);
    GeneratedReturnsValidate(h, defaults + args, w, vars);
  }
}
