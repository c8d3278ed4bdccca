/**
 What the signature check decides, for any handler signature and any parameters schema, and what a
 signature that passes it buys.
 */
module SignatureTheorems {
  import opened JsonSchema
  import opened Generator

  // Every key of the schema is a parameter's name, and every parameter but `*args` and `**kwargs` a key.
  predicate NamesMatch(keys: set<string>, sig: seq<SigParam>) {
    && (forall k :: k in keys ==> exists p :: p in sig && p.name == k)
    && (forall p :: p in sig && !Variadic(p) ==> p.name in keys)
  }

  // The schema requires every parameter that has no default.
  predicate RequirednessMatches(required: set<string>, sig: seq<SigParam>) {
    forall p :: p in sig && !Variadic(p) && !p.hasDefault ==> p.name in required
  }

  // The names are looked at first.
  lemma CheckedIff(keys: set<string>, required: set<string>, sig: seq<SigParam>)
    ensures var verdict := CheckSignature(keys, required, sig);
            && (verdict == Accepted <==> NamesMatch(keys, sig) && RequirednessMatches(required, sig))
            && (verdict == ArgsMismatch <==> !NamesMatch(keys, sig))
            && (verdict == RequiredMismatch <==> NamesMatch(keys, sig) && !RequirednessMatches(required, sig))
  {
    var actual := set p | p in sig :: p.name;
    var actualRequired := set p | p in sig && !p.hasDefault && !Variadic(p) :: p.name;
    var extra := set p | p in sig && p.name !in keys && !Variadic(p) :: p.name;
    if k :| k in keys && k !in actual {
      assert k in keys - actual;
    } else {
      assert keys - actual == {};
    }
    if p :| p in sig && !Variadic(p) && p.name !in keys {
      assert p.name in extra;
    } else {
      assert extra == {};
    }
    if p :| p in sig && !Variadic(p) && !p.hasDefault && p.name !in required {
      assert p.name in actualRequired - required;
    } else {
      assert actualRequired - required == {};
    }
  }

  ghost predicate EveryCallBinds(keys: set<string>, required: set<string>, sig: seq<SigParam>) {
    forall given :: required <= given <= keys ==> BindsKeywords(sig, given)
  }

  // The name of a parameter that can be given by keyword.
  predicate NamesKeyword(sig: seq<SigParam>, k: string) {
    exists p :: p in sig && p.name == k && (p.kind.PositionalOrKeyword? || p.kind.KeywordOnly?)
  }

  predicate CollectsKeywords(sig: seq<SigParam>) {
    exists p :: p in sig && p.kind.VarKeyword?
  }

  // An accepted signature binds every call that gives the required keys and no others than the keys,
  // exactly when positional-only parameters have defaults and each key can be given by keyword.
  lemma {:induction false} AcceptedBindsIff(keys: set<string>, required: set<string>, sig: seq<SigParam>)
    requires CheckSignature(keys, required, sig) == Accepted && required <= keys
    ensures EveryCallBinds(keys, required, sig) <==>
            && (forall p :: p in sig && p.kind.PositionalOnly? ==> p.hasDefault)
            && (CollectsKeywords(sig) || forall k :: k in keys ==> NamesKeyword(sig, k))
  {
    CheckedIff(keys, required, sig);
    if EveryCallBinds(keys, required, sig) {
      assert BindsKeywords(sig, keys);
      if !CollectsKeywords(sig) { forall k | k in keys ensures NamesKeyword(sig, k) { } }
    } else {
      var given :| required <= given <= keys && !BindsKeywords(sig, given);
      assert forall p :: p in sig && !Variadic(p) && !p.hasDefault ==> p.name in given;
    }
  }

  // Without positional-only parameters and without a key that is the name of `*args`, acceptance is
  // enough.
  lemma {:induction false} AcceptedBinds(keys: set<string>, required: set<string>, sig: seq<SigParam>)
    requires CheckSignature(keys, required, sig) == Accepted && required <= keys
    requires forall p :: p in sig ==> !p.kind.PositionalOnly? && (p.kind.VarPositional? ==> p.name !in keys)
    ensures EveryCallBinds(keys, required, sig)
  {
    CheckedIff(keys, required, sig);
    AcceptedBindsIff(keys, required, sig);
    if !CollectsKeywords(sig) {
      forall k | k in keys ensures NamesKeyword(sig, k) {
        var p :| p in sig && p.name == k;
        assert p.kind.PositionalOrKeyword? || p.kind.KeywordOnly?;
      }
    }
  }

  // `def handler(*args)` passes with a schema that requires a property of that name, and then no
  // call with that property binds.
  lemma VariadicNamePasses(name: string, given: set<string>)
    ensures var sig := [SigParam(name, VarPositional, false)];
            && CheckSignature({name}, {name}, sig) == Accepted
            && (name in given ==> !BindsKeywords(sig, given))
  {
    CheckedIff({name}, {name}, [SigParam(name, VarPositional, false)]);
  }
}
