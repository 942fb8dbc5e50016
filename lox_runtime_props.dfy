/**
 * What a call binds and what an instance's properties read back.
 */
module LoxRuntimeProps {
  import opened Wrappers
  import opened LoxTokens
  import opened LoxEnvironment
  import opened LoxRuntime

  /** call() binds exactly the parameter names. */
  lemma {:induction false} ParamsNamed(params: seq<Token>, arguments: seq<Value>)
    requires |params| <= |arguments|
    ensures BindParams(params, arguments).Keys == set p | p in params :: p.lexeme
    decreases |params|
  {
    if |params| > 0 {
      var n := |params|;
      var init := params[..n - 1];
      ParamsNamed(init, arguments);
      assert params == init + [params[n - 1]];
      assert (set p | p in params :: p.lexeme) == (set p | p in init :: p.lexeme) + {params[n - 1].lexeme};
    }
  }

  /** Parameter i is bound to argument i unless a later parameter has the same name. */
  lemma {:induction false} ParamsBound(params: seq<Token>, arguments: seq<Value>, i: nat)
    requires |params| <= |arguments| && i < |params|
    requires forall j :: i < j < |params| ==> params[j].lexeme != params[i].lexeme
    ensures params[i].lexeme in BindParams(params, arguments)
    ensures BindParams(params, arguments)[params[i].lexeme] == arguments[i]
    decreases |params|
  {
    var n := |params|;
    if i < n - 1 {
      var init := params[..n - 1];
      assert init[i] == params[i];
      ParamsBound(init, arguments, i);
    }
  }

  /**
   * An instance's properties: a field shadows any method of that name, a
   * method is found only when there is no such field, an undefined
   * property is an error exactly when neither exists, and set() changes
   * what get() reads for that name only.
   */
  lemma PropertyLaws(fields: map<string, Value>, findMethod: string -> Option<LoxFunction>, name: Token, value: Value, other: Token)
    ensures name.lexeme in fields ==> Property(fields, findMethod, name) == Ok(fields[name.lexeme])
    ensures Property(fields, findMethod, name).Err? <==> name.lexeme !in fields && findMethod(name.lexeme).None?
    ensures Property(fields[name.lexeme := value], findMethod, name) == Ok(value)
    ensures other.lexeme != name.lexeme ==>
      Property(fields[name.lexeme := value], findMethod, other) == Property(fields, findMethod, other)
  {
  }
}
