/**
 * jlox's runtime objects: functions (LoxFunction.java) and instances
 * (LoxInstance.java). LoxClass.java is not part of this model: a class is
 * its name and an uninterpreted findMethod. Interpreter.executeBlock is
 * not part of this model either: a call takes it as a parameter.
 */
module LoxRuntime {
  import opened Wrappers
  import opened LoxTokens
  import opened LoxAst
  import opened LoxEnvironment

  /** A Lox value as the interpreter stores it; Nil is Java's null, a number keeps its IEEE-754 bits. */
  datatype Value =
    | Nil
    | Bool(b: bool)
    | Number(bits: bv64)
    | Str(s: string)
    | Function(callee: LoxFunction)
    | Class(klass: LoxClass)
    | Instance(instance: LoxInstance)

  /** How interpreter.executeBlock finished: at the end of the body, or by throwing Return(value). */
  datatype Completion = Normal | Returned(value: Value)

  /** The parameters defined one after the other, as call()'s loop does: a later parameter of the same name wins. */
  function BindParams(params: seq<Token>, arguments: seq<Value>): map<string, Value>
    requires |params| <= |arguments|
    decreases |params|
  {
    if |params| == 0 then map[]
    else BindParams(params[..|params| - 1], arguments)[params[|params| - 1].lexeme := arguments[|params| - 1]]
  }

  /** The value call() returns: the Return signal's value, or nil. */
  function CallResult(c: Completion): Value {
    match c
    case Returned(v) => v
    case Normal => Value.Nil
  }

  /** get(): a field first, then a method of the class (unbound), else an error. */
  function Property(fields: map<string, Value>, findMethod: string -> Option<LoxFunction>, name: Token): Result<Value, RuntimeError> {
    if name.lexeme in fields then Ok(fields[name.lexeme])
    else match findMethod(name.lexeme)
      case Some(m) => Ok(Value.Function(m))
      case None => Err(RuntimeError(name, "Undefined property '" + name.lexeme + "'."))
  }

  class LoxFunction {
    const declaration: FunctionDecl
    /** The environment the declaration was evaluated in. */
    const closure: Environment<Value>

    constructor (declaration: FunctionDecl, closure: Environment<Value>)
      ensures this.declaration == declaration && this.closure == closure
    {
      this.declaration := declaration;
      this.closure := closure;
    }

    /** arity(): how many arguments a call binds, one per declared parameter. */
    function Arity(): (n: nat)
      ensures n == |declaration.params|
    {
      |declaration.params|
    }

    /**
     * The first half of call(): a fresh environment enclosed by the closure
     * (not the caller's environment) gets one binding per parameter. The
     * closure's chain is not touched: the bindings go into the new
     * environment only.
     */
    method BindArguments(arguments: seq<Value>) returns (environment: Environment<Value>)
      requires closure.Valid() && Arity() <= |arguments|
      ensures fresh(environment) && environment.Valid() && environment.enclosing == closure
      ensures environment.Frames() == [BindParams(declaration.params, arguments)] + closure.Frames()
      ensures closure.Frames() == old(closure.Frames())
    {
      environment := new Environment.Nested(closure);
      var params := declaration.params;
      for i := 0 to |params|
        invariant fresh(environment) && environment.Valid() && environment.enclosing == closure
        invariant environment.Frames() == [BindParams(params[..i], arguments)] + closure.Frames()
      {
        assert params[..i + 1][..i] == params[..i];
        environment.Define(params[i].lexeme, arguments[i]);
      }
      assert params[..|params|] == params;
    }

    /**
     * call(): bind the arguments, then run the body through
     * interpreter.executeBlock in the new environment. The body is given
     * the maps of the new environment's chain (innermost first) and gives
     * back how it finished and the maps afterwards, so it reads the
     * parameters and the captured variables and may assign the captured
     * ones; those assignments land in the closure's environments, where
     * every other holder of them sees them. A Return signal gives the
     * call's value, and finishing the body gives nil.
     */
    method Call(executeBlock: (seq<Option<Stmt>>, seq<map<string, Value>>) -> (Completion, seq<map<string, Value>>),
                arguments: seq<Value>)
      returns (environment: Environment<Value>, r: Value)
      requires closure.Valid() && Arity() <= |arguments|
      requires forall body, frames :: |executeBlock(body, frames).1| == |frames|
      modifies set e | e in closure.Chain()
      ensures fresh(environment) && environment.Valid() && environment.enclosing == closure
      ensures var (completion, after) := executeBlock(declaration.body, [BindParams(declaration.params, arguments)] + old(closure.Frames()));
        environment.Frames() == after && closure.Frames() == after[1..] && r == CallResult(completion)
    {
      // The body keeps the chain's length. The requirement speaks of maps of
      // values allocated on entry, so it is applied before anything is allocated.
      ghost var bound := [BindParams(declaration.params, arguments)] + closure.Frames();
      assert |executeBlock(declaration.body, closure.Frames()).1| == |closure.Frames()|;
      assert |executeBlock(declaration.body, bound).1| == |bound|;
      environment := BindArguments(arguments);
      var frames := environment.Snapshot();
      var (completion, after) := executeBlock(declaration.body, frames);
      environment.Restore(after);
      match completion
      case Returned(value) => r := value;
      case Normal => r := Value.Nil;
    }

    /** toString(): "<fn name>"; a function without a name has none to print. */
    function ToString(): (s: string)
      requires declaration.name.Some?
      ensures |s| == |declaration.name.value.lexeme| + 5
      ensures s[..4] == "<fn " && s[4..|s| - 1] == declaration.name.value.lexeme && s[|s| - 1] == '>'
    {
      "<fn " + declaration.name.value.lexeme + ">"
    }
  }

  /** The part of LoxClass an instance uses. */
  class LoxClass {
    const name: string
    const findMethod: string -> Option<LoxFunction>

    constructor (name: string, findMethod: string -> Option<LoxFunction>)
      ensures this.name == name && this.findMethod == findMethod
    {
      this.name := name;
      this.findMethod := findMethod;
    }
  }

  class LoxInstance {
    const klass: LoxClass
    var fields: map<string, Value>

    constructor (klass: LoxClass)
      ensures this.klass == klass && fields == map[]
    {
      this.klass := klass;
      fields := map[];
    }

    method Get(name: Token) returns (r: Result<Value, RuntimeError>)
      ensures r == Property(fields, klass.findMethod, name)
    {
      if name.lexeme in fields {
        return Ok(fields[name.lexeme]);
      }
      var found := klass.findMethod(name.lexeme);
      if found.Some? {
        return Ok(Value.Function(found.value));
      }
      return Err(RuntimeError(name, "Undefined property '" + name.lexeme + "'."));
    }

    /** set(): create or overwrite the one field; get() then reads the value back. */
    method Set(name: Token, value: Value)
      modifies this
      ensures fields == old(fields)[name.lexeme := value]
      ensures Property(fields, klass.findMethod, name) == Ok(value)
    {
      fields := fields[name.lexeme := value];
    }

    /** toString(): the class name followed by " instance". */
    function ToString(): (s: string)
      ensures |s| == |klass.name| + 9 && s[..|klass.name|] == klass.name && s[|klass.name|..] == " instance"
    {
      klass.name + " instance"
    }
  }
}
