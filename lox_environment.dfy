/**
 * jlox's Environment (Environment.java): a chain of name -> value maps,
 * each environment linked to the one enclosing it, ending at the global
 * environment. The chain is specified by its list of maps, innermost first
 * (Frames); the Environment class is proved to act on that list as the
 * functions below say.
 */
module LoxEnvironment {
  import opened Wrappers
  import opened LoxTokens

  /** RuntimeError(token, message), thrown by get() and assign(). */
  datatype RuntimeError = RuntimeError(token: Token, message: string)

  function UndefinedVariable(name: Token): RuntimeError {
    RuntimeError(name, "Undefined variable '" + name.lexeme + "'.")
  }

  // ---------------------------------------------------------------------
  // The chain as a list of maps, innermost first

  /** The index of the innermost map that binds the name. */
  function Nearest<V>(frames: seq<map<string, V>>, name: string): (r: Option<nat>)
    ensures r.Some? ==> r.value < |frames| && name in frames[r.value]
  {
    if |frames| == 0 then None
    else if name in frames[0] then Some(0)
    else match Nearest(frames[1..], name)
      case Some(i) => Some(i + 1)
      case None => None
  }

  /** get(): the innermost binding, or the undefined-variable error. */
  function Lookup<V>(frames: seq<map<string, V>>, name: Token): Result<V, RuntimeError> {
    match Nearest(frames, name.lexeme)
    case Some(i) => Ok(frames[i][name.lexeme])
    case None => Err(UndefinedVariable(name))
  }

  /** define(): bind in the innermost map, replacing any earlier binding there. */
  function Bind<V>(frames: seq<map<string, V>>, name: string, value: V): seq<map<string, V>>
    requires |frames| > 0
  {
    frames[0 := frames[0][name := value]]
  }

  /** assign(): overwrite the innermost binding; an unbound name is an error. */
  function Reassign<V>(frames: seq<map<string, V>>, name: Token, value: V): Result<seq<map<string, V>>, RuntimeError> {
    match Nearest(frames, name.lexeme)
    case Some(i) => Ok(frames[i := frames[i][name.lexeme := value]])
    case None => Err(UndefinedVariable(name))
  }

  /** getAt(): the map distance links out, and only that one; None is Java's null. */
  function LookupAt<V>(frames: seq<map<string, V>>, distance: nat, name: string): Option<V>
    requires distance < |frames|
  {
    if name in frames[distance] then Some(frames[distance][name]) else None
  }

  /** assignAt(): bind in the map distance links out, whether or not it held the name. */
  function ReassignAt<V>(frames: seq<map<string, V>>, distance: nat, name: string, value: V): seq<map<string, V>>
    requires distance < |frames|
  {
    frames[distance := frames[distance][name := value]]
  }

  /** assign() of a name the innermost map lacks is assign() on the enclosing maps. */
  lemma ReassignTail<V>(frames: seq<map<string, V>>, name: Token, value: V)
    requires |frames| > 0 && name.lexeme !in frames[0]
    ensures Reassign(frames, name, value) ==
      match Reassign(frames[1..], name, value)
      case Ok(rest) => Ok([frames[0]] + rest)
      case Err(e) => Err(e)
  {
    match Nearest(frames[1..], name.lexeme)
    case Some(i) =>
      assert frames[i + 1 := frames[i + 1][name.lexeme := value]] == [frames[0]] + frames[1..][i := frames[i + 1][name.lexeme := value]];
    case None =>
  }

  // ---------------------------------------------------------------------
  // The objects

  class Environment<V> {
    /** Java's null for the global environment. */
    const enclosing: Environment?<V>
    var values: map<string, V>
    /** The environments enclosing this one, innermost first. */
    ghost const outer: seq<Environment<V>>

    ghost function Chain(): seq<Environment<V>> {
      [this] + outer
    }

    /** The enclosing links form a finite chain without repetitions, which outer lists. */
    ghost predicate Valid()
      decreases |outer|
    {
      if enclosing == null then outer == []
      else outer == [enclosing] + enclosing.outer && this !in outer && enclosing.Valid()
    }

    ghost function Frames(): (r: seq<map<string, V>>)
      requires Valid()
      reads this, set e | e in outer
      ensures |r| == |Chain()| && r[0] == values
      decreases |outer|
    {
      if enclosing == null then [values]
      else
        [values] + enclosing.Frames()
    }

    /** Environment(): the global environment. */
    constructor Global()
      ensures Valid() && enclosing == null && Frames() == [map[]]
    {
      enclosing := null;
      values := map[];
      outer := [];
    }

    /** Environment(enclosing): a fresh innermost environment. */
    constructor Nested(enclosing: Environment<V>)
      requires enclosing.Valid()
      ensures Valid() && this.enclosing == enclosing && Frames() == [map[]] + enclosing.Frames()
    {
      this.enclosing := enclosing;
      values := map[];
      outer := [enclosing] + enclosing.outer;
    }

    /** The environment i links out sees the rest of the chain: its own maps are the rest of the list. */
    lemma Suffix(i: nat)
      requires Valid() && i < |Chain()|
      ensures Chain()[i].Valid() && Chain()[i].Chain() == Chain()[i..]
      ensures Chain()[i].Frames() == Frames()[i..] && Frames()[i] == Chain()[i].values
      ensures Chain()[i] !in Chain()[i + 1..]
      decreases i
    {
      if i > 0 {
        enclosing.Suffix(i - 1);
        assert Chain()[1..] == enclosing.Chain();
        assert Chain()[i] == enclosing.Chain()[i - 1] && Chain()[i..] == enclosing.Chain()[i - 1..];
        assert Frames()[i..] == enclosing.Frames()[i - 1..];
      }
    }

    method Define(name: string, value: V)
      requires Valid()
      modifies this
      ensures Frames() == Bind(old(Frames()), name, value)
    {
      assert enclosing != null ==> this !in enclosing.Chain();
      values := values[name := value];
    }

    /** get(): this environment's own map first, then the enclosing chain. */
    method Get(name: Token) returns (r: Result<V, RuntimeError>)
      requires Valid()
      ensures r == Lookup(Frames(), name)
      decreases |outer|
    {
      if name.lexeme in values {
        return Ok(values[name.lexeme]);
      }
      if enclosing != null {
        r := enclosing.Get(name);
        assert Frames()[1..] == enclosing.Frames();
        return;
      }
      return Err(UndefinedVariable(name));
    }

    /** assign(): overwrite the innermost binding, or fail at the global environment. */
    method Assign(name: Token, value: V) returns (err: Option<RuntimeError>)
      requires Valid()
      modifies this, set e | e in outer
      ensures match Reassign(old(Frames()), name, value)
        case Ok(frames) => err == None && Frames() == frames
        case Err(e) => err == Some(e) && Frames() == old(Frames())
      decreases |outer|
    {
      if name.lexeme in values {
        values := values[name.lexeme := value];
        return None;
      }
      if enclosing != null {
        ghost var before := Frames();
        ReassignTail(before, name, value);
        assert before[1..] == enclosing.Frames();
        err := enclosing.Assign(name, value);
        return;
      }
      return Some(UndefinedVariable(name));
    }

    /** ancestor(): follow `enclosing` distance times; one step past the global environment gives null. */
    method Ancestor(distance: nat) returns (e: Environment?<V>)
      requires Valid() && distance <= |Chain()|
      ensures e == if distance < |Chain()| then Chain()[distance] else null
    {
      var environment: Environment?<V> := this;
      for i := 0 to distance
        invariant environment == if i < |Chain()| then Chain()[i] else null
      {
        Suffix(i);
        environment := environment.enclosing;
      }
      return environment;
    }

    method GetAt(distance: nat, name: string) returns (r: Option<V>)
      requires Valid() && distance < |Chain()|
      ensures r == LookupAt(Frames(), distance, name)
    {
      var e := Ancestor(distance);
      Suffix(distance);
      r := if name in e.values then Some(e.values[name]) else None;
    }

    method AssignAt(distance: nat, name: Token, value: V)
      requires Valid() && distance < |Chain()|
      modifies Chain()[distance]
      ensures Frames() == ReassignAt(old(Frames()), distance, name.lexeme, value)
    {
      ghost var before := Frames();
      FramesAre();
      Distinct();
      var e := Ancestor(distance);
      e.values := e.values[name.lexeme := value];
      FramesAre();
      assert forall i :: 0 <= i < |Chain()| && i != distance ==> Frames()[i] == before[i];
    }

    /**
     * The maps of the whole chain, read by walking the `enclosing` links.
     * Environment.java has no such method. Snapshot and Restore exist only
     * to connect LoxFunction.Call, which models executeBlock as a function
     * on the chain's maps, to the environment objects.
     */
    method Snapshot() returns (frames: seq<map<string, V>>)
      requires Valid()
      ensures frames == Frames()
      decreases |outer|
    {
      if enclosing == null {
        frames := [values];
      } else {
        var rest := enclosing.Snapshot();
        frames := [values] + rest;
      }
    }

    /**
     * Give every environment of the chain its map from `frames`, innermost
     * first; nothing outside the chain changes. Like Snapshot, this stands
     * for nothing in Environment.java: it writes back the maps that the
     * modelled executeBlock returns.
     */
    method Restore(frames: seq<map<string, V>>)
      requires Valid() && |frames| == |Chain()|
      modifies set e | e in Chain()
      ensures Frames() == frames
      decreases |outer|
    {
      if enclosing != null {
        assert this !in enclosing.Chain();
        enclosing.Restore(frames[1..]);
      }
      values := frames[0];
      if enclosing != null {
        assert frames == [frames[0]] + frames[1..];
      }
    }

    /** The list of maps is the chain's environments' own maps. */
    lemma FramesAre()
      requires Valid()
      ensures forall i :: 0 <= i < |Chain()| ==> Frames()[i] == Chain()[i].values
    {
      forall i | 0 <= i < |Chain()| {
        Suffix(i);
      }
    }

    lemma Distinct()
      requires Valid()
      ensures forall i, j :: 0 <= i < j < |Chain()| ==> Chain()[i] != Chain()[j]
    {
      forall i, j | 0 <= i < j < |Chain()|
        ensures Chain()[i] != Chain()[j]
      {
        Suffix(i);
        assert Chain()[j] in Chain()[i + 1..];
      }
    }
  }
}
