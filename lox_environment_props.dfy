/**
 * The laws of the environment chain: lookups find the innermost binding,
 * writes are read back, assign() never creates a binding, and the
 * distance the resolver computes statically is the index at which the
 * dynamic lookup finds the variable.
 */
module LoxEnvironmentProps {
  import opened Wrappers
  import opened LoxTokens
  import opened LoxEnvironment
  import LoxResolution
  import LoxResolutionProps

  /** get()'s search, both ways: the innermost map binding the name, or none binds it. */
  lemma {:induction false} NearestInnermost<V>(frames: seq<map<string, V>>, name: string)
    ensures match Nearest(frames, name)
      case Some(i) => i < |frames| && name in frames[i] && forall j :: 0 <= j < i ==> name !in frames[j]
      case None => forall j :: 0 <= j < |frames| ==> name !in frames[j]
  {
    if |frames| > 0 && name !in frames[0] {
      NearestInnermost(frames[1..], name);
      assert forall j :: 1 <= j < |frames| ==> frames[j] == frames[1..][j - 1];
    }
  }

  /** The search depends only on which maps bind the name. */
  lemma {:induction false} NearestSameKeys<V>(frames: seq<map<string, V>>, other: seq<map<string, V>>, name: string)
    requires |frames| == |other| && forall j :: 0 <= j < |frames| ==> (name in frames[j] <==> name in other[j])
    ensures Nearest(frames, name) == Nearest(other, name)
  {
    if |frames| > 0 && name !in frames[0] {
      NearestSameKeys(frames[1..], other[1..], name);
    }
  }

  /** After define(n, v), get(n) gives v, and every other name reads as before. */
  lemma ReadAfterDefine<V>(frames: seq<map<string, V>>, name: Token, value: V, other: Token)
    requires |frames| > 0
    ensures Lookup(Bind(frames, name.lexeme, value), name) == Ok(value)
    ensures other.lexeme != name.lexeme ==> Lookup(Bind(frames, name.lexeme, value), other) == Lookup(frames, other)
  {
    var bound := Bind(frames, name.lexeme, value);
    if other.lexeme != name.lexeme {
      NearestSameKeys(frames, bound, other.lexeme);
    }
  }

  /**
   * assign() succeeds exactly when get() would, fails with the same error
   * otherwise, keeps every map's set of names, is read back by get(), and
   * leaves every other name's value alone.
   */
  lemma ReadAfterAssign<V>(frames: seq<map<string, V>>, name: Token, value: V, other: Token)
    ensures match Reassign(frames, name, value)
      case Ok(after) =>
        Lookup(frames, name).Ok? && Lookup(after, name) == Ok(value)
        && |after| == |frames| && (forall j :: 0 <= j < |frames| ==> after[j].Keys == frames[j].Keys)
        && (other.lexeme != name.lexeme ==> Lookup(after, other) == Lookup(frames, other))
      case Err(e) => e == UndefinedVariable(name) && Lookup(frames, name) == Err(e)
  {
    match Nearest(frames, name.lexeme)
    case Some(i) =>
      var after := frames[i := frames[i][name.lexeme := value]];
      NearestSameKeys(frames, after, name.lexeme);
      if other.lexeme != name.lexeme {
        NearestSameKeys(frames, after, other.lexeme);
      }
    case None =>
  }

  /**
   * At the distance get() finds a name, getAt() reads the same value and
   * assignAt() does what assign() does; assignAt() is read back by getAt()
   * even where it creates the binding.
   */
  lemma ResolvedAccess<V>(frames: seq<map<string, V>>, name: Token, value: V, distance: nat)
    requires distance < |frames|
    ensures Nearest(frames, name.lexeme) == Some(distance) ==>
      Lookup(frames, name) == Ok(frames[distance][name.lexeme])
      && LookupAt(frames, distance, name.lexeme) == Some(frames[distance][name.lexeme])
      && Reassign(frames, name, value) == Ok(ReassignAt(frames, distance, name.lexeme, value))
    ensures LookupAt(ReassignAt(frames, distance, name.lexeme, value), distance, name.lexeme) == Some(value)
  {
  }

  /**
   * The resolver's distance is the dynamic one. Let the environment chain
   * mirror the resolver's scopes (scope i, counted from the outermost,
   * binds the names frame |scopes| - 1 - i binds, counted from the
   * innermost) with the global environment one further out. Then a local
   * that resolveLocal() resolved at distance d is found by get() at d, and
   * a name it left to the globals is found, if at all, in the global
   * environment.
   */
  lemma ResolverDistanceIsDynamic<V>(scopes: seq<map<string, bool>>, frames: seq<map<string, V>>, name: string)
    requires |frames| == |scopes| + 1
    requires forall i :: 0 <= i < |scopes| ==> (name in scopes[i] <==> name in frames[|scopes| - 1 - i])
    ensures match LoxResolution.Distance(scopes, name)
      case Some(d) => Nearest(frames, name) == Some(d)
      case None => Nearest(frames, name) == if name in frames[|scopes|] then Some(|scopes|) else None
  {
    LoxResolutionProps.DistanceInnermost(scopes, name);
    NearestInnermost(frames, name);
    var n := |scopes|;
    match LoxResolution.Distance(scopes, name)
    case Some(d) =>
      assert name in frames[d] by {
        assert name in scopes[n - 1 - d];
      }
      forall j | 0 <= j < d
        ensures name !in frames[j]
      {
        assert name !in scopes[n - 1 - j];
      }
    case None =>
      forall j | 0 <= j < n
        ensures name !in frames[j]
      {
        assert name !in scopes[n - 1 - j];
      }
  }
}
