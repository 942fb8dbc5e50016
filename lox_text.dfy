/**
 * String building shared by the two printers: the StringBuilder loops of
 * AstPrinter.java as recursive joins, String.strip(), and a reference
 * "join with single spaces" that both printers are related to.
 */
module LoxText {

  /** parts[0] + " " + parts[1] + ... : the reference join. */
  function JoinSpaces(parts: seq<string>): string
    decreases |parts|
  {
    if |parts| == 0 then ""
    else if |parts| == 1 then parts[0]
    else parts[0] + " " + JoinSpaces(parts[1..])
  }

  /** The loop `for (p : parts) sb.append(" ").append(p)`. */
  function Spaced(parts: seq<string>): string
    decreases |parts|
  {
    if |parts| == 0 then "" else " " + parts[0] + Spaced(parts[1..])
  }

  /** The loop `for (p : parts) sb.append(p)`. */
  function Concat(parts: seq<string>): string
    decreases |parts|
  {
    if |parts| == 0 then "" else parts[0] + Concat(parts[1..])
  }

  lemma {:induction false} JoinAppend(a: seq<string>, b: seq<string>)
    requires |a| > 0 && |b| > 0
    ensures JoinSpaces(a + b) == JoinSpaces(a) + " " + JoinSpaces(b)
    decreases |a|
  {
    if |a| > 1 {
      assert (a + b)[1..] == a[1..] + b;
      JoinAppend(a[1..], b);
    } else {
      assert (a + b)[1..] == b;
    }
  }

  /** Prefixing every part with a space is one space before the reference join. */
  lemma {:induction false} SpacedIsJoin(parts: seq<string>)
    ensures Spaced(parts) == if |parts| == 0 then "" else " " + JoinSpaces(parts)
    decreases |parts|
  {
    if |parts| > 1 {
      SpacedIsJoin(parts[1..]);
    }
  }

  /**
   * Character.isWhitespace, which String.strip() removes: the Unicode space
   * separators other than the no-break spaces, the line and paragraph
   * separators, and the ASCII controls \t \n \u000B \f \r and \u001C-\u001F.
   */
  predicate IsWhitespace(c: char) {
    c == ' ' || ('\t' <= c <= '\r') || ('\U{1C}' <= c <= '\U{1F}')
    || c == '\U{1680}' || ('\U{2000}' <= c <= '\U{2006}') || ('\U{2008}' <= c <= '\U{200A}')
    || c == '\U{2028}' || c == '\U{2029}' || c == '\U{205F}' || c == '\U{3000}'
  }

  /** How many characters of leading whitespace s has. */
  function Lead(s: string): (n: nat)
    ensures n <= |s|
    decreases |s|
  {
    if |s| > 0 && IsWhitespace(s[0]) then 1 + Lead(s[1..]) else 0
  }

  /** How many characters of trailing whitespace s has. */
  function Trail(s: string): (n: nat)
    ensures n <= |s|
    decreases |s|
  {
    if |s| > 0 && IsWhitespace(s[|s| - 1]) then 1 + Trail(s[..|s| - 1]) else 0
  }

  /** String.strip(): the slice of s left once leading and trailing whitespace is cut off. */
  function Strip(s: string): (r: string)
    ensures Lead(s) + |r| <= |s| && r == s[Lead(s)..Lead(s) + |r|]
  {
    var t := s[Lead(s)..];
    t[..|t| - Trail(t)]
  }

  lemma {:induction false} LeadSpec(s: string)
    ensures forall k :: 0 <= k < Lead(s) ==> IsWhitespace(s[k])
    ensures Lead(s) < |s| ==> !IsWhitespace(s[Lead(s)])
    decreases |s|
  {
    if |s| > 0 && IsWhitespace(s[0]) {
      LeadSpec(s[1..]);
      assert forall k :: 1 <= k < |s| ==> s[k] == s[1..][k - 1];
    }
  }

  lemma {:induction false} TrailSpec(s: string)
    ensures forall k :: |s| - Trail(s) <= k < |s| ==> IsWhitespace(s[k])
    ensures Trail(s) < |s| ==> !IsWhitespace(s[|s| - 1 - Trail(s)])
    decreases |s|
  {
    if |s| > 0 && IsWhitespace(s[|s| - 1]) {
      TrailSpec(s[..|s| - 1]);
    }
  }

  /**
   * strip() removes exactly the leading and trailing whitespace: what is
   * left is a slice of s, everything cut off is whitespace, and the slice
   * neither starts nor ends with whitespace.
   */
  lemma StripSpec(s: string)
    ensures var r := Strip(s); var i := Lead(s);
      (r == "" ==> forall k :: 0 <= k < |s| ==> IsWhitespace(s[k]))
      && (r != "" ==>
        i + |r| <= |s| && r == s[i..i + |r|]
        && (forall k :: 0 <= k < i ==> IsWhitespace(s[k]))
        && (forall k :: i + |r| <= k < |s| ==> IsWhitespace(s[k]))
        && !IsWhitespace(r[0]) && !IsWhitespace(r[|r| - 1]))
  {
    var t := s[Lead(s)..];
    LeadSpec(s);
    TrailSpec(t);
    if Lead(s) < |s| {
      assert t[0] == s[Lead(s)];
    }
  }

  /** strip() twice is strip() once. */
  lemma StripIdempotent(s: string)
    ensures Strip(Strip(s)) == Strip(s)
  {
    var r := Strip(s);
    StripSpec(s);
    if r != "" {
      assert Lead(r) == 0 && Trail(r) == 0;
    }
  }
}
