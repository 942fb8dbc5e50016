/**
 * clox heap objects (object.c): the FNV-1a string hash, the list of every
 * allocated object and the string table that interns string contents.
 */
module CloxObject {
  import opened Wrappers
  import opened CloxValue
  import opened CloxTable

  // ---------------------------------------------------------------------
  // FNV-1a, 32-bit (section 2 of the IETF draft draft-eastlake-fnv)

  const FnvOffsetBasis: bv32 := 2166136261
  const FnvPrime: bv32 := 16777619

  /** One round: xor the octet into the low bits, then multiply modulo 2^32. */
  function FnvStep(hash: bv32, b: bv8): bv32 {
    (hash ^ (b as bv32)) * FnvPrime
  }

  /** The hash of `bytes`, defined on its last octet. */
  function Fnv1a(bytes: seq<bv8>): bv32 {
    if |bytes| == 0 then FnvOffsetBasis else FnvStep(Fnv1a(bytes[..|bytes| - 1]), bytes[|bytes| - 1])
  }

  /** The algorithm as the standard writes it: fold the octets in from the first, starting at `hash`. */
  function FnvFold(hash: bv32, bytes: seq<bv8>): bv32
    decreases |bytes|
  {
    if |bytes| == 0 then hash else FnvFold(FnvStep(hash, bytes[0]), bytes[1..])
  }

  lemma {:induction false} FnvFoldSnoc(hash: bv32, bytes: seq<bv8>, b: bv8)
    ensures FnvFold(hash, bytes + [b]) == FnvStep(FnvFold(hash, bytes), b)
    decreases |bytes|
  {
    if |bytes| > 0 {
      assert (bytes + [b])[1..] == bytes[1..] + [b];
      FnvFoldSnoc(FnvStep(hash, bytes[0]), bytes[1..], b);
    }
  }

  /** The last-octet definition and the standard's first-octet fold agree on every input. */
  lemma {:induction false} Fnv1aIsFold(bytes: seq<bv8>)
    ensures Fnv1a(bytes) == FnvFold(FnvOffsetBasis, bytes)
    decreases |bytes|
  {
    if |bytes| > 0 {
      var front := bytes[..|bytes| - 1];
      Fnv1aIsFold(front);
      FnvFoldSnoc(FnvOffsetBasis, front, bytes[|bytes| - 1]);
      assert front + [bytes[|bytes| - 1]] == bytes;
    }
  }

  /** Hashing `a + b` continues from the hash of `a`. */
  lemma {:induction false} Fnv1aAppend(a: seq<bv8>, b: seq<bv8>)
    ensures Fnv1a(a + b) == FnvFold(Fnv1a(a), b)
    decreases |b|
  {
    if |b| == 0 {
      assert a + b == a;
    } else {
      var front := b[..|b| - 1];
      Fnv1aAppend(a, front);
      assert (a + b)[..|a + b| - 1] == a + front;
      FnvFoldSnoc(Fnv1a(a), front, b[|b| - 1]);
      assert front + [b[|b| - 1]] == b;
    }
  }

  /** Test vectors of the standard: "", "a" and "foobar". */
  lemma Fnv1aVectors()
    ensures Fnv1a([]) == 0x811c9dc5
    ensures Fnv1a([0x61]) == 0xe40c292c
    ensures Fnv1a([0x66, 0x6f, 0x6f, 0x62, 0x61, 0x72]) == 0xbf9cf968
  {
    var foobar: seq<bv8> := [0x66, 0x6f, 0x6f, 0x62, 0x61, 0x72];
    assert [0x61][..0] == [];
    assert foobar[..1][..0] == [];
    assert foobar[..2][..1] == foobar[..1];
    assert foobar[..3][..2] == foobar[..2];
    assert foobar[..4][..3] == foobar[..3];
    assert foobar[..5][..4] == foobar[..4];
    assert foobar[..5] == foobar[..|foobar| - 1];
    assert Fnv1a(foobar[..1]) == 0xe30c2799;
    assert Fnv1a(foobar[..2]) == 0x6222e842;
    assert Fnv1a(foobar[..3]) == 0xa9f37ed7;
    assert Fnv1a(foobar[..4]) == 0x3f5076ef;
    assert Fnv1a(foobar[..5]) == 0x39aaa18a;
  }

  /** hashString: fold the first `length` bytes of `key` into the FNV-1a hash. */
  method HashString(key: seq<bv8>, length: nat) returns (hash: bv32)
    requires |key| >= length
    ensures hash == Fnv1a(key[..length])
  {
    hash := FnvOffsetBasis;
    var i := 0;
    assert key[..0] == [];
    while i < length
      invariant 0 <= i <= length && hash == Fnv1a(key[..i])
    {
      assert key[..i + 1][..i] == key[..i];
      hash := FnvStep(hash, key[i]);
      i := i + 1;
    }
  }

  // ---------------------------------------------------------------------
  // Interned strings

  /** The text of a string object: its first `length` characters, without the terminating NUL. */
  function Content(k: ObjString): seq<bv8> {
    if k.length <= |k.chars| then k.chars[..k.length] else k.chars
  }

  /** A string object as allocateString builds it: a buffer one longer than the text and the text's hash. */
  predicate WellFormed(k: ObjString) {
    |k.chars| == k.length + 1 && k.hash == Fnv1a(k.chars[..k.length])
  }

  /**
   * The string table is a set (every value nil) of well-formed strings
   * that are live objects, no two with the same text and no two at one
   * address.
   */
  ghost predicate Interned(c: map<ObjString, Value>, objects: seq<ObjRef>) {
    (forall k :: k in c ==> WellFormed(k) && c[k] == NilVal && k.addr in objects)
    && (forall k1, k2 :: k1 in c && k2 in c && Content(k1) == Content(k2) ==> k1 == k2)
    && (forall k1, k2 :: k1 in c && k2 in c && k1.addr == k2.addr ==> k1 == k2)
  }

  /** Some string in the table has this text. */
  ghost predicate HasText(c: map<ObjString, Value>, text: seq<bv8>) {
    exists k :: k in c && Content(k) == text
  }

  /** For a well-formed key, tableFindString's match on length, hash and bytes is equality of texts. */
  lemma MatchesIsSameText(k: ObjString, chars: seq<bv8>, length: nat)
    requires WellFormed(k) && |chars| >= length
    ensures Matches(k, chars, length, Fnv1a(chars[..length])) <==> Content(k) == chars[..length]
  {
    if Content(k) == chars[..length] {
      assert |Content(k)| == k.length;
    }
  }

  /** A table lookup that found no match means no interned string has the text. */
  lemma NoMatchNoText(c: map<ObjString, Value>, objects: seq<ObjRef>, chars: seq<bv8>, length: nat)
    requires Interned(c, objects) && |chars| >= length
    requires forall k :: k in c ==> !Matches(k, chars, length, Fnv1a(chars[..length]))
    ensures !HasText(c, chars[..length])
  {
    forall k | k in c
      ensures Content(k) != chars[..length]
    {
      MatchesIsSameText(k, chars, length);
    }
  }

  /** Interning a string of new text at a new address keeps the table a set of distinct texts. */
  lemma InternFresh(c: map<ObjString, Value>, objects: seq<ObjRef>, s: ObjString)
    requires Interned(c, objects) && WellFormed(s) && s.addr !in objects && !HasText(c, Content(s))
    ensures Interned(c[s := NilVal], [s.addr] + objects)
  {
    assert forall k :: k in c ==> Content(k) != Content(s);
  }

  lemma NoDuplicatesCons(s: seq<ObjRef>, a: ObjRef)
    requires NoDuplicates(s) && a !in s
    ensures NoDuplicates([a] + s)
  {
  }

  /** Linking in one more object keeps the string table interned. */
  lemma InternedLonger(c: map<ObjString, Value>, objects: seq<ObjRef>, a: ObjRef)
    requires Interned(c, objects)
    ensures Interned(c, [a] + objects)
  {
    assert forall x :: x in objects ==> x in [a] + objects;
  }

  /**
   * The object side of the VM: `objects` is the intrusive list of every
   * allocated object, head first; `strings` is the interning table;
   * `nextAddr` bounds every address handed out so far.
   */
  class Heap {
    var objects: seq<ObjRef>
    var strings: Table
    var nextAddr: nat

    ghost predicate Valid()
      reads this, strings, strings.entries
    {
      strings.Valid() && NoDuplicates(objects) && (forall a :: a in objects ==> a < nextAddr)
      && Interned(strings.Contents(), objects)
    }

    constructor ()
      ensures Valid() && objects == [] && strings.Contents() == map[]
    {
      objects := [];
      strings := new Table();
      nextAddr := 0;
    }

    /** allocateObject: a new object at an address not yet in use, linked in at the head of the list. */
    method AllocateObject() returns (addr: ObjRef)
      requires Valid()
      modifies this
      ensures Valid() && strings == old(strings) && strings.Contents() == old(strings.Contents())
      ensures addr !in old(objects) && objects == [addr] + old(objects)
    {
      addr := nextAddr;
      nextAddr := nextAddr + 1;
      InternedLonger(strings.Contents(), objects, addr);
      NoDuplicatesCons(objects, addr);
      objects := [addr] + objects;
    }

    /** allocateString: a new string object adopting `chars`, entered into the string table with a nil value. */
    method AllocateString(chars: seq<bv8>, length: nat, hash: bv32) returns (s: ObjString)
      requires Valid() && |chars| == length + 1 && hash == Fnv1a(chars[..length])
      requires !HasText(strings.Contents(), chars[..length])
      modifies this, strings, strings.entries
      ensures Valid() && strings == old(strings)
      ensures s.length == length && s.chars == chars && s.hash == hash
      ensures s.addr !in old(objects) && objects == [s.addr] + old(objects)
      ensures strings.Contents() == old(strings.Contents())[s := NilVal]
    {
      var addr := AllocateObject();
      s := ObjString(addr, length, chars, hash);
      InternFresh(strings.Contents(), old(objects), s);
      var _ := strings.Set(s, NilVal);
    }

    /**
     * copyString: the interned string with this text if there is one;
     * otherwise a new string over a copy of the text with a NUL after it.
     */
    method CopyString(chars: seq<bv8>, length: nat) returns (s: ObjString)
      requires Valid() && |chars| >= length
      modifies this, strings, strings.entries
      ensures Valid() && strings == old(strings) && s in strings.Contents()
      ensures WellFormed(s) && s.length == length && Content(s) == chars[..length]
      ensures HasText(old(strings.Contents()), chars[..length]) ==>
                s in old(strings.Contents()) && objects == old(objects) && strings.Contents() == old(strings.Contents())
      ensures !HasText(old(strings.Contents()), chars[..length]) ==>
                s.chars == chars[..length] + [0] && s.addr !in old(objects) && objects == [s.addr] + old(objects)
                && strings.Contents() == old(strings.Contents())[s := NilVal]
    {
      var hash := HashString(chars, length);
      var interned := strings.FindString(chars, length, hash);
      if interned.Some? {
        MatchesIsSameText(interned.value, chars, length);
        return interned.value;
      }
      NoMatchNoText(strings.Contents(), objects, chars, length);
      var heapChars := chars[..length] + [0];
      assert heapChars[..length] == chars[..length];
      s := AllocateString(heapChars, length, hash);
    }

    /**
     * takeString: the same interning as copyString, but the caller's
     * buffer of `length + 1` bytes is adopted as it is when the text is new.
     */
    method TakeString(chars: seq<bv8>, length: nat) returns (s: ObjString)
      requires Valid() && |chars| == length + 1
      modifies this, strings, strings.entries
      ensures Valid() && strings == old(strings) && s in strings.Contents()
      ensures WellFormed(s) && s.length == length && Content(s) == chars[..length]
      ensures HasText(old(strings.Contents()), chars[..length]) ==>
                s in old(strings.Contents()) && objects == old(objects) && strings.Contents() == old(strings.Contents())
      ensures !HasText(old(strings.Contents()), chars[..length]) ==>
                s.chars == chars && s.addr !in old(objects) && objects == [s.addr] + old(objects)
                && strings.Contents() == old(strings.Contents())[s := NilVal]
    {
      var hash := HashString(chars, length);
      var interned := strings.FindString(chars, length, hash);
      if interned.Some? {
        MatchesIsSameText(interned.value, chars, length);
        return interned.value;
      }
      NoMatchNoText(strings.Contents(), objects, chars, length);
      s := AllocateString(chars, length, hash);
    }
  }
}
