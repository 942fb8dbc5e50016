/**
 * clox's hash table (table.c): open addressing with linear probing over a
 * power-of-two array of entries, tombstones for deleted keys, and growth
 * before the load passes three quarters.
 */
module CloxTable {
  import opened Wrappers
  import opened CloxGrow
  import opened CloxValue

  /** A bucket. No key and a nil value is empty; no key and any other value is a tombstone. */
  datatype Entry = Entry(key: Option<ObjString>, value: Value)

  const Empty := Entry(None, NilVal)
  const Tombstone := Entry(None, BoolVal(true))

  predicate IsEmpty(e: Entry) {
    e.key.None? && e.value.NilVal?
  }

  predicate IsTombstone(e: Entry) {
    e.key.None? && !e.value.NilVal?
  }

  // ---------------------------------------------------------------------
  // Probe order

  /**
   * The bucket a hash maps to. C masks with capacity - 1; since every
   * non-zero capacity is a power of two, that is the remainder.
   */
  function Home(hash: bv32, capacity: nat): (h: nat)
    requires capacity > 0
    ensures h < capacity
  {
    (hash as int) % capacity
  }

  /** The bucket `d` steps after `home`, wrapping at the end of the array. */
  function Slot(home: nat, d: nat, capacity: nat): (i: nat)
    requires home < capacity && d < capacity
    ensures i < capacity
  {
    if home + d < capacity then home + d else home + d - capacity
  }

  /** How many steps from `home` the probe needs to reach bucket `i`. */
  function Dist(home: nat, i: nat, capacity: nat): (d: nat)
    requires home < capacity && i < capacity
    ensures d < capacity && Slot(home, d, capacity) == i
  {
    if home <= i then i - home else i + capacity - home
  }

  lemma DistOfSlot(home: nat, d: nat, capacity: nat)
    requires home < capacity && d < capacity
    ensures Dist(home, Slot(home, d, capacity), capacity) == d
  {
  }

  /** No bucket among the first `n` steps from `home` is empty. */
  ghost predicate NoGap(es: seq<Entry>, home: nat, n: nat)
    requires home < |es| && n <= |es|
  {
    forall d :: 0 <= d < n ==> !IsEmpty(es[Slot(home, d, |es|)])
  }

  predicate IsStop(e: Entry, key: ObjString) {
    e.key == Some(key) || IsEmpty(e)
  }

  ghost predicate HasEmpty(es: seq<Entry>) {
    exists i :: 0 <= i < |es| && IsEmpty(es[i])
  }

  // ---------------------------------------------------------------------
  // The table invariant and the map it stands for

  ghost predicate KeysUnique(es: seq<Entry>) {
    forall i, j :: 0 <= i < |es| && 0 <= j < |es| && es[i].key.Some? && es[i].key == es[j].key ==> i == j
  }

  /**
   * Every key can be found from its home bucket: no empty bucket lies on
   * the probe path between its home and where it sits.
   */
  ghost predicate Reachable(es: seq<Entry>) {
    forall i :: 0 <= i < |es| && es[i].key.Some? ==>
      var h := Home(es[i].key.value.hash, |es|); NoGap(es, h, Dist(h, i, |es|))
  }

  ghost predicate TableInvariant(es: seq<Entry>) {
    KeysUnique(es) && Reachable(es)
  }

  /** The key-to-value map the buckets hold. */
  ghost function MapOf(es: seq<Entry>): map<ObjString, Value>
    requires KeysUnique(es)
  {
    map i | 0 <= i < |es| && es[i].key.Some? :: es[i].key.value := es[i].value
  }

  /** The number of buckets that are not empty: live keys and tombstones. */
  function Used(es: seq<Entry>): (n: nat)
    ensures n <= |es|
  {
    if es == [] then 0 else Used(es[..|es| - 1]) + if IsEmpty(es[|es| - 1]) then 0 else 1
  }

  /** The number of buckets holding a key. */
  function Live(es: seq<Entry>): (n: nat)
    ensures n <= Used(es)
  {
    if es == [] then 0 else Live(es[..|es| - 1]) + if es[|es| - 1].key.Some? then 1 else 0
  }

  // ---------------------------------------------------------------------
  // Where findEntry stops

  /** With no empty bucket among the first d + 1 steps, the table has at least d + 2 buckets. */
  lemma {:induction false} GapBeforeWrap(es: seq<Entry>, home: nat, d: nat)
    requires home < |es| && d < |es| && HasEmpty(es)
    requires forall j :: 0 <= j <= d ==> !IsEmpty(es[Slot(home, j, |es|)])
    ensures d + 1 < |es|
  {
    var i :| 0 <= i < |es| && IsEmpty(es[i]);
    var j := Dist(home, i, |es|);
    assert es[Slot(home, j, |es|)] == es[i];
  }

  lemma {:induction false} StopsBeforeWrap(es: seq<Entry>, key: ObjString, home: nat, d: nat)
    requires home < |es| && d < |es| && HasEmpty(es)
    requires forall j :: 0 <= j <= d ==> !IsStop(es[Slot(home, j, |es|)], key)
    ensures d + 1 < |es|
  {
    var i :| 0 <= i < |es| && IsEmpty(es[i]);
    var j := Dist(home, i, |es|);
    assert IsStop(es[Slot(home, j, |es|)], key);
  }

  /** The first step, from `d` on, at which the probe for `key` meets the key or an empty bucket. */
  function StopFrom(es: seq<Entry>, key: ObjString, home: nat, d: nat): (n: nat)
    requires home < |es| && d < |es| && HasEmpty(es)
    requires forall j :: 0 <= j < d ==> !IsStop(es[Slot(home, j, |es|)], key)
    ensures d <= n < |es| && IsStop(es[Slot(home, n, |es|)], key)
    ensures forall j :: 0 <= j < n ==> !IsStop(es[Slot(home, j, |es|)], key)
    decreases |es| - d
  {
    if IsStop(es[Slot(home, d, |es|)], key) then d
    else
      StopsBeforeWrap(es, key, home, d);
      StopFrom(es, key, home, d + 1)
  }

  /** The probe that meets its first stop at step d stops there. */
  lemma StopAt(es: seq<Entry>, key: ObjString, home: nat, d: nat)
    requires home < |es| && d < |es| && HasEmpty(es)
    requires forall j :: 0 <= j < d ==> !IsStop(es[Slot(home, j, |es|)], key)
    requires IsStop(es[Slot(home, d, |es|)], key)
    ensures StopFrom(es, key, home, 0) == d
  {
  }

  /** One more step along the probe is the next bucket, wrapping to 0. */
  lemma SlotNext(home: nat, d: nat, capacity: nat)
    requires home < capacity && d + 1 < capacity
    ensures Slot(home, d + 1, capacity) == if Slot(home, d, capacity) + 1 < capacity then Slot(home, d, capacity) + 1 else 0
  {
  }

  /** The first step before `n` at which the probe meets a tombstone, if any. */
  function FirstTombstone(es: seq<Entry>, home: nat, n: nat): (t: Option<nat>)
    requires home < |es| && n <= |es|
    ensures t.Some? ==> t.value < n && IsTombstone(es[Slot(home, t.value, |es|)])
    ensures forall j :: 0 <= j < (if t.Some? then t.value else n) ==> !IsTombstone(es[Slot(home, j, |es|)])
    decreases n
  {
    if n == 0 then None
    else
      var t := FirstTombstone(es, home, n - 1);
      if t.Some? then t
      else if IsTombstone(es[Slot(home, n - 1, |es|)]) then Some(n - 1)
      else None
  }

  /**
   * The bucket findEntry returns for `key`: the bucket holding the key if
   * the probe meets it before an empty bucket; otherwise the first
   * tombstone on the way, or else the empty bucket that ended the probe.
   */
  function FindSlot(es: seq<Entry>, key: ObjString): (r: nat)
    requires |es| > 0 && HasEmpty(es)
    ensures r < |es| && (es[r].key == Some(key) || es[r].key.None?)
    ensures var h := Home(key.hash, |es|); NoGap(es, h, Dist(h, r, |es|))
  {
    var h := Home(key.hash, |es|);
    var n := StopFrom(es, key, h, 0);
    var t := FirstTombstone(es, h, n);
    var r := if es[Slot(h, n, |es|)].key == Some(key) then Slot(h, n, |es|)
             else if t.Some? then Slot(h, t.value, |es|) else Slot(h, n, |es|);
    DistOfSlot(h, n, |es|);
    if t.Some? then DistOfSlot(h, t.value, |es|); r else r
  }

  /** In a valid table, findEntry returns the key's bucket exactly when the key is present. */
  lemma FindSlotFinds(es: seq<Entry>, key: ObjString)
    requires |es| > 0 && HasEmpty(es) && TableInvariant(es)
    ensures es[FindSlot(es, key)].key == Some(key) <==> key in MapOf(es)
  {
    var h := Home(key.hash, |es|);
    var n := StopFrom(es, key, h, 0);
    if key in MapOf(es) {
      var j :| 0 <= j < |es| && es[j].key == Some(key);
      var dj := Dist(h, j, |es|);
      forall d | 0 <= d < dj
        ensures !IsStop(es[Slot(h, d, |es|)], key)
      {
        DistOfSlot(h, d, |es|);
      }
      assert n == dj;
    }
  }

  // ---------------------------------------------------------------------
  // Writing one bucket

  lemma MapOfHas(es: seq<Entry>, i: nat)
    requires KeysUnique(es) && i < |es| && es[i].key.Some?
    ensures es[i].key.value in MapOf(es) && MapOf(es)[es[i].key.value] == es[i].value
  {
  }

  /** Writing bucket i replaces what it held in the map by what it holds now. */
  lemma MapOfWrite(es: seq<Entry>, i: nat, e: Entry)
    requires i < |es| && KeysUnique(es) && KeysUnique(es[i := e])
    ensures MapOf(es[i := e]) == WriteMap(MapOf(es), es[i], e)
  {
    MapOfWriteOld(es, i, e);
    MapOfWriteNew(es, i, e);
  }

  lemma MapOfWriteOld(es: seq<Entry>, i: nat, e: Entry)
    requires i < |es| && KeysUnique(es) && KeysUnique(es[i := e])
    ensures var rhs := WriteMap(MapOf(es), es[i], e);
      forall k :: k in MapOf(es[i := e]) ==> k in rhs && rhs[k] == MapOf(es[i := e])[k]
  {
    var es' := es[i := e];
    var lhs := MapOf(es');
    var rhs := WriteMap(MapOf(es), es[i], e);
    forall k | k in lhs
      ensures k in rhs && rhs[k] == lhs[k]
    {
      var j :| 0 <= j < |es'| && es'[j].key == Some(k);
      MapOfHas(es', j);
      if j != i {
        assert !(es'[i].key.Some? && es'[i].key == es'[j].key);
        assert !(es[i].key.Some? && es[i].key == es[j].key);
        MapOfHas(es, j);
      }
    }
  }

  lemma MapOfWriteNew(es: seq<Entry>, i: nat, e: Entry)
    requires i < |es| && KeysUnique(es) && KeysUnique(es[i := e])
    ensures forall k :: k in WriteMap(MapOf(es), es[i], e) ==> k in MapOf(es[i := e])
  {
    var es' := es[i := e];
    forall k | k in WriteMap(MapOf(es), es[i], e)
      ensures k in MapOf(es')
    {
      if e.key == Some(k) {
        MapOfHas(es', i);
      } else {
        var j :| 0 <= j < |es| && es[j].key == Some(k);
        assert es'[j] == es[j];
        MapOfHas(es', j);
      }
    }
  }

  /** The map after a bucket that held `was` comes to hold `now`. */
  ghost function WriteMap(m: map<ObjString, Value>, was: Entry, now: Entry): map<ObjString, Value> {
    (if was.key.Some? then m - {was.key.value} else m)
    + (if now.key.Some? then map[now.key.value := now.value] else map[])
  }

  /** Writing a non-empty entry keeps the invariant, provided a new key is reachable where it lands. */
  lemma InvariantAfterWrite(es: seq<Entry>, i: nat, e: Entry)
    requires TableInvariant(es) && i < |es| && !IsEmpty(e)
    requires e.key.Some? ==> forall j :: 0 <= j < |es| && j != i ==> es[j].key != e.key
    requires e.key.Some? ==> var h := Home(e.key.value.hash, |es|); NoGap(es, h, Dist(h, i, |es|))
    ensures TableInvariant(es[i := e])
  {
    var es' := es[i := e];
    forall j | 0 <= j < |es'| && es'[j].key.Some?
      ensures var h := Home(es'[j].key.value.hash, |es'|); NoGap(es', h, Dist(h, j, |es'|))
    {
      var h := Home(es'[j].key.value.hash, |es'|);
      assert NoGap(es, h, Dist(h, j, |es|));
    }
  }

  lemma {:induction false} UsedWrite(es: seq<Entry>, i: nat, e: Entry)
    requires i < |es|
    ensures Used(es[i := e]) == Used(es) - (if IsEmpty(es[i]) then 0 else 1) + (if IsEmpty(e) then 0 else 1)
    ensures Live(es[i := e]) == Live(es) - (if es[i].key.Some? then 1 else 0) + (if e.key.Some? then 1 else 0)
  {
    var es' := es[i := e];
    if i < |es| - 1 {
      assert es'[..|es'| - 1] == es[..|es| - 1][i := e];
      UsedWrite(es[..|es| - 1], i, e);
    } else {
      assert es'[..|es'| - 1] == es[..|es| - 1];
    }
  }

  /** A table with fewer used buckets than buckets has an empty one. */
  lemma {:induction false} EmptyExists(es: seq<Entry>)
    requires Used(es) < |es|
    ensures HasEmpty(es)
  {
    var p := es[..|es| - 1];
    if !IsEmpty(es[|es| - 1]) {
      EmptyExists(p);
      var i :| 0 <= i < |p| && IsEmpty(p[i]);
      assert es[i] == p[i];
    }
  }

  lemma RemoveAbsent(m: map<ObjString, Value>, key: ObjString)
    requires key !in m
    ensures m - {key} == m
  {
  }

  /** An array of empty buckets is a valid table holding nothing. */
  lemma {:induction false} AllEmpty(es: seq<Entry>)
    requires forall i :: 0 <= i < |es| ==> IsEmpty(es[i])
    ensures TableInvariant(es) && MapOf(es) == map[] && Used(es) == 0
  {
    if es != [] {
      var p := es[..|es| - 1];
      assert forall i :: 0 <= i < |p| ==> p[i] == es[i];
      AllEmpty(p);
    }
  }

  /**
   * Storing `key` into the bucket findEntry picks keeps the invariant,
   * maps the key to the new value, and uses one more bucket exactly when
   * that bucket was empty.
   */
  lemma StoreKey(es: seq<Entry>, key: ObjString, value: Value)
    requires |es| > 0 && HasEmpty(es) && TableInvariant(es)
    ensures var i := FindSlot(es, key); var es' := es[i := Entry(Some(key), value)];
      && TableInvariant(es') && MapOf(es') == MapOf(es)[key := value]
      && Used(es') == Used(es) + (if IsEmpty(es[i]) then 1 else 0)
      && Live(es') == Live(es) + (if es[i].key.None? then 1 else 0)
      && (es[i].key.None? <==> key !in MapOf(es))
  {
    var i := FindSlot(es, key);
    var e := Entry(Some(key), value);
    FindSlotFinds(es, key);
    forall j | 0 <= j < |es| && j != i
      ensures es[j].key != e.key
    {
      if es[j].key.Some? {
        MapOfHas(es, j);
      }
    }
    InvariantAfterWrite(es, i, e);
    MapOfWrite(es, i, e);
    WriteMapSame(MapOf(es), es[i], key, value);
    UsedWrite(es, i, e);
  }

  lemma WriteMapSame(m: map<ObjString, Value>, was: Entry, key: ObjString, value: Value)
    requires was.key.Some? ==> was.key == Some(key)
    ensures WriteMap(m, was, Entry(Some(key), value)) == m[key := value]
  {
  }

  /**
   * Replacing a present key's bucket by a tombstone keeps the invariant,
   * removes the key, and uses as many buckets as before; no other bucket
   * holds the key.
   */
  lemma StoreTombstone(es: seq<Entry>, key: ObjString)
    requires |es| > 0 && HasEmpty(es) && TableInvariant(es) && key in MapOf(es)
    ensures var i := FindSlot(es, key); var es' := es[i := Tombstone];
      && es[i].key == Some(key) && (forall j :: 0 <= j < |es| && es[j].key == Some(key) ==> j == i)
      && TableInvariant(es') && MapOf(es') == MapOf(es) - {key} && Used(es') == Used(es)
  {
    var i := FindSlot(es, key);
    var es' := es[i := Tombstone];
    FindSlotFinds(es, key);
    InvariantAfterWrite(es, i, Tombstone);
    assert TableInvariant(es');
    MapOfWrite(es, i, Tombstone);
    assert WriteMap(MapOf(es), es[i], Tombstone) == MapOf(es) - {key};
    UsedWrite(es, i, Tombstone);
  }

  ghost predicate NoTombstones(es: seq<Entry>) {
    forall j :: 0 <= j < |es| ==> !IsTombstone(es[j])
  }

  /**
   * One step of adjustCapacity: the live entry at position i of the old
   * buckets lands in an empty bucket of the new ones, which then hold the
   * first i + 1 old buckets' map.
   */
  lemma Reinsert(oes: seq<Entry>, i: nat, before: seq<Entry>)
    requires KeysUnique(oes) && i < |oes| && oes[i].key.Some?
    requires |before| > 0 && HasEmpty(before) && TableInvariant(before) && NoTombstones(before)
    requires KeysUnique(oes[..i]) && MapOf(before) == MapOf(oes[..i])
    ensures var dest := FindSlot(before, oes[i].key.value); var after := before[dest := oes[i]];
      && IsEmpty(before[dest]) && TableInvariant(after) && NoTombstones(after)
      && KeysUnique(oes[..i + 1]) && MapOf(after) == MapOf(oes[..i + 1]) && Used(after) == Used(before) + 1
  {
    var key := oes[i].key.value;
    forall j | 0 <= j < i
      ensures oes[..i][j].key != Some(key)
    {
      assert oes[..i][j] == oes[j];
    }
    assert key !in MapOf(before);
    StoreKey(before, key, oes[i].value);
    MapOfPrefix(oes, i);
    var dest := FindSlot(before, key);
    var after := before[dest := oes[i]];
    assert oes[i] == Entry(Some(key), oes[i].value);
    forall j | 0 <= j < |after|
      ensures !IsTombstone(after[j])
    {
      if j != dest {
        assert after[j] == before[j];
      }
    }
  }

  /** A table with no used bucket holds no key. */
  lemma {:induction false} UsedZero(es: seq<Entry>)
    requires Used(es) == 0
    ensures forall i :: 0 <= i < |es| ==> IsEmpty(es[i])
    ensures KeysUnique(es) && MapOf(es) == map[]
  {
    if es != [] {
      var p := es[..|es| - 1];
      UsedZero(p);
      assert forall i :: 0 <= i < |p| ==> es[i] == p[i];
    }
  }

  lemma KeysUniquePrefix(es: seq<Entry>, n: nat)
    requires KeysUnique(es) && n <= |es|
    ensures KeysUnique(es[..n])
  {
    assert forall i :: 0 <= i < n ==> es[..n][i] == es[i];
  }

  /** Taking one more bucket of a prefix adds its key, if any, to the map. */
  lemma MapOfPrefix(es: seq<Entry>, n: nat)
    requires KeysUnique(es) && n < |es|
    ensures KeysUnique(es[..n]) && KeysUnique(es[..n + 1])
    ensures MapOf(es[..n + 1]) == if es[n].key.Some? then MapOf(es[..n])[es[n].key.value := es[n].value] else MapOf(es[..n])
  {
    KeysUniquePrefix(es, n);
    KeysUniquePrefix(es, n + 1);
    assert es[..n + 1] == es[..n] + [es[n]];
    MapOfSnoc(es[..n], es[n]);
  }

  /** The map of buckets `p` followed by `e`. */
  lemma MapOfSnoc(p: seq<Entry>, e: Entry)
    requires KeysUnique(p) && KeysUnique(p + [e])
    ensures MapOf(p + [e]) == if e.key.Some? then MapOf(p)[e.key.value := e.value] else MapOf(p)
  {
    MapOfSnocOld(p, e);
    MapOfSnocNew(p, e);
  }

  lemma MapOfSnocOld(p: seq<Entry>, e: Entry)
    requires KeysUnique(p) && KeysUnique(p + [e])
    ensures var r := if e.key.Some? then MapOf(p)[e.key.value := e.value] else MapOf(p);
      forall k :: k in MapOf(p + [e]) ==> k in r && r[k] == MapOf(p + [e])[k]
  {
    var q := p + [e];
    var r := if e.key.Some? then MapOf(p)[e.key.value := e.value] else MapOf(p);
    forall k | k in MapOf(q)
      ensures k in r && r[k] == MapOf(q)[k]
    {
      if e.key == Some(k) {
        MapOfHas(q, |p|);
      } else {
        var j :| 0 <= j < |q| && q[j].key == Some(k);
        assert j < |p| && q[j] == p[j];
        MapOfHas(p, j);
        MapOfHas(q, j);
      }
    }
  }

  lemma MapOfSnocNew(p: seq<Entry>, e: Entry)
    requires KeysUnique(p) && KeysUnique(p + [e])
    ensures var r := if e.key.Some? then MapOf(p)[e.key.value := e.value] else MapOf(p);
      forall k :: k in r ==> k in MapOf(p + [e])
  {
    var q := p + [e];
    var r := if e.key.Some? then MapOf(p)[e.key.value := e.value] else MapOf(p);
    forall k | k in r
      ensures k in MapOf(q)
    {
      if e.key == Some(k) {
        MapOfHas(q, |p|);
      } else {
        var j :| 0 <= j < |p| && p[j].key == Some(k);
        assert q[j] == p[j];
        MapOfHas(q, j);
      }
    }
  }

  lemma LivePrefix(es: seq<Entry>, n: nat)
    requires n < |es|
    ensures Live(es[..n + 1]) == Live(es[..n]) + if es[n].key.Some? then 1 else 0
  {
    assert es[..n + 1][..n] == es[..n];
  }

  /** A string key matches the characters tableFindString looks for. */
  predicate Matches(k: ObjString, chars: seq<bv8>, length: nat, hash: bv32) {
    k.length == length && k.hash == hash && |k.chars| >= length && |chars| >= length
    && k.chars[..length] == chars[..length]
  }

  // ---------------------------------------------------------------------
  // The table

  /**
   * Table: `entries` is the bucket array (a zero-length array stands for
   * NULL) and `count` the number of buckets in use, tombstones included.
   */
  class Table {
    var count: nat
    var capacity: nat
    var entries: array<Entry>

    ghost predicate Valid()
      reads this, entries
    {
      entries.Length == capacity && IsBufferCapacity(capacity)
      && TableInvariant(entries[..]) && count == Used(entries[..]) && 4 * count <= 3 * capacity
    }

    /** The key-to-value map the table stands for. */
    ghost function Contents(): map<ObjString, Value>
      reads this, entries
      requires Valid()
    {
      MapOf(entries[..])
    }

    /** initTable. */
    constructor ()
      ensures Valid() && Contents() == map[] && count == 0 && capacity == 0
    {
      count, capacity := 0, 0;
      entries := new Entry[0];
    }

    /** freeTable: release the buckets and start over empty. */
    method Free()
      modifies this
      ensures Valid() && Contents() == map[] && count == 0 && capacity == 0
    {
      entries := new Entry[0];
      count, capacity := 0, 0;
    }

    /**
     * findEntry: probe from the key's home bucket, remembering the first
     * tombstone, until the key or an empty bucket turns up.
     */
    static method FindEntry(entries: array<Entry>, key: ObjString) returns (index: nat)
      requires entries.Length > 0 && HasEmpty(entries[..])
      ensures index == FindSlot(entries[..], key)
    {
      ghost var es := entries[..];
      var capacity := entries.Length;
      var home := Home(key.hash, capacity);
      index := home;
      var tombstone: Option<nat> := None;
      ghost var d := 0;
      while true
        invariant d < capacity && index == Slot(home, d, capacity)
        invariant forall j :: 0 <= j < d ==> !IsStop(es[Slot(home, j, capacity)], key)
        invariant var t := FirstTombstone(es, home, d);
          tombstone.Some? == t.Some? && (t.Some? ==> tombstone.value == Slot(home, t.value, capacity))
        decreases capacity - d
      {
        var entry := entries[index];
        if entry.key.None? {
          if entry.value.NilVal? {
            StopAt(es, key, home, d);
            index := if tombstone.Some? then tombstone.value else index;
            return;
          } else if tombstone.None? {
            tombstone := Some(index);
          }
        } else if entry.key == Some(key) {
          StopAt(es, key, home, d);
          return;
        }
        StopsBeforeWrap(es, key, home, d);
        SlotNext(home, d, capacity);
        index := if index + 1 < capacity then index + 1 else 0;
        d := d + 1;
      }
    }

    /**
     * tableGet: look the key up; `value` is left as it was when the key is
     * absent.
     */
    method Get(key: ObjString, value: Value) returns (found: bool, result: Value)
      requires Valid()
      ensures found <==> key in Contents()
      ensures result == if found then Contents()[key] else value
    {
      if count == 0 {
        UsedZero(entries[..]);
        return false, value;
      }
      EmptyExists(entries[..]);
      var i := FindEntry(entries, key);
      FindSlotFinds(entries[..], key);
      if entries[i].key.None? {
        return false, value;
      }
      MapOfHas(entries[..], i);
      return true, entries[i].value;
    }

    /**
     * adjustCapacity: re-insert every live entry into a fresh array of
     * empty buckets; tombstones are dropped and `count` becomes the
     * number of live keys.
     */
    method AdjustCapacity(newCapacity: nat)
      requires Valid() && newCapacity == GrowCapacity(capacity)
      modifies this
      ensures Valid() && Contents() == old(Contents())
      ensures capacity == newCapacity && count == Live(old(entries[..])) && fresh(entries)
      ensures NoTombstones(entries[..])
    {
      var buckets, live := Rehash(entries, newCapacity);
      entries := buckets;
      capacity := newCapacity;
      count := live;
    }

    /** The loop of adjustCapacity, over the old bucket array and a fresh one. */
    static method Rehash(oldEntries: array<Entry>, newCapacity: nat) returns (buckets: array<Entry>, live: nat)
      requires KeysUnique(oldEntries[..]) && oldEntries.Length < newCapacity
      ensures fresh(buckets) && buckets.Length == newCapacity
      ensures TableInvariant(buckets[..]) && MapOf(buckets[..]) == MapOf(oldEntries[..])
      ensures live == Live(oldEntries[..]) == Used(buckets[..]) && NoTombstones(buckets[..])
    {
      buckets := new Entry[newCapacity](_ => Empty);
      ghost var oes := oldEntries[..];
      live := 0;
      var i := 0;
      assert oes[..0] == [];
      AllEmpty(buckets[..]);
      while i < oldEntries.Length
        invariant 0 <= i <= oldEntries.Length && oldEntries[..] == oes
        invariant TableInvariant(buckets[..]) && NoTombstones(buckets[..])
        invariant KeysUnique(oes[..i]) && MapOf(buckets[..]) == MapOf(oes[..i])
        invariant live == Live(oes[..i]) == Used(buckets[..])
      {
        MapOfPrefix(oes, i);
        LivePrefix(oes, i);
        var entry := oldEntries[i];
        if entry.key.Some? {
          EmptyExists(buckets[..]);
          var dest := FindEntry(buckets, entry.key.value);
          ghost var before := buckets[..];
          Reinsert(oes, i, before);
          buckets[dest] := entry;
          assert buckets[..] == before[dest := entry];
          live := live + 1;
        }
        i := i + 1;
      }
      assert oes[..oldEntries.Length] == oes;
    }

    /**
     * tableSet: grow before the load would pass three quarters, then
     * store into the bucket findEntry picks. Only filling an empty bucket
     * (not reusing a tombstone) raises `count`. Returns whether the key
     * was new.
     */
    method Set(key: ObjString, value: Value) returns (isNewKey: bool)
      requires Valid()
      modifies this, entries
      ensures Valid() && Contents() == old(Contents())[key := value]
      ensures isNewKey <==> key !in old(Contents())
      ensures capacity == if 4 * (old(count) + 1) > 3 * old(capacity) then GrowCapacity(old(capacity)) else old(capacity)
      ensures entries == old(entries) || fresh(entries)
      ensures 4 * (old(count) + 1) <= 3 * old(capacity) ==>
        HasEmpty(old(entries[..])) &&
        count == old(count) + (if IsEmpty(old(entries[..])[FindSlot(old(entries[..]), key)]) then 1 else 0)
      ensures 4 * (old(count) + 1) > 3 * old(capacity) ==> count == Live(old(entries[..])) + (if isNewKey then 1 else 0)
    {
      if 4 * (count + 1) > 3 * capacity {
        AdjustCapacity(GrowCapacity(capacity));
        EmptyExists(entries[..]);
        var i := FindSlot(entries[..], key);
        FindSlotFinds(entries[..], key);
        assert !IsTombstone(entries[..][i]);
      }
      isNewKey := Store(key, value);
    }

    /** The second half of tableSet: with room for one more bucket, store into the one findEntry picks. */
    method Store(key: ObjString, value: Value) returns (isNewKey: bool)
      requires Valid() && 4 * (count + 1) <= 3 * capacity
      modifies this, entries
      ensures Valid() && Contents() == old(Contents())[key := value]
      ensures isNewKey <==> key !in old(Contents())
      ensures capacity == old(capacity) && entries == old(entries)
      ensures HasEmpty(old(entries[..]))
      ensures var i := FindSlot(old(entries[..]), key);
        entries[..] == old(entries[..])[i := Entry(Some(key), value)]
        && count == old(count) + (if IsEmpty(old(entries[..])[i]) then 1 else 0)
    {
      ghost var es := entries[..];
      EmptyExists(es);
      var i := FindEntry(entries, key);
      StoreKey(es, key, value);
      isNewKey := entries[i].key.None?;
      if isNewKey && entries[i].value.NilVal? {
        count := count + 1;
      }
      entries[i] := Entry(Some(key), value);
      assert entries[..] == es[i := Entry(Some(key), value)];
      assert TableInvariant(entries[..]) && count == Used(entries[..]);
    }

    /**
     * tableDelete: replace the key's bucket by a tombstone. `count` is
     * left alone, and no other bucket changes. Returns whether the key was
     * present.
     */
    method Delete(key: ObjString) returns (found: bool)
      requires Valid()
      modifies entries
      ensures Valid() && Contents() == old(Contents()) - {key}
      ensures found <==> key in old(Contents())
      ensures found ==> exists i :: 0 <= i < entries.Length && old(entries[..])[i].key == Some(key) && entries[..] == old(entries[..])[i := Tombstone]
      ensures !found ==> entries[..] == old(entries[..])
    {
      if count == 0 {
        UsedZero(entries[..]);
        RemoveAbsent(Contents(), key);
        return false;
      }
      ghost var es := entries[..];
      EmptyExists(es);
      var i := FindEntry(entries, key);
      FindSlotFinds(es, key);
      if entries[i].key.None? {
        RemoveAbsent(Contents(), key);
        return false;
      }
      StoreTombstone(es, key);
      entries[i] := Tombstone;
      assert entries[..] == es[i := Tombstone];
      return true;
    }

    /**
     * tableAddAll: set every key of `from` into `to` (used to copy
     * inherited methods into a subclass).
     */
    static method AddAll(from: Table, to: Table)
      requires from.Valid() && to.Valid() && from != to && from.entries != to.entries
      modifies to, to.entries
      ensures to.Valid() && to.Contents() == old(to.Contents()) + old(from.Contents())
    {
      ghost var fes := from.entries[..];
      ghost var start := to.Contents();
      var i := 0;
      assert fes[..0] == [];
      while i < from.capacity
        invariant 0 <= i <= from.capacity == |fes| == from.entries.Length && from.entries[..] == fes
        invariant to.Valid() && (to.entries == old(to.entries) || fresh(to.entries))
        invariant KeysUnique(fes) && KeysUnique(fes[..i]) && to.Contents() == start + MapOf(fes[..i])
      {
        MapOfPrefix(fes, i);
        var entry := from.entries[i];
        StoreEntry(to, entry);
        if entry.key.Some? {
          UpdateUnion(start, MapOf(fes[..i]), entry.key.value, entry.value);
        }
        i := i + 1;
      }
      assert fes[..from.capacity] == fes;
    }

    /** One bucket of tableAddAll: its key, if it has one, is set in `to`. */
    static method StoreEntry(to: Table, entry: Entry)
      requires to.Valid()
      modifies to, to.entries
      ensures to.Valid() && (to.entries == old(to.entries) || fresh(to.entries))
      ensures to.Contents() == if entry.key.Some? then old(to.Contents())[entry.key.value := entry.value] else old(to.Contents())
    {
      if entry.key.Some? {
        var _ := to.Set(entry.key.value, entry.value);
      }
    }

    /**
     * tableFindString: probe from the hash's home bucket for a key with
     * this length, hash and bytes, passing over tombstones; the first
     * empty bucket ends the search.
     */
    method FindString(chars: seq<bv8>, length: nat, hash: bv32) returns (r: Option<ObjString>)
      requires Valid() && |chars| >= length
      ensures r.Some? ==> r.value in Contents() && Matches(r.value, chars, length, hash)
      ensures r.None? ==> forall k :: k in Contents() ==> !Matches(k, chars, length, hash)
    {
      if count == 0 {
        UsedZero(entries[..]);
        return None;
      }
      ghost var es := entries[..];
      EmptyExists(es);
      var index := Home(hash, capacity);
      ghost var home := index;
      ghost var d := 0;
      while true
        invariant d < capacity && index == Slot(home, d, capacity)
        invariant forall j :: 0 <= j < d ==> !IsEmpty(es[Slot(home, j, capacity)]) && !MatchesEntry(es[Slot(home, j, capacity)], chars, length, hash)
        decreases capacity - d
      {
        var entry := entries[index];
        if entry.key.None? {
          if entry.value.NilVal? {
            NoMatchPastGap(es, chars, length, hash, d);
            return None;
          }
        } else if entry.key.value.length == length && entry.key.value.hash == hash
               && |entry.key.value.chars| >= length && entry.key.value.chars[..length] == chars[..length] {
          MapOfHas(es, index);
          return entry.key;
        }
        GapBeforeWrap(es, home, d);
        SlotNext(home, d, capacity);
        index := if index + 1 < capacity then index + 1 else 0;
        d := d + 1;
      }
    }

    /**
     * tableRemoveWhite: delete every key whose object the collector left
     * unmarked; `marked` is the set of marked objects.
     */
    method RemoveWhite(marked: set<ObjRef>)
      requires Valid()
      modifies entries
      ensures Valid() && Contents() == KeepMarked(old(Contents()), marked)
    {
      ghost var oes := entries[..];
      ghost var start := Contents();
      var i := 0;
      assert oes[..0] == [];
      while i < capacity
        invariant 0 <= i <= capacity == |oes| && Valid()
        invariant SameFrom(entries[..], oes, i) && MapOf(entries[..]) == start - Unmarked(oes[..i], marked)
      {
        var entry := entries[i];
        ghost var before := entries[..];
        if entry.key.Some? && entry.key.value.addr !in marked {
          var _ := Delete(entry.key.value);
        }
        RemoveWhiteStep(oes, i, before, entries[..], marked, start);
        i := i + 1;
      }
      assert oes[..capacity] == oes;
      KeepMarkedUnmarked(oes, marked);
    }
  }

  predicate MatchesEntry(e: Entry, chars: seq<bv8>, length: nat, hash: bv32) {
    e.key.Some? && Matches(e.key.value, chars, length, hash)
  }

  /**
   * A probe for (length, hash, bytes) that meets an empty bucket at step d,
   * having met no match before it, misses no key of the table.
   */
  lemma NoMatchPastGap(es: seq<Entry>, chars: seq<bv8>, length: nat, hash: bv32, d: nat)
    requires |es| > 0 && TableInvariant(es) && d < |es|
    requires var home := Home(hash, |es|);
      && IsEmpty(es[Slot(home, d, |es|)])
      && forall j :: 0 <= j < d ==> !MatchesEntry(es[Slot(home, j, |es|)], chars, length, hash)
    ensures forall k :: k in MapOf(es) ==> !Matches(k, chars, length, hash)
  {
    var home := Home(hash, |es|);
    forall k | k in MapOf(es)
      ensures !Matches(k, chars, length, hash)
    {
      var p :| 0 <= p < |es| && es[p].key == Some(k);
      var hk := Home(k.hash, |es|);
      var dp := Dist(hk, p, |es|);
      assert NoGap(es, hk, dp);
      if dp < d && k.hash == hash {
        assert es[Slot(home, dp, |es|)] == es[p];
      }
    }
  }

  lemma UpdateUnion(a: map<ObjString, Value>, b: map<ObjString, Value>, k: ObjString, v: Value)
    ensures (a + b)[k := v] == a + b[k := v]
  {
  }

  /**
   * One step of tableRemoveWhite, on the buckets `es` met at position i:
   * deleting an unmarked key there, or keeping any other bucket, extends
   * the removal to the first i + 1 old buckets, and touches no later bucket.
   */
  lemma RemoveWhiteStep(oes: seq<Entry>, i: nat, before: seq<Entry>, after: seq<Entry>, marked: set<ObjRef>, start: map<ObjString, Value>)
    requires i < |oes| && KeysUnique(before) && KeysUnique(after) && SameFrom(before, oes, i)
    requires MapOf(before) == start - Unmarked(oes[..i], marked)
    requires var e := before[i];
      if e.key.Some? && e.key.value.addr !in marked then
        && MapOf(after) == MapOf(before) - {e.key.value}
        && exists p :: 0 <= p < |before| && before[p].key == Some(e.key.value) && after == before[p := Tombstone]
      else after == before
    ensures SameFrom(after, oes, i + 1) && MapOf(after) == start - Unmarked(oes[..i + 1], marked)
  {
    UnmarkedPrefix(oes, i, marked);
    var e := before[i];
    if e.key.Some? && e.key.value.addr !in marked {
      var p :| 0 <= p < |before| && before[p].key == Some(e.key.value) && after == before[p := Tombstone];
      assert p == i;
      MinusMore(start, Unmarked(oes[..i], marked), e.key.value);
    }
  }

  /** The buckets from position i on are as they were. */
  ghost predicate SameFrom(es: seq<Entry>, oes: seq<Entry>, i: nat) {
    |es| == |oes| && forall j :: i <= j < |es| ==> es[j] == oes[j]
  }

  lemma MinusMore(m: map<ObjString, Value>, s: set<ObjString>, k: ObjString)
    ensures (m - s) - {k} == m - (s + {k})
  {
  }

  /** The live keys among `es` whose objects are not in `marked`. */
  ghost function Unmarked(es: seq<Entry>, marked: set<ObjRef>): set<ObjString> {
    set j | 0 <= j < |es| && es[j].key.Some? && es[j].key.value.addr !in marked :: es[j].key.value
  }

  /** The part of a map whose keys' objects are marked. */
  ghost function KeepMarked(m: map<ObjString, Value>, marked: set<ObjRef>): map<ObjString, Value> {
    map k | k in m && k.addr in marked :: m[k]
  }

  lemma UnmarkedPrefix(es: seq<Entry>, n: nat, marked: set<ObjRef>)
    requires n < |es|
    ensures Unmarked(es[..n + 1], marked)
      == Unmarked(es[..n], marked) + if es[n].key.Some? && es[n].key.value.addr !in marked then {es[n].key.value} else {}
  {
    assert forall j :: 0 <= j < n ==> es[..n + 1][j] == es[..n][j];
    assert es[..n + 1][n] == es[n];
  }

  lemma KeepMarkedUnmarked(es: seq<Entry>, marked: set<ObjRef>)
    requires KeysUnique(es)
    ensures MapOf(es) - Unmarked(es, marked) == KeepMarked(MapOf(es), marked)
  {
  }
}
