/**
 * clox memory management (memory.c): byte accounting in reallocate and
 * the mark-and-sweep collector, over an abstract heap that maps each
 * object's address to its kind-specific references and its size in bytes.
 */
module CloxMemory {
  import opened Wrappers
  import opened CloxGrow
  import opened CloxValue
  import opened CloxTable

  /** An `Obj*`: an object's address, or None for NULL. */
  type Ptr = Option<ObjRef>

  /** The fields blackenObject traces, per object kind. */
  datatype ObjBody =
    | BoundMethodObj(receiver: Value, boundMethod: Ptr)
    | ClassObj(name: Ptr, methods: seq<Entry>)
    | ClosureObj(closureFunction: Ptr, upvalues: seq<Ptr>)
    | FunctionObj(name: Ptr, constants: seq<Value>)
    | InstanceObj(klass: Ptr, fields: seq<Entry>)
    | UpvalueObj(closed: Value)
    | NativeObj
    | StringObj

  /** A heap object: what it references and the bytes freeObject gives back for it. */
  datatype HeapObj = HeapObj(body: ObjBody, bytes: nat)

  type Heap = map<ObjRef, HeapObj>

  // ---------------------------------------------------------------------
  // The references of an object, in the order blackenObject marks them

  /** markValue marks a value only when it is an object. */
  function ValuePtr(v: Value): Ptr {
    if v.ObjVal? then Some(v.obj) else None
  }

  /** markTable marks a bucket's key (NULL for an empty bucket or a tombstone) and then its value. */
  function KeyPtr(e: Entry): Ptr {
    if e.key.Some? then Some(e.key.value.addr) else None
  }

  function ValuePtrs(vs: seq<Value>): seq<Ptr> {
    if |vs| == 0 then [] else ValuePtrs(vs[..|vs| - 1]) + [ValuePtr(vs[|vs| - 1])]
  }

  function EntryPtrs(es: seq<Entry>): seq<Ptr> {
    if |es| == 0 then [] else EntryPtrs(es[..|es| - 1]) + [KeyPtr(es[|es| - 1]), ValuePtr(es[|es| - 1].value)]
  }

  function Ptrs(b: ObjBody): seq<Ptr> {
    match b
    case BoundMethodObj(receiver, boundMethod) => [ValuePtr(receiver), boundMethod]
    case ClassObj(name, methods) => [name] + EntryPtrs(methods)
    case ClosureObj(closureFunction, upvalues) => [closureFunction] + upvalues
    case FunctionObj(name, constants) => [name] + ValuePtrs(constants)
    case InstanceObj(klass, fields) => [klass] + EntryPtrs(fields)
    case UpvalueObj(closed) => [ValuePtr(closed)]
    case NativeObj => []
    case StringObj => []
  }

  /** `b` holds a reference to the object at `x`. */
  predicate RefersTo(b: ObjBody, x: ObjRef) {
    Some(x) in Ptrs(b)
  }

  // ---------------------------------------------------------------------
  // Marking: the mark flags and the gray stack

  /** The set of objects whose isMarked flag is set, and the gray stack, bottom first. */
  datatype Marks = Marks(marked: set<ObjRef>, gray: seq<ObjRef>)

  /** markObject: nothing for NULL or an already marked object; otherwise mark it and push it on the gray stack. */
  function MarkObj(s: Marks, p: Ptr): Marks {
    if p.None? || p.value in s.marked then s else Marks(s.marked + {p.value}, s.gray + [p.value])
  }

  /** markObject on each pointer in turn. */
  function MarkPtrs(s: Marks, ps: seq<Ptr>): Marks {
    if |ps| == 0 then s else MarkObj(MarkPtrs(s, ps[..|ps| - 1]), ps[|ps| - 1])
  }

  lemma {:induction false} MarkPtrsAppend(s: Marks, a: seq<Ptr>, b: seq<Ptr>)
    ensures MarkPtrs(s, a + b) == MarkPtrs(MarkPtrs(s, a), b)
    decreases |b|
  {
    if |b| == 0 {
      assert a + b == a;
    } else {
      assert (a + b)[..|a + b| - 1] == a + b[..|b| - 1];
      MarkPtrsAppend(s, a, b[..|b| - 1]);
    }
  }

  /**
   * `t` comes from `s` by marking more objects: the old gray stack is a
   * prefix of the new one, every pushed object was unmarked before and is
   * marked now, and every newly marked object was pushed.
   */
  ghost predicate Extends(s: Marks, t: Marks) {
    s.marked <= t.marked && |s.gray| <= |t.gray| && t.gray[..|s.gray|] == s.gray
    && (forall i :: |s.gray| <= i < |t.gray| ==> t.gray[i] in t.marked && t.gray[i] !in s.marked)
    && (forall x :: x in t.marked && x !in s.marked ==> x in t.gray[|s.gray|..])
  }

  lemma ExtendsTrans(s: Marks, t: Marks, u: Marks)
    requires Extends(s, t) && Extends(t, u)
    ensures Extends(s, u)
  {
    assert u.gray[..|s.gray|] == u.gray[..|t.gray|][..|s.gray|];
    forall x | x in u.marked && x !in s.marked
      ensures x in u.gray[|s.gray|..]
    {
      if x in t.marked {
        var i :| 0 <= i < |t.gray[|s.gray|..]| && t.gray[|s.gray|..][i] == x;
        assert u.gray[|s.gray| + i] == x;
      } else {
        var i :| 0 <= i < |u.gray[|t.gray|..]| && u.gray[|t.gray|..][i] == x;
        assert u.gray[|t.gray| + i] == x;
      }
    }
  }

  /**
   * Marking a list of pointers marks every non-NULL one, marks nothing
   * else, and pushes exactly the objects it newly marks.
   */
  lemma {:induction false} MarkPtrsMarks(s: Marks, ps: seq<Ptr>)
    ensures Extends(s, MarkPtrs(s, ps))
    ensures forall x :: Some(x) in ps ==> x in MarkPtrs(s, ps).marked
    ensures forall x :: x in MarkPtrs(s, ps).marked && x !in s.marked ==> Some(x) in ps
    decreases |ps|
  {
    if |ps| == 0 {
      assert s.gray[..|s.gray|] == s.gray;
    } else {
      var front := ps[..|ps| - 1];
      var mid := MarkPtrs(s, front);
      MarkPtrsMarks(s, front);
      var t := MarkObj(mid, ps[|ps| - 1]);
      assert Extends(mid, t) by {
        assert t.gray[..|mid.gray|] == mid.gray;
        if t != mid {
          assert t.gray[|mid.gray|..] == [ps[|ps| - 1].value];
        }
      }
      ExtendsTrans(s, mid, t);
      assert ps == front + [ps[|ps| - 1]];
    }
  }

  // ---------------------------------------------------------------------
  // Reachability

  /** Every reference of a heap object leads to a heap object. */
  ghost predicate Closed(heap: Heap) {
    forall b, x :: b in heap && RefersTo(heap[b].body, x) ==> x in heap
  }

  /** The references of every marked object are marked. */
  ghost predicate MarkedClosed(heap: Heap, marked: set<ObjRef>) {
    forall b, x :: b in marked && b in heap && RefersTo(heap[b].body, x) ==> x in marked
  }

  /** The tricolour invariant: a black object (marked, off the gray stack) references only marked objects. */
  ghost predicate TriColor(heap: Heap, s: Marks) {
    forall b, x :: b in s.marked && b !in s.gray && b in heap && RefersTo(heap[b].body, x) ==> x in s.marked
  }

  /**
   * What markRoots starts from: the value stack, the closures of the
   * call frames, the open upvalues, the globals table, the compiler's
   * roots and the "init" string.
   */
  datatype Roots = Roots(stack: seq<Value>, frames: seq<Ptr>, openUpvalues: seq<Ptr>, globals: seq<Entry>,
                         compilerRoots: seq<Ptr>, initString: Ptr)

  function RootPtrs(r: Roots): seq<Ptr> {
    ValuePtrs(r.stack) + r.frames + r.openUpvalues + EntryPtrs(r.globals) + r.compilerRoots + [r.initString]
  }

  predicate IsRoot(r: Roots, x: ObjRef) {
    Some(x) in RootPtrs(r)
  }

  /** A chain of references that starts at a root. */
  ghost predicate Path(heap: Heap, r: Roots, p: seq<ObjRef>) {
    |p| > 0 && IsRoot(r, p[0])
    && forall i :: 0 <= i < |p| - 1 ==> p[i] in heap && RefersTo(heap[p[i]].body, p[i + 1])
  }

  ghost predicate Reachable(heap: Heap, r: Roots, x: ObjRef) {
    exists p :: Path(heap, r, p) && p[|p| - 1] == x
  }

  ghost function ReachableSet(heap: Heap, r: Roots): set<ObjRef> {
    set x | x in heap && Reachable(heap, r, x)
  }

  ghost predicate OnlyReachable(heap: Heap, r: Roots, marked: set<ObjRef>) {
    forall x :: x in marked ==> Reachable(heap, r, x)
  }

  lemma ReachRoot(heap: Heap, r: Roots, x: ObjRef)
    requires IsRoot(r, x)
    ensures Reachable(heap, r, x)
  {
    assert Path(heap, r, [x]);
  }

  lemma ReachStep(heap: Heap, r: Roots, o: ObjRef, x: ObjRef)
    requires Reachable(heap, r, o) && o in heap && RefersTo(heap[o].body, x)
    ensures Reachable(heap, r, x)
  {
    var p :| Path(heap, r, p) && p[|p| - 1] == o;
    var q := p + [x];
    assert forall i :: 0 <= i < |q| - 1 ==> q[i] == p[i] || i == |p| - 1;
    assert Path(heap, r, q);
  }

  lemma {:induction false} PathInside(heap: Heap, r: Roots, m: set<ObjRef>, p: seq<ObjRef>, i: nat)
    requires Path(heap, r, p) && i < |p|
    requires forall x :: IsRoot(r, x) ==> x in m
    requires MarkedClosed(heap, m)
    ensures p[i] in m
  {
    if i > 0 {
      PathInside(heap, r, m, p, i - 1);
    }
  }

  /** A set that holds the roots and is closed under references holds every reachable object. */
  lemma ClosedHasReachable(heap: Heap, r: Roots, m: set<ObjRef>)
    requires forall x :: IsRoot(r, x) ==> x in m
    requires MarkedClosed(heap, m)
    ensures forall x :: Reachable(heap, r, x) ==> x in m
  {
    forall x | Reachable(heap, r, x)
      ensures x in m
    {
      var p :| Path(heap, r, p) && p[|p| - 1] == x;
      PathInside(heap, r, m, p, |p| - 1);
    }
  }

  /**
   * markRoots from a clean slate (nothing marked, the gray stack empty)
   * marks exactly the roots, all of them gray, so no object is black yet.
   */
  lemma MarkRootsStart(heap: Heap, r: Roots)
    ensures var s := MarkPtrs(Marks({}, []), RootPtrs(r));
      TriColor(heap, s) && OnlyReachable(heap, r, s.marked) && (forall x :: IsRoot(r, x) ==> x in s.marked)
  {
    var s := MarkPtrs(Marks({}, []), RootPtrs(r));
    MarkPtrsMarks(Marks({}, []), RootPtrs(r));
    forall x | x in s.marked
      ensures Reachable(heap, r, x) && x in s.gray
    {
      ReachRoot(heap, r, x);
    }
  }

  /** A marking step that marks nothing new pushes nothing. */
  lemma NothingNewNoPush(s: Marks, t: Marks)
    requires Extends(s, t)
    ensures t.marked == s.marked ==> t == s
  {
    if |t.gray| > |s.gray| {
      var y := t.gray[|s.gray|];
      assert y in t.marked && y !in s.marked;
    }
    assert t.gray[..|s.gray|] == s.gray;
  }

  /** An object black after a marking step was black before it. */
  lemma BlackStaysBlack(s: Marks, t: Marks)
    requires Extends(s, t)
    ensures forall x :: x in t.marked && x !in t.gray ==> x in s.marked && x !in s.gray
  {
    forall x | x in t.marked && x !in t.gray
      ensures x in s.marked && x !in s.gray
    {
      assert forall y :: y in t.gray[|s.gray|..] ==> y in t.gray;
      assert forall y :: y in s.gray ==> y in t.gray[..|s.gray|];
    }
  }

  /** Popping `o` and marking all its references keeps the tricolour invariant. */
  lemma BlackenKeepsTriColor(heap: Heap, s: Marks, o: ObjRef, popped: Marks, t: Marks)
    requires s.gray == popped.gray + [o] && popped.marked == s.marked && o in heap
    requires TriColor(heap, s) && Extends(popped, t)
    requires forall x :: RefersTo(heap[o].body, x) ==> x in t.marked
    ensures TriColor(heap, t)
  {
    BlackStaysBlack(popped, t);
    forall b, x | b in t.marked && b !in t.gray && b in heap && RefersTo(heap[b].body, x)
      ensures x in t.marked
    {
      if b != o {
        assert b !in s.gray;
      }
    }
  }

  /**
   * One round of traceReferences: pop the top gray object and blacken it.
   * The tricolour invariant survives, only reachable objects get marked,
   * and either something new is marked or the stack has shrunk.
   */
  lemma TracePop(heap: Heap, r: Roots, s: Marks)
    requires |s.gray| > 0 && s.gray[|s.gray| - 1] in heap && s.gray[|s.gray| - 1] in s.marked
    requires TriColor(heap, s) && OnlyReachable(heap, r, s.marked)
    ensures var o := s.gray[|s.gray| - 1];
      var popped := Marks(s.marked, s.gray[..|s.gray| - 1]);
      var t := MarkPtrs(popped, Ptrs(heap[o].body));
      TriColor(heap, t) && OnlyReachable(heap, r, t.marked) && Extends(popped, t)
      && (t.marked == s.marked ==> t == popped)
  {
    var o := s.gray[|s.gray| - 1];
    var popped := Marks(s.marked, s.gray[..|s.gray| - 1]);
    var t := MarkPtrs(popped, Ptrs(heap[o].body));
    MarkPtrsMarks(popped, Ptrs(heap[o].body));
    assert s.gray == popped.gray + [o];
    BlackenKeepsTriColor(heap, s, o, popped, t);
    forall x | x in t.marked
      ensures Reachable(heap, r, x)
    {
      if x !in s.marked {
        ReachStep(heap, r, o, x);
      }
    }
    if t.marked == s.marked {
      NothingNewNoPush(popped, t);
    }
  }

  // ---------------------------------------------------------------------
  // Sweeping

  /** The objects of the list that are in `keep`, in list order. */
  function KeepOnly(objects: seq<ObjRef>, keep: set<ObjRef>): seq<ObjRef> {
    if |objects| == 0 then []
    else KeepOnly(objects[..|objects| - 1], keep) + (if objects[|objects| - 1] in keep then [objects[|objects| - 1]] else [])
  }

  /** The bytes freeObject gives back for the objects of the list that are not in `keep`. */
  function FreedBytes(objects: seq<ObjRef>, heap: Heap, keep: set<ObjRef>): int {
    if |objects| == 0 then 0
    else FreedBytes(objects[..|objects| - 1], heap, keep)
         + (var x := objects[|objects| - 1]; if x in heap && x !in keep then heap[x].bytes else 0)
  }

  lemma {:induction false} KeepOnlyMembers(objects: seq<ObjRef>, keep: set<ObjRef>)
    ensures forall x :: x in KeepOnly(objects, keep) <==> x in objects && x in keep
  {
    if |objects| > 0 {
      KeepOnlyMembers(objects[..|objects| - 1], keep);
      assert objects == objects[..|objects| - 1] + [objects[|objects| - 1]];
    }
  }

  lemma {:induction false} KeepOnlyNoDuplicates(objects: seq<ObjRef>, keep: set<ObjRef>)
    requires NoDuplicates(objects)
    ensures NoDuplicates(KeepOnly(objects, keep))
  {
    if |objects| > 0 {
      var front := objects[..|objects| - 1];
      var last := objects[|objects| - 1];
      KeepOnlyNoDuplicates(front, keep);
      KeepOnlyMembers(front, keep);
      assert forall i :: 0 <= i < |front| ==> front[i] == objects[i] != last;
      if last in keep {
        var k := KeepOnly(objects, keep);
        var kf := KeepOnly(front, keep);
        assert NoDuplicates(kf);
        assert k == kf + [last] && last !in kf;
        forall i, j | 0 <= i < j < |k|
          ensures k[i] != k[j]
        {
          if j == |kf| {
            assert k[i] == kf[i] && kf[i] in kf;
          } else {
            assert k[i] == kf[i] && k[j] == kf[j];
          }
        }
      }
    }
  }

  /** The part of the heap whose addresses are in `keep`. */
  ghost function Restrict(heap: Heap, keep: set<ObjRef>): Heap {
    map x | x in heap && x in keep :: heap[x]
  }

  /** Every non-NULL pointer of the list points into the heap. */
  ghost predicate PtrsIn(ps: seq<Ptr>, heap: Heap) {
    forall x :: Some(x) in ps ==> x in heap
  }

  const GcHeapGrowFactor := 2

  // ---------------------------------------------------------------------
  // The collector

  /**
   * The collector's part of the VM: the heap and its object list (head
   * first), the mark flags, the gray stack (a buffer of `grayCapacity`
   * slots of which `grayCount` are in use), the byte counters and the
   * string table, whose keys are weak references.
   */
  class Collector {
    var heap: Heap
    var objects: seq<ObjRef>
    var marked: set<ObjRef>
    var grayStack: array<ObjRef>
    var grayCount: nat
    var grayCapacity: nat
    var bytesAllocated: int
    var nextGC: int
    var strings: Table

    /** The collector's invariant: the marking invariant, and a valid string table whose keys are heap objects. */
    ghost predicate Valid()
      reads this, grayStack, strings, strings.entries
    {
      MarkValid() && strings.Valid() && (forall k :: k in strings.Contents() ==> k.addr in heap)
    }

    /**
     * What marking relies on and keeps: the gray stack fits its buffer and
     * holds marked objects, the object list holds each heap object once,
     * references stay inside the heap, and only heap objects are marked.
     */
    ghost predicate MarkValid()
      reads this, grayStack
    {
      grayStack.Length == grayCapacity && grayCount <= grayCapacity && IsBufferCapacity(grayCapacity)
      && NoDuplicates(objects) && (forall x :: x in objects <==> x in heap)
      && Closed(heap) && marked <= heap.Keys
      && (forall i :: 0 <= i < grayCount ==> grayStack[i] in marked)
    }

    ghost function MarksOf(): Marks
      reads this, grayStack
      requires grayCount <= grayStack.Length
    {
      Marks(marked, grayStack[..grayCount])
    }

    /** No collection is under way: no mark flag is set and the gray stack is empty. */
    ghost predicate Idle()
      reads this
    {
      marked == {} && grayCount == 0
    }

    /** The state that marking leaves alone. */
    ghost function Others(): (Heap, seq<ObjRef>, int, int, Table)
      reads this
    {
      (heap, objects, bytesAllocated, nextGC, strings)
    }

    /** An empty heap with no gray stack yet; `initialNextGC` is the first collection threshold. */
    constructor (initialNextGC: int)
      ensures Valid() && Idle() && heap == map[] && objects == [] && bytesAllocated == 0 && nextGC == initialNextGC
      ensures grayCapacity == 0 && strings.Contents() == map[]
    {
      heap := map[];
      objects := [];
      marked := {};
      grayStack := new ObjRef[0];
      grayCount, grayCapacity := 0, 0;
      bytesAllocated := 0;
      nextGC := initialNextGC;
      strings := new Table();
    }

    /** realloc of the gray stack: a buffer of the new capacity holding the first `count` entries. */
    static method GrowGray(a: array<ObjRef>, count: nat, capacity: nat) returns (b: array<ObjRef>)
      requires count <= a.Length && count < capacity
      ensures fresh(b) && b.Length == capacity && b[..count] == a[..count]
    {
      b := new ObjRef[capacity];
      var i := 0;
      while i < count
        invariant 0 <= i <= count && b[..i] == a[..i]
      {
        b[i] := a[i];
        i := i + 1;
      }
    }

    /**
     * markObject: NULL and already marked objects are left alone; any
     * other object is marked and pushed, the gray stack growing by
     * GROW_CAPACITY when it is full.
     */
    method MarkObject(target: Ptr)
      requires MarkValid() && PtrsIn([target], heap)
      modifies this, grayStack
      ensures grayStack == old(grayStack) || fresh(grayStack)
      ensures MarkValid() && MarksOf() == MarkObj(old(MarksOf()), target) && Others() == old(Others())
      ensures grayCapacity == if target.Some? && target.value !in old(marked) && old(grayCapacity) < old(grayCount) + 1
                              then GrowCapacity(old(grayCapacity)) else old(grayCapacity)
    {
      if target.None? {
        return;
      }
      if target.value in marked {
        return;
      }
      marked := marked + {target.value};
      PushGray(target.value);
    }

    /** The push half of markObject: grow the gray stack when it is full, then push. */
    method PushGray(x: ObjRef)
      requires MarkValid() && x in marked
      modifies this, grayStack
      ensures grayStack == old(grayStack) || fresh(grayStack)
      ensures MarkValid() && grayStack[..grayCount] == old(grayStack[..grayCount]) + [x]
      ensures marked == old(marked) && Others() == old(Others())
      ensures grayCapacity == if old(grayCapacity) < old(grayCount) + 1 then GrowCapacity(old(grayCapacity)) else old(grayCapacity)
    {
      ghost var gray := grayStack[..grayCount];
      grayStack, grayCapacity := Push(grayStack, grayCount, grayCapacity, x);
      grayCount := grayCount + 1;
      assert forall i :: 0 <= i < grayCount ==> grayStack[i] == (gray + [x])[i];
    }

    /** Push `x` onto a stack of `count` entries in a buffer of `capacity` slots, reallocating it when it is full. */
    static method Push(a: array<ObjRef>, count: nat, capacity: nat, x: ObjRef) returns (b: array<ObjRef>, newCapacity: nat)
      requires a.Length == capacity && count <= capacity && IsBufferCapacity(capacity)
      modifies a
      ensures b == a || fresh(b)
      ensures b.Length == newCapacity && count < newCapacity && IsBufferCapacity(newCapacity)
      ensures newCapacity == if capacity < count + 1 then GrowCapacity(capacity) else capacity
      ensures b[..count + 1] == old(a[..count]) + [x]
    {
      b, newCapacity := a, capacity;
      if capacity < count + 1 {
        newCapacity := GrowCapacity(capacity);
        b := GrowGray(a, count, newCapacity);
      }
      b[count] := x;
    }

    /** markValue: only an object value has anything to mark. */
    method MarkValue(value: Value)
      requires MarkValid() && PtrsIn([ValuePtr(value)], heap)
      modifies this, grayStack
      ensures grayStack == old(grayStack) || fresh(grayStack)
      ensures MarkValid() && MarksOf() == MarkObj(old(MarksOf()), ValuePtr(value)) && Others() == old(Others())
    {
      if value.ObjVal? {
        MarkObject(Some(value.obj));
      }
    }

    /** markArray: markValue on each value of the array in order. */
    method MarkArray(values: seq<Value>)
      requires MarkValid() && PtrsIn(ValuePtrs(values), heap)
      modifies this, grayStack
      ensures grayStack == old(grayStack) || fresh(grayStack)
      ensures MarkValid() && MarksOf() == MarkPtrs(old(MarksOf()), ValuePtrs(values)) && Others() == old(Others())
    {
      var i := 0;
      assert values[..0] == [];
      while i < |values|
        invariant 0 <= i <= |values| && MarkValid() && Others() == old(Others())
        invariant grayStack == old(grayStack) || fresh(grayStack)
        invariant MarksOf() == MarkPtrs(old(MarksOf()), ValuePtrs(values[..i]))
      {
        ValuePtrsPrefix(values, i);
        ValuePtrIn(values, i, heap);
        MarkValue(values[i]);
        i := i + 1;
      }
      assert values[..|values|] == values;
    }

    /** markTable: each bucket's key (NULL for none) and then its value, bucket by bucket. */
    method MarkTable(entries: seq<Entry>)
      requires MarkValid() && PtrsIn(EntryPtrs(entries), heap)
      modifies this, grayStack
      ensures grayStack == old(grayStack) || fresh(grayStack)
      ensures MarkValid() && MarksOf() == MarkPtrs(old(MarksOf()), EntryPtrs(entries)) && Others() == old(Others())
    {
      var i := 0;
      assert entries[..0] == [];
      while i < |entries|
        invariant 0 <= i <= |entries| && MarkValid() && Others() == old(Others())
        invariant grayStack == old(grayStack) || fresh(grayStack)
        invariant MarksOf() == MarkPtrs(old(MarksOf()), EntryPtrs(entries[..i]))
      {
        EntryPtrsPrefix(entries, i);
        EntryPtrsIn(entries, i, heap);
        MarkEntry(entries[i]);
        MarkPtrsAppend(old(MarksOf()), EntryPtrs(entries[..i]), [KeyPtr(entries[i]), ValuePtr(entries[i].value)]);
        i := i + 1;
      }
      assert entries[..|entries|] == entries;
    }

    /** The body of markTable's loop: the bucket's key, then its value. */
    method MarkEntry(entry: Entry)
      requires MarkValid() && PtrsIn([KeyPtr(entry), ValuePtr(entry.value)], heap)
      modifies this, grayStack
      ensures grayStack == old(grayStack) || fresh(grayStack)
      ensures MarkValid() && MarksOf() == MarkPtrs(old(MarksOf()), [KeyPtr(entry), ValuePtr(entry.value)]) && Others() == old(Others())
    {
      MarkObject(KeyPtr(entry));
      MarkValue(entry.value);
      MarkPair(old(MarksOf()), KeyPtr(entry), ValuePtr(entry.value));
    }

    /** markObject on each pointer of a list in order (the upvalue, frame and open-upvalue loops). */
    method MarkEach(ptrs: seq<Ptr>)
      requires MarkValid() && PtrsIn(ptrs, heap)
      modifies this, grayStack
      ensures grayStack == old(grayStack) || fresh(grayStack)
      ensures MarkValid() && MarksOf() == MarkPtrs(old(MarksOf()), ptrs) && Others() == old(Others())
    {
      var i := 0;
      assert ptrs[..0] == [];
      while i < |ptrs|
        invariant 0 <= i <= |ptrs| && MarkValid() && Others() == old(Others())
        invariant grayStack == old(grayStack) || fresh(grayStack)
        invariant MarksOf() == MarkPtrs(old(MarksOf()), ptrs[..i])
      {
        assert ptrs[..i + 1][..i] == ptrs[..i];
        MarkObject(ptrs[i]);
        i := i + 1;
      }
      assert ptrs[..|ptrs|] == ptrs;
    }

    /** blackenObject: mark every reference the object holds, by its kind. */
    method BlackenObject(target: ObjRef)
      requires MarkValid() && target in heap
      modifies this, grayStack
      ensures grayStack == old(grayStack) || fresh(grayStack)
      ensures MarkValid() && MarksOf() == MarkPtrs(old(MarksOf()), Ptrs(old(heap[target].body))) && Others() == old(Others())
    {
      var body := heap[target].body;
      ghost var s, ptrs := MarksOf(), Ptrs(body);
      assert PtrsIn(ptrs, heap);
      match body {
        case BoundMethodObj(receiver, boundMethod) =>
          MarkValue(receiver);
          MarkObject(boundMethod);
          MarkPair(s, ValuePtr(receiver), boundMethod);
        case ClassObj(name, methods) =>
          MarkThenTable(name, methods);
        case ClosureObj(closureFunction, upvalues) =>
          MarkThenEach(closureFunction, upvalues);
        case FunctionObj(name, constants) =>
          MarkThenArray(name, constants);
        case InstanceObj(klass, fields) =>
          MarkThenTable(klass, fields);
        case UpvalueObj(closed) =>
          MarkValue(closed);
          MarkOne(s, ValuePtr(closed));
        case NativeObj =>
        case StringObj =>
      }
      assert MarksOf() == MarkPtrs(s, ptrs);
    }

    /** A class's name then its method table, or an instance's class then its field table. */
    method MarkThenTable(first: Ptr, entries: seq<Entry>)
      requires MarkValid() && PtrsIn([first] + EntryPtrs(entries), heap)
      modifies this, grayStack
      ensures grayStack == old(grayStack) || fresh(grayStack)
      ensures MarkValid() && MarksOf() == MarkPtrs(old(MarksOf()), [first] + EntryPtrs(entries)) && Others() == old(Others())
    {
      ghost var s := MarksOf();
      MarkObject(first);
      MarkTable(entries);
      MarkFirst(s, first, EntryPtrs(entries));
    }

    /** A closure's function, then its upvalues. */
    method MarkThenEach(first: Ptr, ptrs: seq<Ptr>)
      requires MarkValid() && PtrsIn([first] + ptrs, heap)
      modifies this, grayStack
      ensures grayStack == old(grayStack) || fresh(grayStack)
      ensures MarkValid() && MarksOf() == MarkPtrs(old(MarksOf()), [first] + ptrs) && Others() == old(Others())
    {
      ghost var s := MarksOf();
      MarkObject(first);
      MarkEach(ptrs);
      MarkFirst(s, first, ptrs);
    }

    /** A function's name, then its constants. */
    method MarkThenArray(first: Ptr, values: seq<Value>)
      requires MarkValid() && PtrsIn([first] + ValuePtrs(values), heap)
      modifies this, grayStack
      ensures grayStack == old(grayStack) || fresh(grayStack)
      ensures MarkValid() && MarksOf() == MarkPtrs(old(MarksOf()), [first] + ValuePtrs(values)) && Others() == old(Others())
    {
      ghost var s := MarksOf();
      MarkObject(first);
      MarkArray(values);
      MarkFirst(s, first, ValuePtrs(values));
    }

    /** markRoots: the stack slots, the frames' closures, the open upvalues, the globals, the compiler's roots, "init". */
    method MarkRoots(roots: Roots)
      requires MarkValid() && PtrsIn(RootPtrs(roots), heap)
      modifies this, grayStack
      ensures grayStack == old(grayStack) || fresh(grayStack)
      ensures MarkValid() && MarksOf() == MarkPtrs(old(MarksOf()), RootPtrs(roots)) && Others() == old(Others())
    {
      ghost var s := MarksOf();
      ghost var a := ValuePtrs(roots.stack);
      ghost var b := a + roots.frames;
      ghost var c := b + roots.openUpvalues;
      ghost var d := c + EntryPtrs(roots.globals);
      ghost var e := d + roots.compilerRoots;
      MarkArray(roots.stack);
      MarkEach(roots.frames);
      MarkPtrsAppend(s, a, roots.frames);
      MarkEach(roots.openUpvalues);
      MarkPtrsAppend(s, b, roots.openUpvalues);
      MarkTable(roots.globals);
      MarkPtrsAppend(s, c, EntryPtrs(roots.globals));
      MarkEach(roots.compilerRoots);
      MarkPtrsAppend(s, d, roots.compilerRoots);
      MarkObject(roots.initString);
      MarkPtrsAppend(s, e, [roots.initString]);
      assert [roots.initString][..0] == [];
    }

    /**
     * traceReferences: pop and blacken until the gray stack is empty.
     * The tricolour invariant holds throughout, so at the end the marked
     * objects are closed under references.
     */
    method TraceReferences(ghost roots: Roots)
      requires MarkValid() && TriColor(heap, MarksOf()) && OnlyReachable(heap, roots, marked)
      modifies this, grayStack
      ensures grayStack == old(grayStack) || fresh(grayStack)
      ensures MarkValid() && grayCount == 0 && MarkedClosed(heap, marked)
      ensures old(marked) <= marked && OnlyReachable(heap, roots, marked) && Others() == old(Others())
    {
      while grayCount > 0
        invariant MarkValid() && TriColor(heap, MarksOf()) && OnlyReachable(heap, roots, marked)
        invariant old(marked) <= marked && Others() == old(Others())
        invariant grayStack == old(grayStack) || fresh(grayStack)
        decreases heap.Keys - marked, grayCount
      {
        TraceStep(roots);
      }
      assert MarksOf().gray == [];
    }

    /** One round of traceReferences' loop: pop the top gray object and blacken it. */
    method TraceStep(ghost roots: Roots)
      requires MarkValid() && grayCount > 0 && TriColor(heap, MarksOf()) && OnlyReachable(heap, roots, marked)
      modifies this, grayStack
      ensures grayStack == old(grayStack) || fresh(grayStack)
      ensures MarkValid() && TriColor(heap, MarksOf()) && OnlyReachable(heap, roots, marked)
      ensures old(marked) <= marked && Others() == old(Others())
      ensures marked == old(marked) ==> grayCount == old(grayCount) - 1
      ensures marked != old(marked) ==> heap.Keys - marked < heap.Keys - old(marked)
    {
      ghost var s := MarksOf();
      grayCount := grayCount - 1;
      var target := grayStack[grayCount];
      assert s.gray[|s.gray| - 1] == target && MarksOf() == Marks(s.marked, s.gray[..|s.gray| - 1]);
      TracePop(heap, roots, s);
      BlackenObject(target);
      if marked != s.marked {
        var y :| y in marked && y !in s.marked;
        assert y in heap.Keys - s.marked && y !in heap.Keys - marked;
      }
    }

    /** freeObject: drop the object from the heap and give its bytes back (through reallocate to size 0). */
    method FreeObject(target: ObjRef)
      requires target in heap
      modifies this
      ensures heap == old(heap) - {target} && bytesAllocated == old(bytesAllocated) - old(heap[target].bytes)
      ensures objects == old(objects) && marked == old(marked) && GrayOf() == old(GrayOf())
      ensures nextGC == old(nextGC) && strings == old(strings)
    {
      bytesAllocated := bytesAllocated - heap[target].bytes;
      heap := heap - {target};
    }

    /** The gray stack's buffer and counters. */
    ghost function GrayOf(): (array<ObjRef>, nat, nat)
      reads this
    {
      (grayStack, grayCount, grayCapacity)
    }

    /**
     * sweep: walk the object list; a marked object has its mark cleared
     * and stays, an unmarked one is unlinked (from its predecessor, or
     * from the head of the list) and freed.
     */
    method Sweep()
      requires Valid() && grayCount == 0 && MarkedClosed(heap, marked)
      requires forall k :: k in strings.Contents() ==> k.addr in marked
      modifies this
      ensures Valid() && Idle()
      ensures objects == KeepOnly(old(objects), old(marked)) && heap == Restrict(old(heap), old(marked))
      ensures bytesAllocated == old(bytesAllocated) - FreedBytes(old(objects), old(heap), old(marked))
      ensures nextGC == old(nextGC) && strings == old(strings) && GrayOf() == old(GrayOf())
    {
      SweepDone(heap, marked, objects);
      SweepWalk();
    }

    /** The walk of sweep, stated on the list, the heap and the marks alone. */
    method SweepWalk()
      requires NoDuplicates(objects) && (forall x :: x in objects <==> x in heap) && marked <= heap.Keys
      modifies this
      ensures objects == KeepOnly(old(objects), old(marked)) && heap == SweptHeap(old(heap), old(marked), [])
      ensures marked == MarksLeft(old(marked), [])
      ensures bytesAllocated == old(bytesAllocated) - FreedBytes(old(objects), old(heap), old(marked))
      ensures nextGC == old(nextGC) && strings == old(strings) && GrayOf() == old(GrayOf())
    {
      objects, heap, marked, bytesAllocated := SweepList(objects, heap, marked, bytesAllocated);
    }

    /** The mark phase of collectGarbage: markRoots, then traceReferences; the marked objects are then exactly the reachable ones. */
    method Mark(roots: Roots)
      requires Valid() && Idle() && PtrsIn(RootPtrs(roots), heap)
      modifies this, grayStack
      ensures grayStack == old(grayStack) || fresh(grayStack)
      ensures Valid() && grayCount == 0 && MarkedClosed(heap, marked) && Others() == old(Others())
      ensures marked == ReachableSet(heap, roots)
    {
      assert MarksOf() == Marks({}, []);
      MarkRootsStart(heap, roots);
      MarkRoots(roots);
      TraceReferences(roots);
      ClosedHasReachable(heap, roots, marked);
      MarkedIsReachable(heap, roots, marked);
    }

    /**
     * collectGarbage: mark the roots, trace, drop the unmarked strings
     * from the string table, sweep, and set the next threshold to twice
     * what is left. Exactly the objects reachable from the roots survive.
     */
    method CollectGarbage(roots: Roots)
      requires Valid() && Idle() && PtrsIn(RootPtrs(roots), heap)
      modifies this, grayStack, strings.entries
      ensures Valid() && Idle() && strings == old(strings)
      ensures var live := ReachableSet(old(heap), roots);
        objects == KeepOnly(old(objects), live) && heap == Restrict(old(heap), live)
        && strings.Contents() == KeepMarked(old(strings.Contents()), live)
        && bytesAllocated == old(bytesAllocated) - FreedBytes(old(objects), old(heap), live)
      ensures nextGC == bytesAllocated * GcHeapGrowFactor
    {
      Mark(roots);
      strings.RemoveWhite(marked);
      Sweep();
      SetThreshold();
    }

    /** The last step of collectGarbage: the next collection comes at twice the bytes still allocated. */
    method SetThreshold()
      requires Valid()
      modifies this
      ensures Valid() && nextGC == bytesAllocated * GcHeapGrowFactor
      ensures (heap, objects, marked, bytesAllocated, strings, GrayOf()) == old((heap, objects, marked, bytesAllocated, strings, GrayOf()))
    {
      nextGC := bytesAllocated * GcHeapGrowFactor;
    }

    /**
     * reallocate: account for the change of size; a growing request
     * collects first once the count passes the threshold; a new size of
     * zero frees the block and yields NULL (`isNull`).
     */
    method Reallocate(roots: Roots, oldSize: nat, newSize: nat) returns (isNull: bool)
      requires Valid() && Idle() && PtrsIn(RootPtrs(roots), heap)
      modifies this, grayStack, strings.entries
      ensures Valid() && Idle() && strings == old(strings) && isNull == (newSize == 0)
      ensures var grown := old(bytesAllocated) + newSize - oldSize;
        if newSize > oldSize && grown > old(nextGC) then
          var live := ReachableSet(old(heap), roots);
          objects == KeepOnly(old(objects), live) && heap == Restrict(old(heap), live)
          && strings.Contents() == KeepMarked(old(strings.Contents()), live)
          && bytesAllocated == grown - FreedBytes(old(objects), old(heap), live)
          && nextGC == bytesAllocated * GcHeapGrowFactor
        else
          objects == old(objects) && heap == old(heap) && strings.Contents() == old(strings.Contents())
          && bytesAllocated == grown && nextGC == old(nextGC)
    {
      bytesAllocated := bytesAllocated + newSize - oldSize;
      if newSize > oldSize && bytesAllocated > nextGC {
        CollectGarbage(roots);
      }
      isNull := newSize == 0;
    }

    /** freeObjects: free every object on the list, leaving the heap empty. */
    method FreeObjects()
      requires NoDuplicates(objects) && (forall x :: x in objects <==> x in heap)
      modifies this
      ensures heap == map[] && bytesAllocated == old(bytesAllocated) - FreedBytes(old(objects), old(heap), {})
      ensures nextGC == old(nextGC) && strings == old(strings) && marked == old(marked)
    {
      heap, bytesAllocated := FreeList(objects, heap, bytesAllocated);
    }
  }

  /** The loop of freeObjects over the object list `list`: freeObject on each object in turn. */
  method FreeList(list: seq<ObjRef>, h0: Heap, b0: int) returns (heap: Heap, bytes: int)
    requires NoDuplicates(list) && (forall x :: x in list <==> x in h0)
    ensures heap == map[] && bytes == b0 - FreedBytes(list, h0, {})
  {
    heap, bytes := h0, b0;
    var k := 0;
    assert list[..0] == [] && list[0..] == list;
    while k < |list|
      invariant FreeState(list, h0, b0, k, heap, bytes)
      decreases |list| - k
    {
      var target := list[k];
      FreeStep(list, h0, b0, k, heap, bytes);
      bytes := bytes - heap[target].bytes;
      heap := heap - {target};
      k := k + 1;
    }
    assert list[..|list|] == list;
  }

  /**
   * The loop of sweep over the object list `list`: marked objects stay
   * (and lose their mark), unmarked ones are unlinked and their bytes
   * given back.
   */
  method SweepList(list: seq<ObjRef>, h0: Heap, m0: set<ObjRef>, b0: int)
      returns (objects: seq<ObjRef>, heap: Heap, marked: set<ObjRef>, bytes: int)
    requires NoDuplicates(list) && (forall x :: x in list <==> x in h0) && m0 <= h0.Keys
    ensures objects == KeepOnly(list, m0) && heap == SweptHeap(h0, m0, []) && marked == MarksLeft(m0, [])
    ensures bytes == b0 - FreedBytes(list, h0, m0)
  {
    objects, heap, marked, bytes := list, h0, m0, b0;
    ghost var i := 0;
    var pos := 0;
    SweepStart(list, m0, h0, b0);
    while pos < |objects|
      invariant SweepState(list, m0, h0, b0, i, pos, objects, heap, marked, bytes)
      decreases |objects| - pos
    {
      var target := objects[pos];
      SweepTarget(list, m0, h0, b0, i, pos, objects, heap, marked, bytes);
      if target in marked {
        SweepKeep(list, m0, h0, b0, i, pos, objects, heap, marked, bytes);
        marked := marked - {target};
        pos := pos + 1;
      } else {
        SweepFree(list, m0, h0, b0, i, pos, objects, heap, marked, bytes);
        if pos > 0 {
          objects := objects[..pos] + objects[pos + 1..];
        } else {
          objects := objects[1..];
        }
        bytes := bytes - heap[target].bytes;
        heap := heap - {target};
      }
      i := i + 1;
    }
    SweepEnd(list, m0, h0, b0, i, pos, objects, heap, marked, bytes);
  }

  lemma ValuePtrsPrefix(values: seq<Value>, i: nat)
    requires i < |values|
    ensures ValuePtrs(values[..i + 1]) == ValuePtrs(values[..i]) + [ValuePtr(values[i])]
  {
    assert values[..i + 1][..i] == values[..i];
  }

  lemma {:induction false} ValuePtrsIndex(values: seq<Value>)
    ensures |ValuePtrs(values)| == |values|
    ensures forall i :: 0 <= i < |values| ==> ValuePtrs(values)[i] == ValuePtr(values[i])
  {
    if |values| > 0 {
      ValuePtrsIndex(values[..|values| - 1]);
    }
  }

  lemma {:induction false} EntryPtrsIndex(entries: seq<Entry>)
    ensures |EntryPtrs(entries)| == 2 * |entries|
    ensures forall i :: 0 <= i < |entries| ==>
      EntryPtrs(entries)[2 * i] == KeyPtr(entries[i]) && EntryPtrs(entries)[2 * i + 1] == ValuePtr(entries[i].value)
  {
    if |entries| > 0 {
      EntryPtrsIndex(entries[..|entries| - 1]);
    }
  }

  lemma ValuePtrIn(values: seq<Value>, i: nat, heap: Heap)
    requires i < |values| && PtrsIn(ValuePtrs(values), heap)
    ensures PtrsIn([ValuePtr(values[i])], heap)
  {
    ValuePtrsIndex(values);
    assert ValuePtrs(values)[i] == ValuePtr(values[i]);
  }

  lemma EntryPtrsIn(entries: seq<Entry>, i: nat, heap: Heap)
    requires i < |entries| && PtrsIn(EntryPtrs(entries), heap)
    ensures PtrsIn([KeyPtr(entries[i]), ValuePtr(entries[i].value)], heap)
  {
    EntryPtrsIndex(entries);
    assert EntryPtrs(entries)[2 * i] == KeyPtr(entries[i]) && EntryPtrs(entries)[2 * i + 1] == ValuePtr(entries[i].value);
  }

  lemma EntryPtrsPrefix(entries: seq<Entry>, i: nat)
    requires i < |entries|
    ensures EntryPtrs(entries[..i + 1]) == EntryPtrs(entries[..i]) + [KeyPtr(entries[i]), ValuePtr(entries[i].value)]
  {
    assert entries[..i + 1][..i] == entries[..i];
  }

  lemma MarkFirst(s: Marks, a: Ptr, rest: seq<Ptr>)
    ensures MarkPtrs(s, [a] + rest) == MarkPtrs(MarkObj(s, a), rest)
  {
    MarkPtrsAppend(s, [a], rest);
    assert [a][..0] == [];
  }

  lemma MarkOne(s: Marks, a: Ptr)
    ensures MarkPtrs(s, [a]) == MarkObj(s, a)
  {
    assert [a][..0] == [];
  }

  lemma MarkPair(s: Marks, a: Ptr, b: Ptr)
    ensures MarkPtrs(s, [a, b]) == MarkObj(MarkObj(s, a), b)
  {
    assert [a, b][..1] == [a];
    assert [a][..0] == [];
    assert MarkPtrs(s, [a]) == MarkObj(MarkPtrs(s, []), a);
  }

  /** The heap part of sweep's state: the marked objects, and the unmarked ones not yet reached. */
  ghost function SweptHeap(heap: Heap, keep: set<ObjRef>, rest: seq<ObjRef>): Heap {
    map x | x in heap && (x in keep || x in rest) :: heap[x]
  }

  /** The marks not yet cleared: those of the objects not yet reached. */
  ghost function MarksLeft(keep: set<ObjRef>, rest: seq<ObjRef>): set<ObjRef> {
    set x | x in keep && x in rest
  }

  /**
   * Sweep's walk after `i` objects of `list` (marks `m0`, heap `h0`,
   * `b0` bytes at the start): the kept prefix, then the objects not yet
   * reached; `pos` is where the walk stands in the current list.
   */
  ghost predicate SweepState(list: seq<ObjRef>, m0: set<ObjRef>, h0: Heap, b0: int, i: nat, pos: nat,
                             objects: seq<ObjRef>, heap: Heap, marked: set<ObjRef>, bytes: int)
  {
    NoDuplicates(list) && (forall x :: x in list <==> x in h0) && m0 <= h0.Keys
    && i <= |list| && pos == |KeepOnly(list[..i], m0)| && objects == KeepOnly(list[..i], m0) + list[i..]
    && heap == SweptHeap(h0, m0, list[i..]) && marked == MarksLeft(m0, list[i..])
    && bytes == b0 - FreedBytes(list[..i], h0, m0)
  }

  lemma SweepStart(list: seq<ObjRef>, m0: set<ObjRef>, h0: Heap, b0: int)
    requires NoDuplicates(list) && (forall x :: x in list <==> x in h0) && m0 <= h0.Keys
    ensures SweepState(list, m0, h0, b0, 0, 0, list, h0, m0, b0)
  {
    assert list[..0] == [] && list[0..] == list;
  }

  /** The object the walk stands on is the next one of the original list, and it is still in the heap. */
  lemma SweepTarget(list: seq<ObjRef>, m0: set<ObjRef>, h0: Heap, b0: int, i: nat, pos: nat,
                    objects: seq<ObjRef>, heap: Heap, marked: set<ObjRef>, bytes: int)
    requires SweepState(list, m0, h0, b0, i, pos, objects, heap, marked, bytes) && pos < |objects|
    ensures i < |list| && objects[pos] == list[i] && objects[pos] in heap
    ensures objects[pos] in marked <==> objects[pos] in m0
  {
  }

  /** A marked object stays in the list and loses its mark. */
  lemma SweepKeep(list: seq<ObjRef>, m0: set<ObjRef>, h0: Heap, b0: int, i: nat, pos: nat,
                  objects: seq<ObjRef>, heap: Heap, marked: set<ObjRef>, bytes: int)
    requires SweepState(list, m0, h0, b0, i, pos, objects, heap, marked, bytes)
    requires pos < |objects| && objects[pos] in marked
    ensures SweepState(list, m0, h0, b0, i + 1, pos + 1, objects, heap, marked - {objects[pos]}, bytes)
  {
    var x := list[i];
    WalkPastOne(list, i, m0, h0);
    assert list[i..] == [x] + list[i + 1..];
    assert x !in list[i + 1..] by {
      assert forall j :: i < j < |list| ==> list[j] != x;
    }
    assert objects == (KeepOnly(list[..i], m0) + [x]) + list[i + 1..];
    SweptSkipsMarked(h0, m0, x, list[i + 1..]);
    MarksLeftTail(m0, x, list[i + 1..]);
  }

  /** An unmarked object is unlinked and freed. */
  lemma SweepFree(list: seq<ObjRef>, m0: set<ObjRef>, h0: Heap, b0: int, i: nat, pos: nat,
                  objects: seq<ObjRef>, heap: Heap, marked: set<ObjRef>, bytes: int)
    requires SweepState(list, m0, h0, b0, i, pos, objects, heap, marked, bytes)
    requires pos < |objects| && objects[pos] !in marked
    ensures var x := objects[pos];
      x in heap && SweepState(list, m0, h0, b0, i + 1, pos, objects[..pos] + objects[pos + 1..], heap - {x}, marked, bytes - heap[x].bytes)
      && (pos == 0 ==> objects[..pos] + objects[pos + 1..] == objects[1..])
  {
    var x := list[i];
    var kept := KeepOnly(list[..i], m0);
    WalkPastOne(list, i, m0, h0);
    assert list[i..] == [x] + list[i + 1..];
    assert x !in list[i + 1..] by {
      assert forall j :: i < j < |list| ==> list[j] != x;
    }
    assert objects[..pos] == kept && objects[pos + 1..] == list[i + 1..];
    SweptDropsUnmarked(h0, m0, x, list[i + 1..]);
    MarksLeftTail(m0, x, list[i + 1..]);
  }

  /** Walking past list[i] adds it to the kept objects or its bytes to the freed ones. */
  lemma WalkPastOne(list: seq<ObjRef>, i: nat, m0: set<ObjRef>, h0: Heap)
    requires i < |list|
    ensures KeepOnly(list[..i + 1], m0) == KeepOnly(list[..i], m0) + (if list[i] in m0 then [list[i]] else [])
    ensures FreedBytes(list[..i + 1], h0, m0)
      == FreedBytes(list[..i], h0, m0) + (if list[i] in h0 && list[i] !in m0 then h0[list[i]].bytes else 0)
  {
    assert list[..i + 1][..i] == list[..i];
  }

  /** Moving past a marked object leaves the heap part of sweep's state as it is. */
  lemma SweptSkipsMarked(h0: Heap, m0: set<ObjRef>, x: ObjRef, rest: seq<ObjRef>)
    requires x in m0
    ensures SweptHeap(h0, m0, [x] + rest) == SweptHeap(h0, m0, rest)
  {
  }

  /** Moving past an unmarked object takes it out of the heap part of sweep's state. */
  lemma SweptDropsUnmarked(h0: Heap, m0: set<ObjRef>, x: ObjRef, rest: seq<ObjRef>)
    requires x !in m0 && x !in rest
    ensures SweptHeap(h0, m0, [x] + rest) - {x} == SweptHeap(h0, m0, rest)
  {
  }

  /** Moving past an object clears its mark, if it had one. */
  lemma MarksLeftTail(m0: set<ObjRef>, x: ObjRef, rest: seq<ObjRef>)
    requires x !in rest
    ensures MarksLeft(m0, [x] + rest) - {x} == MarksLeft(m0, rest)
    ensures x !in m0 ==> MarksLeft(m0, [x] + rest) == MarksLeft(m0, rest)
  {
  }

  lemma SweepEnd(list: seq<ObjRef>, m0: set<ObjRef>, h0: Heap, b0: int, i: nat, pos: nat,
                 objects: seq<ObjRef>, heap: Heap, marked: set<ObjRef>, bytes: int)
    requires SweepState(list, m0, h0, b0, i, pos, objects, heap, marked, bytes) && pos >= |objects|
    ensures objects == KeepOnly(list, m0) && heap == SweptHeap(h0, m0, []) && marked == MarksLeft(m0, [])
    ensures bytes == b0 - FreedBytes(list, h0, m0)
  {
    assert list[..|list|] == list;
  }

  /** freeObjects' walk after k objects: they are gone from the heap and their bytes given back. */
  ghost predicate FreeState(list: seq<ObjRef>, h0: Heap, b0: int, k: nat, heap: Heap, bytes: int) {
    NoDuplicates(list) && (forall x :: x in list <==> x in h0)
    && k <= |list| && heap == SweptHeap(h0, {}, list[k..]) && bytes == b0 - FreedBytes(list[..k], h0, {})
  }

  /** One object of freeObjects' walk: the next object is still in the heap and is freed. */
  lemma FreeStep(list: seq<ObjRef>, h0: Heap, b0: int, k: nat, heap: Heap, bytes: int)
    requires FreeState(list, h0, b0, k, heap, bytes) && k < |list|
    ensures list[k] in heap && FreeState(list, h0, b0, k + 1, heap - {list[k]}, bytes - heap[list[k]].bytes)
  {
    assert list[..k + 1][..k] == list[..k];
    assert list[k..] == [list[k]] + list[k + 1..];
    assert list[k] !in list[k + 1..] by {
      assert forall j :: k < j < |list| ==> list[j] != list[k];
    }
  }

  /** Marks that hold only reachable objects and take in every reachable one are the reachable set. */
  lemma MarkedIsReachable(heap: Heap, r: Roots, marked: set<ObjRef>)
    requires marked <= heap.Keys && OnlyReachable(heap, r, marked)
    requires forall x :: Reachable(heap, r, x) ==> x in marked
    ensures marked == ReachableSet(heap, r)
  {
  }

  lemma SweepDone(heap: Heap, keep: set<ObjRef>, list: seq<ObjRef>)
    requires NoDuplicates(list) && (forall x :: x in list <==> x in heap) && keep <= heap.Keys
    requires Closed(heap) && MarkedClosed(heap, keep)
    ensures SweptHeap(heap, keep, []) == Restrict(heap, keep) && MarksLeft(keep, []) == {}
    ensures NoDuplicates(KeepOnly(list, keep)) && (forall x :: x in KeepOnly(list, keep) <==> x in Restrict(heap, keep))
    ensures Closed(Restrict(heap, keep))
  {
    KeepOnlyNoDuplicates(list, keep);
    KeepOnlyMembers(list, keep);
  }
}
