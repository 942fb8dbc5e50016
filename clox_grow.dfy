/**
 * The growth policy of clox's dynamic arrays (memory.h): GROW_CAPACITY
 * starts a buffer at eight slots and doubles it afterwards.
 */
module CloxGrow {
  /** A capacity a clox buffer can have: none yet, or eight doubled k times. */
  ghost predicate IsBufferCapacity(c: nat) {
    c == 0 || exists k: nat :: c == Doubled(k)
  }

  /** Eight doubled k times. */
  function Doubled(k: nat): (r: nat)
    ensures r >= 8
  {
    if k == 0 then 8 else 2 * Doubled(k - 1)
  }

  /** GROW_CAPACITY(capacity): the next size of a buffer that is full. */
  function GrowCapacity(capacity: nat): (r: nat)
    ensures r > capacity && r >= 8
    ensures IsBufferCapacity(capacity) ==> IsBufferCapacity(r)
    ensures capacity >= 8 ==> r == 2 * capacity
  {
    DoubledTwice(capacity);
    if capacity < 8 then 8 else capacity * 2
  }

  lemma DoubledTwice(capacity: nat)
    ensures IsBufferCapacity(capacity) && capacity >= 8 ==> IsBufferCapacity(2 * capacity)
    ensures IsBufferCapacity(8)
  {
    assert 8 == Doubled(0);
    if IsBufferCapacity(capacity) && capacity >= 8 {
      var k: nat :| capacity == Doubled(k);
      assert 2 * capacity == Doubled(k + 1);
    }
  }
}
