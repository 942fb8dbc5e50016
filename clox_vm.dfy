/**
 * The value stack of the clox virtual machine (vm.c): a fixed buffer and a
 * pointer to the slot above the top value.
 */
module CloxVm {
  import opened CloxValue

  class Vm {
    /** The stack buffer; its size is STACK_MAX. */
    const stack: array<Value>
    /** stackTop, as the index of the first free slot. */
    var stackTop: nat

    ghost predicate Valid()
      reads this
    {
      stackTop <= stack.Length
    }

    /** The values on the stack, bottom first. */
    ghost function Stack(): seq<Value>
      reads this, stack
      requires Valid()
    {
      stack[..stackTop]
    }

    /** initVM: a machine with an empty stack of `stackMax` slots. */
    constructor (stackMax: nat)
      ensures Valid() && stack.Length == stackMax && Stack() == [] && fresh(stack)
    {
      stack := new Value[stackMax](_ => NilVal);
      stackTop := 0;
    }

    /** resetStack: empty the stack. */
    method ResetStack()
      requires Valid()
      modifies this
      ensures Valid() && Stack() == []
    {
      stackTop := 0;
    }

    /** push: store at the top slot and move the top up; the buffer must have room. */
    method Push(value: Value)
      requires Valid() && stackTop < stack.Length
      modifies this, stack
      ensures Valid() && Stack() == old(Stack()) + [value]
    {
      stack[stackTop] := value;
      stackTop := stackTop + 1;
    }

    /** pop: move the top down and return the value found there; the stack must not be empty. */
    method Pop() returns (value: Value)
      requires Valid() && stackTop > 0
      modifies this
      ensures Valid()
      ensures value == old(Stack())[|old(Stack())| - 1]
      ensures Stack() == old(Stack())[..|old(Stack())| - 1]
    {
      stackTop := stackTop - 1;
      value := stack[stackTop];
    }

    /** A push followed by a pop gives back the pushed value and leaves the stack as it was. */
    method PushThenPop(value: Value) returns (popped: Value)
      requires Valid() && stackTop < stack.Length
      modifies this, stack
      ensures Valid() && popped == value && Stack() == old(Stack())
    {
      Push(value);
      popped := Pop();
    }
  }
}
