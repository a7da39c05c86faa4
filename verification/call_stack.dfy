/**
 * The call stack of the mpz virtual machine: a stack of call frames and an
 * iterator over the instructions of the current frame.  Instructions are
 * kept abstract (type parameter `T`); instruction indices are 16-bit.
 */
module VmCallStack {
  import opened Wrappers
  import opened VmRegisters

  /** A function: its arity and its code. */
  datatype Function<T> = Function(arity: nat, instr: seq<T>)

  /** A frame: the callee, the caller's instruction index to resume at, and the register base. */
  datatype CallFrame<T> = CallFrame(callee: Function<T>, returnIdx: nat, base: nat)

  datatype CallStackError = StackEmpty | InstrOutOfBounds

  /** The instructions of the current frame and the index of the next one. */
  class InstrIter<T(==)> {
    var instr: seq<T>
    var ip: nat

    /** `default`: no instructions, index 0. */
    constructor Default()
      ensures instr == [] && ip == 0
    {
      instr := [];
      ip := 0;
    }

    /** `switch_frame`: runs `code` from index `idx`. */
    method SwitchFrame(code: seq<T>, idx: nat)
      modifies this
      ensures instr == code && ip == idx
    {
      instr := code;
      ip := idx;
    }

    /** `set_idx`. */
    method SetIdx(idx: nat)
      modifies this
      ensures instr == old(instr) && ip == idx
    {
      ip := idx;
    }

    /**
     * `next`: the instruction at the index, or `None` past the end; the
     * index advances either way.
     */
    method Next() returns (r: Option<T>)
      requires ip + 1 < U16Bound
      modifies this
      ensures old(ip) < |instr| ==> r == Some(instr[old(ip)])
      ensures old(ip) >= |instr| ==> r == None
      ensures instr == old(instr) && ip == old(ip) + 1
    {
      r := if ip < |instr| then Some(instr[ip]) else None;
      ip := ip + 1;
    }
  }

  class CallStack<T(==)> {
    var stack: seq<CallFrame<T>>
    const current: InstrIter<T>

    /**
     * Indices and bases fit in 16 bits, and while a frame is on the stack
     * the iterator walks the code of the top frame.
     */
    predicate Valid()
      reads this, current
    {
      current.ip < U16Bound &&
      (forall k :: 0 <= k < |stack| ==> stack[k].returnIdx < U16Bound && stack[k].base < U16Bound) &&
      (|stack| > 0 ==> current.instr == stack[|stack| - 1].callee.instr)
    }

    constructor Default()
      ensures Valid() && stack == [] && fresh(current)
      ensures current.instr == [] && current.ip == 0
    {
      stack := [];
      current := new InstrIter.Default();
    }

    predicate IsEmpty()
      reads this
    {
      |stack| == 0
    }

    /** `register_base`: the base of the top frame, 0 on an empty stack. */
    function RegisterBase(): nat
      reads this
    {
      if |stack| == 0 then 0 else stack[|stack| - 1].base
    }

    /**
     * `call`: remembers the current index in a new frame for `func` with
     * register base `base`, and starts `func` at its first instruction.
     */
    method Call(func: Function<T>, base: nat)
      requires Valid() && base < U16Bound
      modifies this, current
      ensures stack == old(stack) + [CallFrame(func, old(current.ip), base)]
      ensures current.instr == func.instr && current.ip == 0
      ensures RegisterBase() == base && Valid()
    {
      var returnIdx := current.ip;
      current.SwitchFrame(func.instr, 0);
      stack := stack + [CallFrame(func, returnIdx, base)];
    }

    /**
     * `return_call`: fails on an empty stack; otherwise pops the top frame
     * and, when a caller remains, resumes the caller's code at the index
     * saved in the popped frame.  Popping the last frame leaves the
     * iterator as it was.
     */
    method ReturnCall() returns (r: Result<(), CallStackError>)
      requires Valid()
      modifies this, current
      ensures old(|stack|) == 0 ==> r == Err(StackEmpty) && stack == old(stack) && unchanged(current)
      ensures old(|stack|) > 0 ==> r == Ok(()) && stack == old(stack[..|stack| - 1]) && Valid()
      ensures old(|stack|) == 1 ==> unchanged(current) && RegisterBase() == 0
      ensures old(|stack|) > 1 ==>
                current.instr == stack[|stack| - 1].callee.instr &&
                current.ip == old(stack[|stack| - 1].returnIdx) &&
                RegisterBase() == old(stack[|stack| - 2].base)
    {
      if |stack| == 0 {
        return Err(StackEmpty);
      }
      var old_frame := stack[|stack| - 1];
      stack := stack[..|stack| - 1];
      if |stack| > 0 {
        current.SwitchFrame(stack[|stack| - 1].callee.instr, old_frame.returnIdx);
      }
      return Ok(());
    }

    /**
     * `jump`: moves the index by `offset`; a target below 0 or beyond the
     * end of the code fails and leaves the index alone.  The target is
     * stored as a 16-bit index.
     */
    method Jump(offset: int) returns (r: Result<(), CallStackError>)
      requires Valid()
      modifies current
      ensures var target := old(current.ip) + offset;
              (target < 0 || target > |current.instr|) ==> r == Err(InstrOutOfBounds) && unchanged(current)
      ensures var target := old(current.ip) + offset;
              0 <= target <= |current.instr| ==>
                r == Ok(()) && current.ip == target % U16Bound && current.instr == old(current.instr)
      ensures Valid()
    {
      var target := current.ip + offset;
      if target < 0 || target > |current.instr| {
        return Err(InstrOutOfBounds);
      }
      current.SetIdx(target % U16Bound);
      return Ok(());
    }

    /** `next_instr`: the next instruction of the current frame, as the iterator yields it. */
    method NextInstr() returns (r: Option<T>)
      requires Valid() && current.ip + 1 < U16Bound
      modifies current
      ensures old(current.ip) < |current.instr| ==> r == Some(current.instr[old(current.ip)])
      ensures old(current.ip) >= |current.instr| ==> r == None
      ensures current.instr == old(current.instr) && current.ip == old(current.ip) + 1 && Valid()
    {
      r := current.Next();
    }
  }

  /**
   * A call followed by a return from the callee resumes the caller where it
   * stopped: same frames, same code, same index, same register base.
   */
  method CallThenReturn<T(==)>(cs: CallStack<T>, func: Function<T>, base: nat)
    requires cs.Valid() && |cs.stack| > 0 && base < U16Bound
    modifies cs, cs.current
    ensures cs.stack == old(cs.stack) && cs.Valid()
    ensures cs.current.instr == old(cs.current.instr) && cs.current.ip == old(cs.current.ip)
    ensures cs.RegisterBase() == old(cs.RegisterBase())
  {
    cs.Call(func, base);
    var r := cs.ReturnCall();
    assert cs.stack == old(cs.stack);
  }
}
