/**
 * The local executors of the mpz virtual machine: the semantics of the
 * control-flow instructions (`Return`, `Call`, `JumpIfTrue`) over the
 * register file and the call stack, and of the memory instructions
 * (`LoadLiteral`, `Move`, `Copy`) over the register file.
 *
 * Where the source panics (an `unwrap` of a missing value, an arity
 * mismatch, a register index outside the buffer, an instruction marked
 * `todo!`) the model returns `Err(Panic)`; the state after a panic is not
 * specified.
 */
module VmExecutor {
  import opened Wrappers
  import opened VmRegisters
  import opened VmCallStack

  datatype ControlFlowInstr =
    | Jump(offset: int)
    | JumpIfTrue(offset: int, condition: nat)
    | JumpIfFalse(offset: int, condition: nat)
    | Call(funcId: nat, argCount: nat, dest: nat)
    | Return(ret: nat)
    | Branch

  datatype MemoryInstr<V> =
    | Store(src: nat, addr: nat)
    | Load(addr: nat, dest: nat)
    | LoadLiteral(value: V, dest: nat)
    | Move(src: nat, dest: nat)
    | Copy(src: nat, dest: nat)

  datatype Instr<I, V> = Data(data: I) | ControlFlow(cf: ControlFlowInstr) | Memory(mem: MemoryInstr<V>)

  datatype ExecStatus<V> = Pending | Return(value: Option<V>)

  /** An error the executor returns, or a panic of the source. */
  datatype Failure = CallStackFailed(err: CallStackError) | Panic

  /** Slots other than `a` and `b` (absolute positions) hold what they held. */
  twostate predicate OthersKept<V>(regs: Registers<V>, a: nat, b: nat)
    reads regs, regs.slots
  {
    forall k :: 0 <= k < regs.slots.Length && k != a && k != b ==> regs.slots[k] == old(regs.slots[k])
  }

  /**
   * `Return { ret }` done: the value moves from `ret` into the return
   * register, the frame is popped and the base follows the call stack;
   * popping the last frame moves the base to 0 and hands out what register
   * 0 then holds: the returned value when the frame's base was 0, and
   * otherwise the earlier content of slot 0, the value staying in the old
   * return register.
   */
  twostate predicate ReturnDone<I, V>(regs: Registers<V>, cs: CallStack<Instr<I, V>>, ret: nat,
                                             new r: Result<ExecStatus<V>, Failure>)
    reads regs, regs.slots, cs, cs.current
  {
    (!old(regs.Addressable(ret)) ==> r == Err(Panic)) &&
    (old(regs.Addressable(ret)) && |old(cs.stack)| == 0 ==>
       r == Err(CallStackFailed(StackEmpty)) && regs.base == old(regs.base) &&
       regs.slots[old(regs.base)] == old(regs.Get(ret))) &&
    (old(regs.Addressable(ret)) && |old(cs.stack)| == 1 ==>
       r.Ok? && r.value.Return? && cs.stack == [] && regs.base == 0 && regs.slots[0] == None &&
       (old(regs.base) == 0 ==> r.value.value == old(regs.Get(ret))) &&
       (old(regs.base) != 0 ==> r.value.value == old(regs.slots[0]) && regs.slots[old(regs.base)] == old(regs.Get(ret)))) &&
    (old(regs.Addressable(ret)) && |old(cs.stack)| > 1 ==>
       r == Ok(Pending) && cs.stack == old(cs.stack[..|cs.stack| - 1]) &&
       regs.base == cs.RegisterBase() && regs.slots[old(regs.base)] == old(regs.Get(ret)) &&
       (ret != ReturnRegister ==> regs.slots[old(regs.base) + ret] == None))
  }

  /**
   * `Call { function, arg_count, dest }` done: a missing function or a
   * wrong argument count panics; otherwise a frame with base `dest` is
   * pushed and the registers follow it.
   */
  twostate predicate CallDone<I, V>(regs: Registers<V>, cs: CallStack<Instr<I, V>>,
                                           funcTable: seq<Function<Instr<I, V>>>, funcId: nat, argCount: nat, dest: nat,
                                           new r: Result<ExecStatus<V>, Failure>)
    reads regs, cs, cs.current
  {
    ((funcId >= |funcTable| || argCount != funcTable[funcId].arity) ==> r == Err(Panic)) &&
    (funcId < |funcTable| && argCount == funcTable[funcId].arity ==>
       r == Ok(Pending) &&
       cs.stack == old(cs.stack) + [CallFrame(funcTable[funcId], old(cs.current.ip), dest)] &&
       cs.current.instr == funcTable[funcId].instr && cs.current.ip == 0 &&
       regs.base == dest == cs.RegisterBase())
  }

  /**
   * `JumpIfTrue { offset, condition }` done: the condition register is
   * consumed; the jump happens only on a true condition.
   */
  twostate predicate JumpIfTrueDone<I, V>(regs: Registers<V>, cs: CallStack<Instr<I, V>>, isTrue: V -> Option<bool>,
                                                 offset: int, condition: nat, new r: Result<ExecStatus<V>, Failure>)
    reads regs, regs.slots, cs, cs.current
  {
    ((!old(regs.Addressable(condition)) || old(regs.Get(condition)).None? ||
      isTrue(old(regs.Get(condition)).value).None?) ==> r == Err(Panic)) &&
    (old(regs.Addressable(condition)) && old(regs.Get(condition)).Some? &&
     isTrue(old(regs.Get(condition)).value).Some? ==>
       var jump := isTrue(old(regs.Get(condition)).value).value;
       var target := old(cs.current.ip) + offset;
       regs.base == old(regs.base) &&
       regs.Get(condition) == None && cs.stack == old(cs.stack) &&
       cs.current.instr == old(cs.current.instr) &&
       (!jump ==> r == Ok(Pending) && cs.current.ip == old(cs.current.ip)) &&
       (jump && 0 <= target <= |cs.current.instr| ==> r == Ok(Pending) && cs.current.ip == target % U16Bound) &&
       (jump && !(0 <= target <= |cs.current.instr|) ==>
          r == Err(CallStackFailed(InstrOutOfBounds)) && cs.current.ip == old(cs.current.ip)))
  }

  /**
   * `LocalCfExecutor::execute`.  `funcTable` is the global function table
   * and `isTrue` the value's `is_true`, `None` standing for its error.
   * `Jump`, `JumpIfFalse` and `Branch` are `todo!`.
   */
  method ExecuteControlFlow<I(==), V(==)>(instr: ControlFlowInstr, regs: Registers<V>, cs: CallStack<Instr<I, V>>,
                                          funcTable: seq<Function<Instr<I, V>>>, isTrue: V -> Option<bool>)
    returns (r: Result<ExecStatus<V>, Failure>)
    requires regs.Valid() && cs.Valid()
    requires instr.Call? ==> instr.dest < U16Bound
    modifies regs, regs.slots, cs, cs.current
    ensures regs.Valid() && cs.Valid()
    ensures instr.Return? ==> ReturnDone(regs, cs, instr.ret, r)
    ensures instr.Call? ==> CallDone(regs, cs, funcTable, instr.funcId, instr.argCount, instr.dest, r)
    ensures instr.JumpIfTrue? ==> JumpIfTrueDone(regs, cs, isTrue, instr.offset, instr.condition, r)
    ensures instr.Jump? || instr.JumpIfFalse? || instr.Branch? ==> r == Err(Panic)
  {
    match instr
    case Return(ret) =>
      r := ExecReturn(regs, cs, ret);
    case Call(funcId, argCount, dest) =>
      r := ExecCall(regs, cs, funcTable, funcId, argCount, dest);
    case JumpIfTrue(offset, condition) =>
      r := ExecJumpIfTrue(regs, cs, isTrue, offset, condition);
    case _ =>
      r := Err(Panic);
  }

  method ExecReturn<I(==), V(==)>(regs: Registers<V>, cs: CallStack<Instr<I, V>>, ret: nat)
    returns (r: Result<ExecStatus<V>, Failure>)
    requires regs.Valid() && cs.Valid()
    modifies regs, regs.slots, cs, cs.current
    ensures regs.Valid() && cs.Valid()
    ensures ReturnDone(regs, cs, ret, r)
  {
    if !regs.Addressable(ret) {
      return Err(Panic);
    }
    var v := regs.Take(ret);
    regs.Set(ReturnRegister, v);
    var rc := cs.ReturnCall();
    if rc.Err? {
      return Err(CallStackFailed(rc.error));
    }
    regs.SetBase(cs.RegisterBase());
    if cs.IsEmpty() {
      var out := regs.Take(ReturnRegister);
      return Ok(ExecStatus.Return(out));
    }
    return Ok(Pending);
  }

  method ExecCall<I(==), V(==)>(regs: Registers<V>, cs: CallStack<Instr<I, V>>,
                                funcTable: seq<Function<Instr<I, V>>>, funcId: nat, argCount: nat, dest: nat)
    returns (r: Result<ExecStatus<V>, Failure>)
    requires regs.Valid() && cs.Valid() && dest < U16Bound
    modifies regs, cs, cs.current
    ensures regs.Valid() && cs.Valid()
    ensures CallDone(regs, cs, funcTable, funcId, argCount, dest, r)
  {
    if funcId >= |funcTable| {
      return Err(Panic);
    }
    var func := funcTable[funcId];
    if argCount != func.arity {
      return Err(Panic);
    }
    cs.Call(func, dest);
    regs.SetBase(dest);
    return Ok(Pending);
  }

  method ExecJumpIfTrue<I(==), V(==)>(regs: Registers<V>, cs: CallStack<Instr<I, V>>, isTrue: V -> Option<bool>,
                                      offset: int, condition: nat)
    returns (r: Result<ExecStatus<V>, Failure>)
    requires regs.Valid() && cs.Valid()
    modifies regs.slots, cs.current
    ensures regs.Valid() && cs.Valid()
    ensures JumpIfTrueDone(regs, cs, isTrue, offset, condition, r)
  {
    if !regs.Addressable(condition) {
      return Err(Panic);
    }
    var c := regs.Take(condition);
    if c.None? {
      return Err(Panic);
    }
    var t := isTrue(c.value);
    if t.None? {
      return Err(Panic);
    }
    if t.value {
      var rj := cs.Jump(offset);
      if rj.Err? {
        return Err(CallStackFailed(rj.error));
      }
    }
    return Ok(Pending);
  }

  /** `LocalMemoryExecutor::execute`. */
  method ExecuteMemory<V>(instr: MemoryInstr<V>, regs: Registers<V>) returns (r: Result<(), Failure>)
    requires regs.Valid()
    modifies regs.slots
    ensures instr.LoadLiteral? ==>
              if !regs.Addressable(instr.dest) then r == Err(Panic)
              else r == Ok(()) && regs.Get(instr.dest) == Some(instr.value) &&
                   OthersKept(regs, regs.base + instr.dest, regs.base + instr.dest)
    // Move takes the source before writing the destination, so a move onto
    // itself keeps the value.
    ensures instr.Move? ==>
              if !regs.Addressable(instr.src) || !regs.Addressable(instr.dest) then r == Err(Panic)
              else r == Ok(()) && regs.Get(instr.dest) == old(regs.Get(instr.src)) &&
                   (instr.src != instr.dest ==> regs.Get(instr.src) == None) &&
                   OthersKept(regs, regs.base + instr.src, regs.base + instr.dest)
    ensures instr.Copy? ==>
              if !regs.Addressable(instr.src) || !regs.Addressable(instr.dest) then r == Err(Panic)
              else r == Ok(()) && regs.Get(instr.dest) == old(regs.Get(instr.src)) &&
                   regs.Get(instr.src) == old(regs.Get(instr.src)) &&
                   OthersKept(regs, regs.base + instr.dest, regs.base + instr.dest)
    ensures instr.Store? || instr.Load? ==> r == Err(Panic)
  {
    match instr
    case LoadLiteral(value, dest) =>
      if !regs.Addressable(dest) {
        return Err(Panic);
      }
      regs.Set(dest, Some(value));
      return Ok(());
    case Move(src, dest) =>
      if !regs.Addressable(src) || !regs.Addressable(dest) {
        return Err(Panic);
      }
      var v := regs.Take(src);
      regs.Set(dest, v);
      return Ok(());
    case Copy(src, dest) =>
      if !regs.Addressable(src) || !regs.Addressable(dest) {
        return Err(Panic);
      }
      var v := regs.Get(src);
      regs.Set(dest, v);
      return Ok(());
    case _ =>
      return Err(Panic);
  }
}
