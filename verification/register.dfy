/**
 * The register file of the mpz virtual machine: a fixed buffer of 1024
 * optional values and a base register index.  Register `index` of the current
 * frame is slot `base + index` of the buffer; both are 16-bit ids.
 */
module VmRegisters {
  import opened Wrappers

  const RegisterCapacity: nat := 1024
  const RegisterWindow: nat := 256
  const ReturnRegister: nat := 0
  const ArgumentRegister: nat := 1

  /** Register ids, bases and instruction indices are `u16`. */
  const U16Bound: nat := 0x1_0000

  class Registers<V> {
    const slots: array<Option<V>>
    var base: nat

    predicate Valid()
      reads this
    {
      slots.Length == RegisterCapacity && base < U16Bound
    }

    /** Register `index` of the current frame exists: `base + index` is inside the buffer. */
    predicate Addressable(index: nat)
      reads this
    {
      index < U16Bound && base + index < slots.Length
    }

    /** The value in register `index` of the current frame. */
    function Get(index: nat): Option<V>
      reads this, slots
      requires Addressable(index)
    {
      slots[base + index]
    }

    /** `default`: all 1024 registers empty, base 0. */
    constructor Default()
      ensures Valid() && base == 0 && fresh(slots)
      ensures forall k :: 0 <= k < slots.Length ==> slots[k] == None
    {
      slots := new Option<V>[RegisterCapacity](_ => None);
      base := 0;
    }

    /** `self[index] = v`: writes one register and no other slot. */
    method Set(index: nat, v: Option<V>)
      requires Addressable(index)
      modifies slots
      ensures Get(index) == v
      ensures forall k :: 0 <= k < slots.Length && k != base + index ==> slots[k] == old(slots[k])
      ensures forall j :: Addressable(j) && j != index ==> Get(j) == old(Get(j))
    {
      slots[base + index] := v;
    }

    /** `self[index].take()`: returns the register's value and leaves it empty. */
    method Take(index: nat) returns (v: Option<V>)
      requires Addressable(index)
      modifies slots
      ensures v == old(Get(index)) && Get(index) == None
      ensures forall k :: 0 <= k < slots.Length && k != base + index ==> slots[k] == old(slots[k])
    {
      v := slots[base + index];
      slots[base + index] := None;
    }

    /** `set_base`: moves the window and touches no register. */
    method SetBase(b: nat)
      requires b < U16Bound
      modifies this
      ensures base == b
    {
      base := b;
    }

    /**
     * `get_mut`: the `REGISTER_WINDOW` registers of the current frame, which
     * are the registers `0 .. 255` as indexing reads them.
     */
    function Window(): (w: seq<Option<V>>)
      reads this, slots
      requires base + RegisterWindow <= slots.Length
      ensures |w| == RegisterWindow
      ensures forall i :: 0 <= i < RegisterWindow ==> Addressable(i) && w[i] == Get(i)
    {
      slots[base..base + RegisterWindow]
    }
  }
}
