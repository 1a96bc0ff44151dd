/** sigprocmask on the library's 32-bit sets over the kernel's 64-bit ones. */
module SigMask {
  import opened Lists
  import opened Bits
  import S = SigSet

  /** The process's signal mask as the kernel keeps it, its low word being signals 1 to 32. */
  datatype Mask = Mask(low: bv32, high: bv32)

  const SIG_BLOCK: int := 0
  const SIG_UNBLOCK: int := 1
  const SIG_SETMASK: int := 2

  const EINVAL: int := 22

  /** Signals 9 and 19, which the kernel never blocks. */
  const UNBLOCKABLE: bv32 := 0x40100

  function Strip(w: bv32): bv32 {
    Minus(w, UNBLOCKABLE)
  }

  /** A mask the kernel can have. */
  predicate Steady(m: Mask) {
    Strip(m.low) == m.low
  }

  /** The kernel's part of sigprocmask, on 64 bits. */
  function Masked(m: Mask, how: int, by_: Mask): Mask {
    if how == SIG_BLOCK then Mask(Strip(Union(m.low, by_.low)), Union(m.high, by_.high))
    else if how == SIG_UNBLOCK then Mask(Strip(Minus(m.low, by_.low)), Minus(m.high, by_.high))
    else if how == SIG_SETMASK then Mask(Strip(by_.low), by_.high)
    else m
  }

  /** The library's 32-bit set widened by zeros. */
  function Widened(w: bv32): Mask {
    Mask(w, 0)
  }

  lemma StripTwice(w: bv32)
    ensures Strip(Strip(w)) == Strip(w)
  {
  }

  lemma MaskedIsSteady(m: Mask, how: int, by_: Mask)
    requires Steady(m)
    ensures Steady(Masked(m, how, by_))
  {
    hide Strip, Union, Minus;
    StripTwice(Union(m.low, by_.low));
    StripTwice(Minus(m.low, by_.low));
    StripTwice(by_.low);
  }

  lemma UnblockableBits(k: bv32)
    requires k < 32
    ensures Bit(UNBLOCKABLE, k) <==> k == 8 || k == 18
  {
  }

  lemma BitStrip(w: bv32, k: bv32)
    requires k < 32
    ensures Bit(Strip(w), k) <==> Bit(w, k) && k != 8 && k != 18
  {
    hide Bit, Minus;
    BitMinus(w, UNBLOCKABLE, k);
    UnblockableBits(k);
  }

  /** The signals of a one-word set. */
  function Signals(w: bv32): set<int> {
    S.Members([w])
  }

  lemma SignalsByBit(w: bv32, n: int)
    ensures n in Signals(w) <==> 1 <= n <= 32 && Bit(w, Count(n - 1))
  {
    assert n in Signals(w) <==> S.Has([w], n);
  }

  /** Bit n - 1 of a word is signal n. */
  lemma SignalOfBit(n: int)
    requires 1 <= n <= 32
    ensures Signals(1 << Count(n - 1)) == {n}
  {
    hide Bit, Count, Signals;
    var w := 1 << Count(n - 1);
    forall m: int
      ensures m in Signals(w) <==> m == n
    {
      SignalsByBit(w, m);
      if 1 <= m <= 32 {
        BitOfOne(Count(n - 1), Count(m - 1));
        assert Count(n - 1) == Count(m - 1) ==> Count(n - 1) as int == Count(m - 1) as int;
      }
    }
  }

  lemma BitOfOne(i: bv32, k: bv32)
    requires i < 32 && k < 32
    ensures Bit(1 << i, k) <==> i == k
  {
    BitWith(0, i, k);
    assert WithBit(0, i) == 1 << i;
  }

  lemma SignalsOfUnion(v: bv32, w: bv32)
    ensures Signals(Union(v, w)) == Signals(v) + Signals(w)
  {
    hide Bit, Count, Union, Signals;
    forall n: int
      ensures n in Signals(Union(v, w)) <==> n in Signals(v) + Signals(w)
    {
      SignalsByBit(v, n);
      SignalsByBit(w, n);
      SignalsByBit(Union(v, w), n);
      if 1 <= n <= 32 {
        BitUnion(v, w, Count(n - 1));
      }
    }
  }

  lemma SignalsOfMinus(v: bv32, w: bv32)
    ensures Signals(Minus(v, w)) == Signals(v) - Signals(w)
  {
    hide Bit, Count, Minus, Signals;
    forall n: int
      ensures n in Signals(Minus(v, w)) <==> n in Signals(v) - Signals(w)
    {
      SignalsByBit(v, n);
      SignalsByBit(w, n);
      SignalsByBit(Minus(v, w), n);
      if 1 <= n <= 32 {
        BitMinus(v, w, Count(n - 1));
      }
    }
  }

  lemma CountIs(n: int)
    requires 1 <= n <= 32
    ensures Count(n - 1) == 8 <==> n == 9
    ensures Count(n - 1) == 18 <==> n == 19
  {
  }

  lemma SignalsOfStrip(w: bv32)
    ensures Signals(Strip(w)) == Signals(w) - {9, 19}
  {
    hide Bit, Count, Strip, Signals;
    forall n: int
      ensures n in Signals(Strip(w)) <==> n in Signals(w) - {9, 19}
    {
      SignalsByBit(w, n);
      SignalsByBit(Strip(w), n);
      if 1 <= n <= 32 {
        CountIs(n);
        BitStrip(w, Count(n - 1));
      }
    }
  }

  /** Blocking is union, unblocking difference, setting replaces; none blocks signal 9 or 19. */
  lemma MaskedIsSetOperation(m: Mask, w: bv32)
    ensures Signals(Masked(m, SIG_BLOCK, Widened(w)).low) == Signals(m.low) + Signals(w) - {9, 19}
    ensures Signals(Masked(m, SIG_UNBLOCK, Widened(w)).low) == Signals(m.low) - Signals(w) - {9, 19}
    ensures Signals(Masked(m, SIG_SETMASK, Widened(w)).low) == Signals(w) - {9, 19}
  {
    hide Signals, Strip, Union, Minus;
    SignalsOfUnion(m.low, w);
    SignalsOfMinus(m.low, w);
    SignalsOfStrip(Union(m.low, w));
    SignalsOfStrip(Minus(m.low, w));
    SignalsOfStrip(w);
  }

  /** The signals above 32, which the library's sets cannot name, stay as they are except that setting
      unblocks them all; any other `how` changes nothing. */
  lemma HighSignals(m: Mask, how: int, w: bv32)
    ensures Masked(m, how, Widened(w)).high == if how == 2 then 0 else m.high
    ensures how !in {0, 1, 2} ==> Masked(m, how, Widened(w)) == m
  {
    hide Strip, Union, Minus;
    NoneAbove(m.high);
  }

  lemma NoneAbove(h: bv32)
    ensures Union(h, 0) == h && Minus(h, 0) == h
  {
  }

  /** sigblock(0) reads the mask and leaves it. */
  lemma BlockNothing(m: Mask)
    requires Steady(m)
    ensures Masked(m, SIG_BLOCK, Widened(0)) == m
  {
  }

  /** The process whose mask the calls change. */
  class Process {
    var mask: Mask

    constructor ()
      ensures mask == Mask(0, 0)
    {
      mask := Mask(0, 0);
    }

    /** The system call: the old set is always written, a bad `how` with a new set fails. */
    method KernelSigProcMask(how: int, newSet: Option<Mask>) returns (r: int, oldSet: Mask)
      modifies this
      ensures oldSet == old(mask)
      ensures r == if newSet.Some? && how !in {SIG_BLOCK, SIG_UNBLOCK, SIG_SETMASK} then -1 else 0
      ensures mask == if newSet.Some? then Masked(old(mask), how, newSet.value) else old(mask)
    {
      r, oldSet := 0, mask;
      if newSet.Some? {
        if how !in {SIG_BLOCK, SIG_UNBLOCK, SIG_SETMASK} {
          r := -1;
        }
        mask := Masked(mask, how, newSet.value);
      }
    }

    /** The old set is returned only on success. */
    method SigProcMask(how: int, bionicNew: Option<bv32>) returns (r: int, bionicOld: Option<bv32>)
      modifies this
      ensures r == if bionicNew.Some? && how !in {SIG_BLOCK, SIG_UNBLOCK, SIG_SETMASK} then -1 else 0
      ensures bionicOld == if r == -1 then None else Some(old(mask).low)
      ensures bionicNew == None ==> mask == old(mask)
      ensures bionicNew.Some? ==> mask == Masked(old(mask), how, Widened(bionicNew.value))
    {
      var newSet: Option<Mask> := None;
      if bionicNew.Some? {
        newSet := Some(Widened(bionicNew.value));
      }
      var ret, oldSet := KernelSigProcMask(how, newSet);
      if ret == -1 {
        return -1, None;
      }
      return 0, Some(oldSet.low);
    }

    method SigBlock(m: bv32) returns (r: bv32)
      modifies this
      ensures r == old(mask).low && mask == Masked(old(mask), SIG_BLOCK, Widened(m))
    {
      var n, out := SigProcMask(SIG_BLOCK, Some(m));
      if n != 0 {
        return 0xFFFF_FFFF;
      }
      r := out.value;
    }

    method SigSetMask(m: bv32) returns (r: bv32)
      modifies this
      ensures r == old(mask).low && mask == Masked(old(mask), SIG_SETMASK, Widened(m))
    {
      var n, out := SigProcMask(SIG_SETMASK, Some(m));
      if n != 0 {
        return 0xFFFF_FFFF;
      }
      r := out.value;
    }
  }
}
