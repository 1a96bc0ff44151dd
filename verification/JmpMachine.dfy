/** The two assembly routines, run on a register file and a memory. */
module JmpMachine {
  import opened SigMask
  import opened JmpBuf

  /** What was pushed before a call is there after it. */
  lemma PushedSurvives(m: Memory, top: int, pushed: seq<Word>, stack: seq<Word>, k: int)
    requires 0 <= top - |pushed| - |stack| && top <= |m| && 0 <= k < |pushed|
    ensures Called(m, top, pushed, stack)[top - |pushed| + k] == pushed[k]
  {
  }

  /** The register file after the call of my_sigblock, put together. */
  lemma MaskWords(was: seq<Word>, called: seq<Word>, now: seq<Word>, mask: Word, scratch: Scratch)
    requires |was| == 16 && was[SP] >= 8
    requires called == [mask, mask, scratch.r2, scratch.r3] + was[4..12] +
                       [scratch.r12, was[SP] - 8, scratch.lr, was[PC]]
    requires now == called[0 := was[0]][LR := was[LR]][SP := was[SP]]
    ensures now == [was[0], mask, scratch.r2, scratch.r3] + was[4..12] + [scratch.r12] + was[13..]
  {
  }

  lemma SetJmpWords(s: seq<Word>, fpscr: Word, r23: seq<Word>, kept: seq<Word>)
    requires |s| == 16 && s[2..4] == r23 && s[4..15] == kept
    ensures s[LR] == kept[10]
    ensures s[1 := fpscr][0 := 0][PC := s[LR]] == [0, fpscr] + r23 + kept + [kept[10]]
  {
    var t := s[1 := fpscr][0 := 0][PC := s[LR]];
    assert t[2..4] == s[2..4] && t[4..15] == s[4..15];
    assert s[LR] == s[4..15][10];
    assert t == t[..2] + t[2..4] + t[4..15] + t[15..];
  }

  class Machine {
    const core: array<Word>
    const vfp: array<Word>
    const memory: array<Word>
    const process: Process
    var fpscr: Word

    ghost predicate Valid()
      reads this, process
    {
      && core.Length == 16 && vfp.Length == 16 && memory.Length <= 0x4000_0000
      && core != vfp && core != memory && vfp != memory
      && Steady(process.mask)
    }

    ghost function View(): Cpu
      reads this, core, vfp, memory, process
    {
      Cpu(core[..], vfp[..], fpscr, process.mask, memory[..])
    }

    constructor (core: array<Word>, vfp: array<Word>, memory: array<Word>, process: Process, fpscr: Word)
      requires core.Length == 16 && vfp.Length == 16 && memory.Length <= 0x4000_0000
      requires core != vfp && core != memory && vfp != memory && Steady(process.mask)
      ensures Valid() && View() == Cpu(core[..], vfp[..], fpscr, process.mask, memory[..])
    {
      this.core, this.vfp, this.memory, this.process, this.fpscr := core, vfp, memory, process, fpscr;
    }

    // ---- Instructions --------------------------------------------------------------------

    /** Store multiple, upwards from word `at`. */
    method Stm(at: int, words: seq<Word>)
      requires 0 <= at && at + |words| <= memory.Length
      modifies memory
      ensures memory[..] == Store(old(memory[..]), at, words)
    {
      ghost var was := memory[..];
      for i := 0 to |words|
        invariant forall k | 0 <= k < at :: memory[k] == was[k]
        invariant forall k | 0 <= k < i :: memory[at + k] == words[k]
        invariant forall k | at + i <= k < memory.Length :: memory[k] == was[k]
      {
        memory[at + i] := words[i];
      }
    }

    /** Load multiple into registers of `file` from number `first` on. */
    method Ldm(file: array<Word>, first: int, n: int, at: int)
      requires 0 <= first && 0 <= n && first + n <= file.Length && 0 <= at && at + n <= memory.Length
      requires file != memory
      modifies file
      ensures file[..] == old(file[..first]) + memory[at..at + n] + old(file[first + n..])
    {
      ghost var was := file[..];
      for i := 0 to n
        invariant forall k | 0 <= k < first :: file[k] == was[k]
        invariant forall k | first <= k < first + i :: file[k] == memory[at + (k - first)]
        invariant forall k | first + i <= k < file.Length :: file[k] == was[k]
      {
        file[first + i] := memory[at + i];
      }
    }

    /** A C function was called: its result in r0, junk in the other scratch registers. */
    method Clobber(result: Word, scratch: Scratch)
      requires core.Length == 16 && core != memory
      requires 0 <= core[SP] / 4 - |scratch.stack| && core[SP] / 4 <= memory.Length
      modifies core, memory
      ensures core[..] == [result, scratch.r1, scratch.r2, scratch.r3] + old(core[4..12]) +
                          [scratch.r12, old(core[SP]), scratch.lr, old(core[PC])]
      ensures memory[..] == Store(old(memory[..]), old(core[SP]) / 4 - |scratch.stack|, scratch.stack)
    {
      Stm(core[SP] / 4 - |scratch.stack|, scratch.stack);
      core[0], core[1], core[2], core[3] := result, scratch.r1, scratch.r2, scratch.r3;
      core[12], core[LR] := scratch.r12, scratch.lr;
    }

    /** Store multiple below the stack pointer, which moves down to the last word stored. */
    method Push(words: seq<Word>)
      requires core.Length == 16 && core != memory
      requires 0 <= core[SP] / 4 - |words| && core[SP] / 4 <= memory.Length
      modifies core, memory
      ensures core[..] == old(core[..])[SP := old(core[SP]) - 4 * |words|]
      ensures memory[..] == Store(old(memory[..]), old(core[SP]) / 4 - |words|, words)
    {
      Stm(core[SP] / 4 - |words|, words);
      core[SP] := core[SP] - 4 * |words|;
    }

    // ---- my_sigsetjmp --------------------------------------------------------------------

    /** The call of my_sigblock with its pushes and pops; what is saved ends up in r1. */
    method ReadMask(scratch: Scratch)
      requires core.Length == 16 && core != memory && Steady(process.mask) && core[SP] % 4 == 0
      requires 0 <= core[SP] / 4 - 2 - |scratch.stack| && core[SP] / 4 <= memory.Length
      modifies core, memory, process
      ensures process.mask == old(process.mask)
      ensures core[..] == [old(core[0]), WordOf(old(process.mask.low)), scratch.r2, scratch.r3] + old(core[4..12]) +
                          [scratch.r12] + old(core[13..])
      ensures memory[..] == Called(old(memory[..]), old(core[SP]) / 4, [old(core[0]), old(core[LR])], scratch.stack)
    {
      hide WordOf, MaskOf, Store, Masked, Steady;
      BlockNothing(process.mask);
      ghost var top, was, m := core[SP] / 4, core[..], memory[..];
      Push([core[0], core[LR]]);
      core[0] := 0;
      var previous := process.SigBlock(0);
      Clobber(WordOf(previous), scratch);
      core[1] := core[0];
      ghost var called := core[..];
      PushedSurvives(m, top, [was[0], was[LR]], scratch.stack, 0);
      PushedSurvives(m, top, [was[0], was[LR]], scratch.stack, 1);
      PopPair();
      MaskWords(was, called, core[..], WordOf(previous), scratch);
    }

    /** Load multiple r0 and lr from the stack, which moves up. */
    method PopPair()
      requires core.Length == 16 && core != memory && core[SP] / 4 + 2 <= memory.Length
      requires core[SP] as int + 8 < 0x1_0000_0000
      modifies core
      ensures core[..] == old(core[..])[0 := memory[old(core[SP]) / 4]][LR := memory[old(core[SP]) / 4 + 1]]
                            [SP := old(core[SP]) + 8]
    {
      core[0], core[LR] := memory[core[SP] / 4], memory[core[SP] / 4 + 1];
      core[SP] := core[SP] + 8;
    }

    method SaveRegisters(e: int)
      requires core.Length == 16 && vfp.Length == 16 && core != memory && vfp != memory
      requires 0 <= e && e + JB_WORDS <= memory.Length
      modifies core, memory
      ensures core[..] == old(core[..])[1 := fpscr]
      ensures memory[..] ==
              Store(Store(Store(old(memory[..]), e + CORE_BASE, old(core[4..15])), e + FLOAT_BASE, old(vfp[..])),
                    e + FLOAT_STATE, [fpscr])
    {
      Stm(e + CORE_BASE, core[4..15]);
      Stm(e + FLOAT_BASE, vfp[..]);
      core[1] := fpscr;
      Stm(e + FLOAT_STATE, [core[1]]);
    }

    /** Up to label 1: the flag, and the mask if it is set. */
    method SaveMask(scratch: Scratch)
      requires Valid() && SetJmpReady(View(), scratch)
      modifies core, memory, process
      ensures process.mask == old(process.mask) && memory[..] == MaskSaved(old(View()), scratch)
      ensures core[0] == old(core[0]) && core[4..15] == Kept(old(View()), scratch)
      ensures core[2..4] == if old(core[1]) == 0 then old(core[2..4]) else [scratch.r2, scratch.r3]
    {
      hide WordOf, MaskOf, Store, Called;
      var e := core[0] / 4;
      Stm(e + SIGFLAG, [core[1]]);
      if core[1] != 0 {
        ReadMask(scratch);
        Stm(e + SIGMASK, [core[1]]);
      }
    }

    method SigSetJmp(scratch: Scratch)
      requires Valid() && SetJmpReady(View(), scratch)
      modifies core, memory, process
      ensures Valid() && View() == SetJmp(old(View()), scratch)
    {
      hide WordOf, MaskOf, Store, Called, Kept, MaskSaved, HasStack;
      ghost var c := View();
      KeptParts(c, scratch);
      var e := core[0] / 4;
      SaveMask(scratch);
      ghost var saved := core[..];
      SaveRegisters(e);
      ReturnTo(0);
      SetJmpWords(saved, fpscr, saved[2..4], Kept(c, scratch));
    }

    /** The result in r0, and back to the address in lr. */
    method ReturnTo(result: Word)
      requires core.Length == 16
      modifies core
      ensures core[..] == old(core[..])[0 := result][PC := old(core[LR])]
    {
      core[0] := result;
      core[PC] := core[LR];
    }

    /** my_setjmp and my__setjmp: sigsetjmp with and without the mask. */
    method PlainSetJmp(saveMask: bool, scratch: Scratch)
      requires Valid() && HasEnv(View()) && (saveMask ==> HasStack(View(), 2, scratch))
      modifies core, memory, process
      ensures Valid()
      ensures View() == SetJmp(old(View()).(core := old(core[..])[1 := if saveMask then 1 else 0]), scratch)
    {
      hide SetJmp;
      core[1] := if saveMask then 1 else 0;
      SigSetJmp(scratch);
    }

    // ---- my_siglongjmp -------------------------------------------------------------------

    /** Three registers pushed, and one more word taken to align the stack. */
    method PushAligned()
      requires core.Length == 16 && core != memory && 4 <= core[SP] / 4 <= memory.Length
      modifies core, memory
      ensures core[..] == old(core[..])[SP := old(core[SP]) - 16]
      ensures memory[..] == Store(old(memory[..]), old(core[SP]) / 4 - 4,
                                  [old(memory[core[SP] / 4 - 4]), old(core[0]), old(core[1]), old(core[LR])])
    {
      PadIsKept(memory[..], core[SP] / 4 - 4, [core[0], core[1], core[LR]]);
      Push([core[0], core[1], core[LR]]);
      core[SP] := core[SP] - 4;
    }

    method PopAligned()
      requires core.Length == 16 && core != memory && core[SP] / 4 + 4 <= memory.Length
      requires core[SP] as int + 16 < 0x1_0000_0000
      modifies core
      ensures core[0] == memory[old(core[SP]) / 4 + 1] && core[1] == memory[old(core[SP]) / 4 + 2]
      ensures core[LR] == memory[old(core[SP]) / 4 + 3] && core[SP] == old(core[SP]) + 16
      ensures core[2..13] == old(core[2..13]) && core[PC] == old(core[PC])
    {
      core[SP] := core[SP] + 4;
      core[0], core[1], core[LR] := memory[core[SP] / 4], memory[core[SP] / 4 + 1], memory[core[SP] / 4 + 2];
      core[SP] := core[SP] + 12;
    }

    /** The call of my_sigsetmask between its pushes and its pops. */
    method CallSigSetMask(scratch: Scratch)
      requires core.Length == 16 && core != memory && Steady(process.mask)
      requires core[0] / 4 + SIGMASK < memory.Length
      requires 0 <= (core[SP] / 4) as int - |scratch.stack| && core[SP] / 4 <= memory.Length
      modifies core, memory, process
      ensures Steady(process.mask)
      ensures process.mask ==
              Masked(old(process.mask), SIG_SETMASK, Widened(MaskOf(old(memory[core[0] / 4 + SIGMASK]))))
      ensures core[3] == scratch.r3 && core[SP] == old(core[SP]) && core[PC] == old(core[PC])
      ensures memory[..] == Store(old(memory[..]), old(core[SP]) / 4 - |scratch.stack|, scratch.stack)
    {
      hide WordOf, MaskOf, Store, Masked, Steady;
      core[0] := memory[core[0] / 4 + SIGMASK];
      MaskedIsSteady(process.mask, SIG_SETMASK, Widened(MaskOf(core[0])));
      var previous := process.SigSetMask(MaskOf(core[0]));
      Clobber(WordOf(previous), scratch);
    }

    method SetMask(e: int, scratch: Scratch)
      requires core.Length == 16 && core != memory && Steady(process.mask) && core[0] / 4 == e
      requires memory.Length <= 0x4000_0000
      requires 0 <= core[SP] / 4 - 4 - |scratch.stack| && core[SP] / 4 <= memory.Length
      requires 0 <= e && e + JB_WORDS <= memory.Length
      requires e + JB_WORDS <= core[SP] / 4 - 4 - |scratch.stack| || core[SP] / 4 <= e
      requires core[SP] % 4 == 0
      modifies core, memory, process
      ensures Steady(process.mask)
      ensures process.mask == Masked(old(process.mask), SIG_SETMASK, Widened(MaskOf(old(memory[e + SIGMASK]))))
      ensures core[0] == old(core[0]) && core[1] == old(core[1]) && core[3] == scratch.r3
      ensures core[PC] == old(core[PC])
      ensures memory[..] == Called(old(memory[..]), old(core[SP]) / 4,
                                   [old(memory[core[SP] / 4 - 4]), old(core[0]), old(core[1]), old(core[LR])],
                                   scratch.stack)
    {
      hide WordOf, MaskOf, Store, Masked, Steady;
      ghost var top, m := core[SP] / 4, memory[..];
      ghost var pushed := [m[top - 4], core[0], core[1], core[LR]];
      StoreKeepsWord(m, top - 4, pushed, e + SIGMASK);
      PushedSurvives(m, top, pushed, scratch.stack, 1);
      PushedSurvives(m, top, pushed, scratch.stack, 2);
      PushAligned();
      CallSigSetMask(scratch);
      PopAligned();
    }

    method RestoreMask(scratch: Scratch)
      requires Valid() && LongJmpReady(View(), scratch)
      modifies core, memory, process
      ensures Valid() && memory[..] == MaskRestored(old(View()), scratch)
      ensures process.mask == if old(memory[core[0] / 4]) == 0 then old(process.mask)
                              else Masked(old(process.mask), SIG_SETMASK,
                                          Widened(MaskOf(memory[old(core[0]) / 4 + SIGMASK])))
      ensures core[0] == old(core[0]) && core[1] == old(core[1]) && core[PC] == old(core[PC])
      ensures core[3] == if old(memory[core[0] / 4]) == 0 then old(core[3]) else scratch.r3
    {
      hide WordOf, MaskOf, Store, Masked, Called, Steady;
      var e := core[0] / 4;
      core[2] := memory[e + SIGFLAG];
      if core[2] != 0 {
        CalledKeepsWord(memory[..], core[SP] / 4, [memory[core[SP] / 4 - 4], core[0], core[1], core[LR]],
                        scratch.stack, e + SIGMASK);
        SetMask(e, scratch);
      }
    }

    method LoadRegisters(e: int)
      requires core.Length == 16 && vfp.Length == 16 && core != memory && vfp != memory && core != vfp
      requires 0 <= e && e + JB_WORDS <= memory.Length <= 0x4000_0000 && core[0] / 4 == e
      modifies core, vfp, this`fpscr
      ensures vfp[..] == memory[e + FLOAT_BASE..e + FLOAT_STATE] && fpscr == memory[e + FLOAT_STATE]
      ensures core[..] == [old(core[0]), old(core[1]), old(core[0]) + 4 * CORE_BASE, old(core[3])] +
                          memory[e + CORE_BASE..e + SAVED] + [old(core[PC])]
    {
      Ldm(vfp, 0, 16, e + FLOAT_BASE);
      fpscr := memory[e + FLOAT_STATE];
      core[2] := core[0] + 4 * CORE_BASE;
      Ldm(core, 4, 11, e + CORE_BASE);
    }

    /** Everything up to the validation. */
    method Reload(scratch: Scratch)
      requires Valid() && LongJmpReady(View(), scratch)
      modifies core, vfp, memory, process, this`fpscr
      ensures Valid() && View() == Reloaded(old(View()), scratch)
    {
      hide WordOf, MaskOf, Masked, MaskRestored, HasStack, Steady, Widened;
      var e := core[0] / 4;
      RestoreMask(scratch);
      LoadRegisters(e);
    }

    /** Jumps, or reports that the area holds no stack pointer or no return address. */
    method SigLongJmp(scratch: Scratch) returns (jumped: bool)
      requires Valid() && LongJmpReady(View(), scratch)
      modifies core, vfp, memory, process, this`fpscr
      ensures jumped <==> LongJmp(old(View()), scratch).Jumped?
      ensures jumped ==> Valid() && View() == LongJmp(old(View()), scratch).cpu
    {
      hide Reloaded;
      Reload(scratch);
      if core[SP] == 0 || core[LR] == 0 {
        return false;
      }
      ReturnTo(if core[1] == 0 then 1 else core[1]);
      jumped := true;
    }
  }

  lemma PadIsKept(m: Memory, at: int, words: seq<Word>)
    requires 0 <= at && at + 1 + |words| <= |m|
    ensures Store(m, at + 1, words) == Store(m, at, [m[at]] + words)
  {
  }
}
