/** The save area of sigsetjmp and siglongjmp on 32-bit ARM. */
module JmpBuf {
  import opened SigMask

  type Word = w: int | 0 <= w < 0x1_0000_0000

  // ---- Memory ----------------------------------------------------------------------------

  /** Memory by words: the word at byte address 4 * k is number k. */
  type Memory = seq<Word>

  function Store(m: Memory, at: int, words: seq<Word>): (r: Memory)
    requires 0 <= at && at + |words| <= |m|
    ensures |r| == |m|
  {
    m[..at] + words + m[at + |words|..]
  }

  lemma StoreReads(m: Memory, at: int, words: seq<Word>)
    requires 0 <= at && at + |words| <= |m|
    ensures Store(m, at, words)[at..at + |words|] == words
  {
  }

  lemma StoreApart(m: Memory, at: int, words: seq<Word>, lo: int, hi: int)
    requires 0 <= at && at + |words| <= |m| && 0 <= lo <= hi <= |m|
    requires hi <= at || at + |words| <= lo
    ensures Store(m, at, words)[lo..hi] == m[lo..hi]
  {
  }

  /** A signal mask as a register holds it, and back. */
  function WordOf(mask: bv32): Word {
    mask as int
  }

  function MaskOf(w: Word): bv32 {
    w as bv32
  }

  // ---- The save area ---------------------------------------------------------------------

  const SIGFLAG: int := 0
  const SIGMASK: int := SIGFLAG + 1
  const FLOAT_BASE: int := SIGMASK + 1
  const FLOAT_STATE: int := FLOAT_BASE + (15 - 8 + 1) * 2
  const CORE_BASE: int := FLOAT_STATE + 1

  /** The first word past the saved core registers, and the words a jmp_buf has. */
  const SAVED: int := CORE_BASE + (14 - 4 + 1)
  const JB_WORDS: int := 64

  const SP: int := 13
  const LR: int := 14
  const PC: int := 15

  /** Registers r0 to r15, d8 to d15 as sixteen words, the floating-point state, the mask, memory. */
  datatype Cpu = Cpu(core: seq<Word>, vfp: seq<Word>, fpscr: Word, mask: Mask, memory: Memory)

  predicate Proper(c: Cpu) {
    |c.core| == 16 && |c.vfp| == 16 && |c.memory| <= 0x4000_0000
  }

  /** The word number of the jmp_buf whose address is in r0. */
  function Env(c: Cpu): int
    requires Proper(c)
  {
    c.core[0] / 4
  }

  /** The word number of the stack's top. */
  function Top(c: Cpu): int
    requires Proper(c)
  {
    c.core[SP] / 4
  }

  /** r0 holds the address of a jmp_buf. */
  predicate HasEnv(c: Cpu) {
    Proper(c) && c.core[0] % 4 == 0 && Env(c) + JB_WORDS <= |c.memory|
  }

  /** What a C function leaves behind in the registers it need not keep, and below the stack
      pointer it was called with. */
  datatype Scratch = Scratch(r1: Word, r2: Word, r3: Word, r12: Word, lr: Word, stack: seq<Word>)

  /** The stack has room for the pushed words and for the call, and the buffer is not in there. */
  predicate HasStack(c: Cpu, pushed: int, scratch: Scratch)
    requires HasEnv(c)
  {
    var bottom := Top(c) - pushed - |scratch.stack|;
    && c.core[SP] % 4 == 0 && Top(c) <= |c.memory| && 0 <= bottom
    && (Env(c) + JB_WORDS <= bottom || Top(c) <= Env(c))
  }

  // ---- The two functions -----------------------------------------------------------------

  /** A call that pushed words, ran a C function, and popped them. */
  function Called(m: Memory, top: int, pushed: seq<Word>, stack: seq<Word>): (r: Memory)
    requires 0 <= top - |pushed| - |stack| && top <= |m|
    ensures |r| == |m|
  {
    Store(Store(m, top - |pushed|, pushed), top - |pushed| - |stack|, stack)
  }

  predicate SetJmpReady(c: Cpu, scratch: Scratch) {
    HasEnv(c) && (c.core[1] != 0 ==> HasStack(c, 2, scratch))
  }

  /** The registers r4 to r14 at the store-multiple; r12 is not kept by the call. */
  function Kept(c: Cpu, scratch: Scratch): (r: seq<Word>)
    requires Proper(c)
    ensures |r| == 11
  {
    c.core[4..12] + [if c.core[1] == 0 then c.core[12] else scratch.r12] + c.core[13..15]
  }

  /** Memory once the flag and the mask have been saved. */
  function MaskSaved(c: Cpu, scratch: Scratch): (r: Memory)
    requires SetJmpReady(c, scratch)
    ensures |r| == |c.memory|
  {
    var m := Store(c.memory, Env(c) + SIGFLAG, [c.core[1]]);
    if c.core[1] == 0 then m
    else
      Store(Called(m, Top(c), [c.core[0], c.core[LR]], scratch.stack), Env(c) + SIGMASK, [WordOf(c.mask.low)])
  }

  /** sigsetjmp(r0, r1), called from lr. */
  function SetJmp(c: Cpu, scratch: Scratch): Cpu
    requires SetJmpReady(c, scratch)
  {
    var m := MaskSaved(c, scratch);
    var m := Store(m, Env(c) + CORE_BASE, Kept(c, scratch));
    var m := Store(m, Env(c) + FLOAT_BASE, c.vfp);
    var m := Store(m, Env(c) + FLOAT_STATE, [c.fpscr]);
    var r23 := if c.core[1] == 0 then c.core[2..4] else [scratch.r2, scratch.r3];
    Cpu([0, c.fpscr] + r23 + Kept(c, scratch) + [c.core[LR]], c.vfp, c.fpscr, c.mask, m)
  }

  predicate LongJmpReady(c: Cpu, scratch: Scratch) {
    HasEnv(c) && (c.memory[Env(c)] != 0 ==> HasStack(c, 4, scratch))
  }

  /** Memory once the mask has been restored. */
  function MaskRestored(c: Cpu, scratch: Scratch): (r: Memory)
    requires LongJmpReady(c, scratch)
    ensures |r| == |c.memory|
  {
    if c.memory[Env(c) + SIGFLAG] == 0 then c.memory
    else Called(c.memory, Top(c), [c.memory[Top(c) - 4], c.core[0], c.core[1], c.core[LR]], scratch.stack)
  }

  datatype Outcome = Jumped(cpu: Cpu) | LongJmpError

  /** The machine once siglongjmp has loaded everything, its argument still in r1. */
  function Reloaded(c: Cpu, scratch: Scratch): (r: Cpu)
    requires LongJmpReady(c, scratch)
    ensures |r.core| == 16
  {
    var e := Env(c);
    var saved := c.memory[e + SIGFLAG] != 0;
    var m := MaskRestored(c, scratch);
    var mask := if !saved then c.mask else Masked(c.mask, SIG_SETMASK, Widened(MaskOf(m[e + SIGMASK])));
    Cpu([c.core[0], c.core[1], c.core[0] + 4 * CORE_BASE, if saved then scratch.r3 else c.core[3]]
        + m[e + CORE_BASE..e + SAVED] + [c.core[PC]],
        m[e + FLOAT_BASE..e + FLOAT_STATE], m[e + FLOAT_STATE], mask, m)
  }

  /** siglongjmp(r0, r1). */
  function LongJmp(c: Cpu, scratch: Scratch): Outcome
    requires LongJmpReady(c, scratch)
  {
    var u := Reloaded(c, scratch);
    if u.core[SP] == 0 || u.core[LR] == 0 then LongJmpError
    else Jumped(u.(core := u.core[0 := if u.core[1] == 0 then 1 else u.core[1]][PC := u.core[LR]]))
  }

  // ---- What is saved and what comes back -------------------------------------------------

  /** The area holds a flag, a mask if the flag is set, and the three groups of registers. */
  predicate Holds(m: Memory, e: int, flag: Word, low: bv32, core: seq<Word>, vfp: seq<Word>, fpscr: Word) {
    && 0 <= e && e + JB_WORDS <= |m|
    && m[e + SIGFLAG] == flag && (flag != 0 ==> m[e + SIGMASK] == WordOf(low))
    && m[e + FLOAT_BASE..e + FLOAT_STATE] == vfp && m[e + FLOAT_STATE] == fpscr
    && m[e + CORE_BASE..e + SAVED] == core
  }

  /** The call leaves everything outside its piece of stack. */
  lemma CalledApart(m: Memory, top: int, pushed: seq<Word>, stack: seq<Word>, lo: int, hi: int)
    requires 0 <= top - |pushed| - |stack| && top <= |m| && 0 <= lo <= hi <= |m|
    requires hi <= top - |pushed| - |stack| || top <= lo
    ensures Called(m, top, pushed, stack)[lo..hi] == m[lo..hi]
  {
    hide Store;
    StoreApart(m, top - |pushed|, pushed, lo, hi);
    StoreApart(Store(m, top - |pushed|, pushed), top - |pushed| - |stack|, stack, lo, hi);
  }

  lemma StoreOne(m: Memory, at: int, w: Word, k: int)
    requires 0 <= at < |m| && 0 <= k < |m|
    ensures Store(m, at, [w])[k] == if k == at then w else m[k]
  {
  }

  lemma StoreKeepsWord(m: Memory, at: int, words: seq<Word>, k: int)
    requires 0 <= at && at + |words| <= |m| && 0 <= k < |m| && !(at <= k < at + |words|)
    ensures Store(m, at, words)[k] == m[k]
  {
  }

  lemma CalledKeepsWord(m: Memory, top: int, pushed: seq<Word>, stack: seq<Word>, k: int)
    requires 0 <= top - |pushed| - |stack| && top <= |m| && 0 <= k < |m|
    requires !(top - |pushed| - |stack| <= k < top)
    ensures Called(m, top, pushed, stack)[k] == m[k]
  {
  }

  lemma MaskIsSaved(c: Cpu, scratch: Scratch)
    requires SetJmpReady(c, scratch)
    ensures var m := MaskSaved(c, scratch);
            && m[Env(c) + SIGFLAG] == c.core[1]
            && (c.core[1] != 0 ==> m[Env(c) + SIGMASK] == WordOf(c.mask.low))
  {
    hide Store, Called, WordOf;
    var e := Env(c);
    var m := Store(c.memory, e + SIGFLAG, [c.core[1]]);
    StoreOne(c.memory, e + SIGFLAG, c.core[1], e + SIGFLAG);
    if c.core[1] != 0 {
      var pushed := [c.core[0], c.core[LR]];
      CalledKeepsWord(m, Top(c), pushed, scratch.stack, e + SIGFLAG);
      var n := Called(m, Top(c), pushed, scratch.stack);
      StoreOne(n, e + SIGMASK, WordOf(c.mask.low), e + SIGFLAG);
      StoreOne(n, e + SIGMASK, WordOf(c.mask.low), e + SIGMASK);
    }
  }

  /** The groups do not overlap: after sigsetjmp each of them reads back whole. */
  lemma SetJmpSaves(c: Cpu, scratch: Scratch)
    requires SetJmpReady(c, scratch)
    ensures |SetJmp(c, scratch).memory| == |c.memory|
    ensures Holds(SetJmp(c, scratch).memory, Env(c), c.core[1], c.mask.low, Kept(c, scratch), c.vfp, c.fpscr)
  {
    hide Store, MaskSaved, Kept;
    MaskIsSaved(c, scratch);
    var e, core := Env(c), Kept(c, scratch);
    var m0 := MaskSaved(c, scratch);
    var m1 := Store(m0, e + CORE_BASE, core);
    var m2 := Store(m1, e + FLOAT_BASE, c.vfp);
    var m3 := Store(m2, e + FLOAT_STATE, [c.fpscr]);
    forall k | k == e + SIGFLAG || k == e + SIGMASK
      ensures m3[k] == m0[k]
    {
      StoreKeepsWord(m0, e + CORE_BASE, core, k);
      StoreKeepsWord(m1, e + FLOAT_BASE, c.vfp, k);
      StoreOne(m2, e + FLOAT_STATE, c.fpscr, k);
    }
    StoreReads(m0, e + CORE_BASE, core);
    StoreApart(m1, e + FLOAT_BASE, c.vfp, e + CORE_BASE, e + SAVED);
    StoreApart(m2, e + FLOAT_STATE, [c.fpscr], e + CORE_BASE, e + SAVED);
    StoreReads(m1, e + FLOAT_BASE, c.vfp);
    StoreApart(m2, e + FLOAT_STATE, [c.fpscr], e + FLOAT_BASE, e + FLOAT_STATE);
    StoreOne(m2, e + FLOAT_STATE, c.fpscr, e + FLOAT_STATE);
  }

  /** sigsetjmp writes its area and the stack below the caller's, the stack only for the mask. */
  lemma SetJmpWritesOnly(c: Cpu, scratch: Scratch, k: int)
    requires SetJmpReady(c, scratch) && 0 <= k < |c.memory|
    requires k < Env(c) || Env(c) + SAVED <= k
    requires c.core[1] != 0 ==> k < Top(c) - 2 - |scratch.stack| || Top(c) <= k
    ensures SetJmp(c, scratch).memory[k] == c.memory[k]
  {
    hide Store, Called, Kept;
    var e, core := Env(c), Kept(c, scratch);
    var m := Store(c.memory, e + SIGFLAG, [c.core[1]]);
    StoreOne(c.memory, e + SIGFLAG, c.core[1], k);
    if c.core[1] != 0 {
      var pushed := [c.core[0], c.core[LR]];
      CalledKeepsWord(m, Top(c), pushed, scratch.stack, k);
      StoreOne(Called(m, Top(c), pushed, scratch.stack), e + SIGMASK, WordOf(c.mask.low), k);
    }
    var m0 := MaskSaved(c, scratch);
    var m1 := Store(m0, e + CORE_BASE, core);
    StoreKeepsWord(m0, e + CORE_BASE, core, k);
    StoreKeepsWord(m1, e + FLOAT_BASE, c.vfp, k);
    StoreOne(Store(m1, e + FLOAT_BASE, c.vfp), e + FLOAT_STATE, c.fpscr, k);
  }

  lemma AreaSurvivesCall(k: Cpu, scratch: Scratch, flag: Word, low: bv32, core: seq<Word>, vfp: seq<Word>, fpscr: Word)
    requires LongJmpReady(k, scratch) && Holds(k.memory, Env(k), flag, low, core, vfp, fpscr)
    ensures Holds(MaskRestored(k, scratch), Env(k), flag, low, core, vfp, fpscr)
  {
    hide Called;
    var e := Env(k);
    if flag != 0 {
      var pushed := [k.memory[Top(k) - 4], k.core[0], k.core[1], k.core[LR]];
      CalledKeepsWord(k.memory, Top(k), pushed, scratch.stack, e + SIGFLAG);
      CalledKeepsWord(k.memory, Top(k), pushed, scratch.stack, e + SIGMASK);
      CalledKeepsWord(k.memory, Top(k), pushed, scratch.stack, e + FLOAT_STATE);
      CalledApart(k.memory, Top(k), pushed, scratch.stack, e + FLOAT_BASE, e + FLOAT_STATE);
      CalledApart(k.memory, Top(k), pushed, scratch.stack, e + CORE_BASE, e + SAVED);
    }
  }

  /** What siglongjmp makes of a saved area, whatever else the machine holds. */
  lemma LongJmpRestores(k: Cpu, scratch: Scratch, flag: Word, low: bv32, core: seq<Word>, vfp: seq<Word>, fpscr: Word)
    requires LongJmpReady(k, scratch) && Holds(k.memory, Env(k), flag, low, core, vfp, fpscr)
    ensures |core| == 11
    ensures LongJmp(k, scratch).LongJmpError? <==> core[SP - 4] == 0 || core[LR - 4] == 0
    ensures LongJmp(k, scratch).Jumped? ==>
              var r := LongJmp(k, scratch).cpu;
              && |r.core| == 16 && r.core[4..15] == core && r.core[PC] == core[LR - 4]
              && r.core[0] == (if k.core[1] == 0 then 1 else k.core[1])
              && r.vfp == vfp && r.fpscr == fpscr
              && r.mask == if flag == 0 then k.mask else Mask(Strip(low), 0)
  {
    hide MaskRestored, Strip, HasStack, WordOf, MaskOf;
    AreaSurvivesCall(k, scratch, flag, low, core, vfp, fpscr);
    BackAndForth(low);
  }

  lemma BackAndForth(w: bv32)
    ensures MaskOf(WordOf(w)) == w
  {
  }

  /** The round trip: whatever the program did in between, if it left the area alone the jump
      brings back the registers as they were saved, to the place sigsetjmp returned to, with the
      value given or 1 for 0; the mask comes back exactly if it was saved. */
  lemma JumpReturns(c: Cpu, scratch: Scratch, k: Cpu, scratch': Scratch)
    requires SetJmpReady(c, scratch) && Steady(c.mask)
    requires HasEnv(k) && k.core[0] == c.core[0] && |k.memory| == |c.memory|
    requires k.memory[Env(c)..Env(c) + SAVED] == SetJmp(c, scratch).memory[Env(c)..Env(c) + SAVED]
    requires LongJmpReady(k, scratch')
    requires c.core[SP] != 0 && c.core[LR] != 0
    ensures LongJmp(k, scratch').Jumped?
    ensures var r, s := LongJmp(k, scratch').cpu, SetJmp(c, scratch);
            && |r.core| == 16 && r.core[4..12] == c.core[4..12] && r.core[13..15] == c.core[13..15]
            && (c.core[1] == 0 ==> r.core[12] == c.core[12])
            && r.core[PC] == s.core[PC] == c.core[LR]
            && r.core[0] == (if k.core[1] == 0 then 1 else k.core[1])
            && r.vfp == c.vfp && r.fpscr == c.fpscr
            && r.mask == if c.core[1] == 0 then k.mask else Mask(c.mask.low, 0)
  {
    hide SetJmp, LongJmp, HasStack, Strip, Kept;
    SetJmpSaves(c, scratch);
    KeptParts(c, scratch);
    SliceHolds(SetJmp(c, scratch).memory, k.memory, Env(c), c.core[1], c.mask.low, Kept(c, scratch), c.vfp, c.fpscr);
    LongJmpRestores(k, scratch', c.core[1], c.mask.low, Kept(c, scratch), c.vfp, c.fpscr);
    SetJmpReturnsToCaller(c, scratch);
    var r := LongJmp(k, scratch').cpu;
    assert r.core[4..12] == r.core[4..15][..8] && r.core[13..15] == r.core[4..15][9..];
    assert r.core[12] == r.core[4..15][8];
  }

  lemma KeptParts(c: Cpu, scratch: Scratch)
    requires Proper(c)
    ensures var kept := Kept(c, scratch);
            && kept[..8] == c.core[4..12] && kept[9..] == c.core[13..15]
            && (c.core[1] == 0 ==> kept[8] == c.core[12])
            && kept[SP - 4] == c.core[SP] && kept[LR - 4] == c.core[LR]
  {
  }

  lemma SetJmpReturnsToCaller(c: Cpu, scratch: Scratch)
    requires SetJmpReady(c, scratch)
    ensures var s := SetJmp(c, scratch);
            && |s.core| == 16 && s.core[0] == 0 && s.core[PC] == c.core[LR]
            && s.core[4..12] == c.core[4..12] && s.core[13..15] == c.core[13..15]
            && s.vfp == c.vfp && s.fpscr == c.fpscr && s.mask == c.mask
  {
  }

  lemma SliceHolds(m: Memory, n: Memory, e: int, flag: Word, low: bv32, core: seq<Word>, vfp: seq<Word>, fpscr: Word)
    requires Holds(m, e, flag, low, core, vfp, fpscr) && |n| == |m|
    requires n[e..e + SAVED] == m[e..e + SAVED]
    ensures Holds(n, e, flag, low, core, vfp, fpscr)
  {
    assert forall i | e <= i < e + SAVED :: n[i] == n[e..e + SAVED][i - e] && m[i] == m[e..e + SAVED][i - e];
  }

  /** The whole 64-bit mask comes back exactly when no signal above 32 was blocked. */
  lemma WholeMaskReturnsIff(c: Cpu, scratch: Scratch, k: Cpu, scratch': Scratch)
    requires SetJmpReady(c, scratch) && Steady(c.mask) && c.core[1] != 0
    requires HasEnv(k) && k.core[0] == c.core[0] && |k.memory| == |c.memory|
    requires k.memory[Env(c)..Env(c) + SAVED] == SetJmp(c, scratch).memory[Env(c)..Env(c) + SAVED]
    requires LongJmpReady(k, scratch')
    requires c.core[SP] != 0 && c.core[LR] != 0
    ensures LongJmp(k, scratch').Jumped?
    ensures LongJmp(k, scratch').cpu.mask == c.mask <==> c.mask.high == 0
  {
    hide SetJmp, LongJmp, SetJmpReady, LongJmpReady;
    JumpReturns(c, scratch, k, scratch');
  }
}
