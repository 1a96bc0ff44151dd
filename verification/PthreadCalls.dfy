/** What a program may rely on of its mutexes and conditions, seen through the Android words. */
module PthreadCalls {
  import opened Lists
  import opened PthreadSync

  lemma MeansMutex(s: State, m: Addr)
    requires m in s.mutexes.word
    ensures m in Meaning(s).mutexes && Meaning(s).mutexes[m] == MutexAt(s, m)
  {
    hide Object;
  }

  lemma MeansCond(s: State, c: Addr)
    requires c in s.conds.word
    ensures c in Meaning(s).conds && Meaning(s).conds[c] == CondAt(s, c)
  {
    hide Object;
  }

  // ---- Mutual exclusion ------------------------------------------------------------------

  /** The call may take a mutex of this kind away from the thread that has locked it. */
  predicate LetsGo(op: Op, m: Addr, t: Tid, kind: Kind) {
    || (op.MutexInit? && op.m == m)
    || ((op.Unlock? || op.Wait?) && op.m == m && (op.t == t || kind == Normal))
  }

  lemma OwnerStaysDirect(d: Direct, op: Op, m: Addr, t: Tid)
    requires Known(d, op) && m in d.mutexes && d.mutexes[m].owner == Some(t)
    requires !LetsGo(op, m, t, d.mutexes[m].kind)
    ensures var e := DirectStep(d, op).0;
            m in e.mutexes && e.mutexes[m].owner == Some(t) && e.mutexes[m].kind == d.mutexes[m].kind
  {
  }

  lemma OwnerStays(s: State, op: Op, m: Addr, t: Tid)
    requires Invariant(s) && Permitted(s, op) && m in s.mutexes.word && MutexAt(s, m).owner == Some(t)
    requires !LetsGo(op, m, t, MutexAt(s, m).kind)
    ensures var u := Step(s, op).0;
            && Invariant(u) && m in u.mutexes.word
            && MutexAt(u, m).owner == Some(t) && MutexAt(u, m).kind == MutexAt(s, m).kind
  {
    hide Invariant, Permitted, Step, DirectStep, Meaning, MutexAt, LetsGo;
    StepSimulates(s, op);
    StepIsNamed(s, op);
    StepKeepsNames(s, op);
    MeansMutex(s, m);
    MeansMutex(Step(s, op).0, m);
    OwnerStaysDirect(Meaning(s), op, m, t);
  }

  lemma StepIsNamed(s: State, op: Op)
    requires Permitted(s, op)
    ensures Named(s, op)
  {
  }

  /** A mutex that a thread has locked stays its own over every run in which that thread neither unlocks
      it nor waits with it, and nobody initialises it; of a normal mutex nobody else may unlock it
      either. All that time every other thread's lock of it sleeps. */
  lemma {:induction false} OwnerExcludes(s: State, ops: seq<Op>, m: Addr, t: Tid)
    requires Invariant(s) && PermittedRun(s, ops) && m in s.mutexes.word && MutexAt(s, m).owner == Some(t)
    requires forall op | op in ops :: !LetsGo(op, m, t, MutexAt(s, m).kind)
    ensures var u := Run(s, ops).0;
            && m in u.mutexes.word && MutexAt(u, m).owner == Some(t)
            && forall w, p | w != t && Permitted(u, Lock(m, w, p)) :: Step(u, Lock(m, w, p)).1 == Blocks
    decreases |ops|
  {
    if ops == [] {
      forall w, p | w != t && Permitted(s, Lock(m, w, p)) ensures Step(s, Lock(m, w, p)).1 == Blocks {
        OthersBlock(s, m, t, w, p);
      }
      hide Permitted, Step, Invariant, MutexAt;
    } else {
      hide Invariant, Permitted, Step, LetsGo, MutexAt;
      assert ops[0] in ops && forall op | op in ops[1..] :: op in ops;
      OwnerStays(s, ops[0], m, t);
      OwnerExcludes(Step(s, ops[0]).0, ops[1..], m, t);
    }
  }

  lemma OthersBlock(s: State, m: Addr, t: Tid, w: Tid, p: Ptr)
    requires Invariant(s) && Permitted(s, Lock(m, w, p)) && MutexAt(s, m).owner == Some(t) && w != t
    ensures Step(s, Lock(m, w, p)).1 == Blocks
  {
    hide Invariant, Permitted, Step, Meaning, MutexAt;
    StepSimulates(s, Lock(m, w, p));
    StepIsNamed(s, Lock(m, w, p));
    MeansMutex(s, m);
  }

  /** The owner's unlock of a mutex locked once frees it: the next lock, by anyone, gets it. */
  lemma UnlockFrees(s: State, m: Addr, t: Tid, w: Tid, p: Ptr)
    requires Invariant(s) && m in s.mutexes.word && s.mutexes.word[m] > TOP
    requires MutexAt(s, m).owner == Some(t) && MutexAt(s, m).depth == 1
    requires Permitted(Step(s, Unlock(m, t)).0, Lock(m, w, p))
    ensures Step(s, Unlock(m, t)).1 == Returns(0)
    ensures MutexAt(Step(s, Unlock(m, t)).0, m).owner == None
    ensures Named(Step(s, Unlock(m, t)).0, Lock(m, w, p))
    ensures Step(Step(s, Unlock(m, t)).0, Lock(m, w, p)).1 == Returns(0)
  {
    hide Invariant, Unused, Step, Meaning, MutexAt;
    StepSimulates(s, Unlock(m, t));
    StepKeepsNames(s, Unlock(m, t));
    MeansMutex(s, m);
    var u := Step(s, Unlock(m, t)).0;
    MeansMutex(u, m);
    StepSimulates(u, Lock(m, w, p));
  }

  /** An unlock of a nested lock takes one level off; one by a thread that has not locked the mutex fails
      and changes nothing, unless the mutex is a normal one, which anyone may unlock. */
  lemma UnlockOtherwise(s: State, m: Addr, t: Tid)
    requires Invariant(s) && m in s.mutexes.word && s.mutexes.word[m] > TOP
    ensures m in Step(s, Unlock(m, t)).0.mutexes.word
    ensures var was, now, r := MutexAt(s, m), MutexAt(Step(s, Unlock(m, t)).0, m), Step(s, Unlock(m, t)).1;
            && (was.kind != Normal && was.owner != Some(t) ==> r == Returns(1) && now == was)
            && (was.owner == Some(t) && was.depth > 1 ==>
                  r == Returns(0) && now == Mutex(was.kind, Some(t), was.depth - 1))
            && (was.kind == Normal && was.depth <= 1 ==> r == Returns(0) && now == Mutex(Normal, None, 0))
  {
    hide Invariant, Step, Meaning, MutexAt;
    StepSimulates(s, Unlock(m, t));
    StepKeepsNames(s, Unlock(m, t));
    MeansMutex(s, m);
    MeansMutex(Step(s, Unlock(m, t)).0, m);
  }

  /** The kind an init asks for decides the owner's second lock. */
  lemma InitKindDecides(s: State, m: Addr, kind: Kind, t: Tid, p: Ptr, q: Ptr, r: Ptr)
    requires Invariant(s) && Permitted(s, MutexInit(m, kind, p))
    requires var s1 := Step(s, MutexInit(m, kind, p)).0;
             Permitted(s1, Lock(m, t, q)) && Permitted(Step(s1, Lock(m, t, q)).0, Lock(m, t, r))
    ensures var s1 := Step(s, MutexInit(m, kind, p)).0;
            && Step(s1, Lock(m, t, q)).1 == Returns(0)
            && Step(Step(s1, Lock(m, t, q)).0, Lock(m, t, r)).1 ==
               match kind case Normal => Blocks case Recursive => Returns(0) case Errorcheck => Returns(EDEADLK)
  {
    hide Invariant, Permitted, Step, Meaning;
    StepSimulates(s, MutexInit(m, kind, p));
    StepIsNamed(s, MutexInit(m, kind, p));
    var s1 := Step(s, MutexInit(m, kind, p)).0;
    StepIsNamed(s1, Lock(m, t, q));
    StepSimulates(s1, Lock(m, t, q));
    var s2 := Step(s1, Lock(m, t, q)).0;
    StepIsNamed(s2, Lock(m, t, r));
    StepSimulates(s2, Lock(m, t, r));
  }

  // ---- Conditions ------------------------------------------------------------------------

  /** A signal takes one waiter off the condition; it touches no mutex and returns nobody from its wait
      by itself. */
  lemma SignalWakesOne(s: State, c: Addr, k: nat, p: Ptr)
    requires Invariant(s) && Permitted(s, Signal(c, k, p))
    ensures var was, u := CondAt(s, c).waiters, Step(s, Signal(c, k, p)).0;
            && CondAt(u, c).waiters == (if k < |was| then was[..k] + was[k + 1..] else was)
            && Meaning(u).mutexes == Meaning(s).mutexes && u.asleep.Keys == s.asleep.Keys
  {
    hide Invariant, Permitted, Step, CondAt, Meaning;
    StepIsNamed(s, Signal(c, k, p));
    MeansCond(s, c);
    WokenMeans(s, Signal(c, k, p));
  }

  /** A broadcast takes all of them. */
  lemma BroadcastWakesAll(s: State, c: Addr, p: Ptr)
    requires Invariant(s) && Permitted(s, Broadcast(c, p))
    ensures var u := Step(s, Broadcast(c, p)).0;
            && CondAt(u, c).waiters == []
            && Meaning(u).mutexes == Meaning(s).mutexes && u.asleep.Keys == s.asleep.Keys
  {
    hide Invariant, Permitted, Step, CondAt, Meaning;
    StepIsNamed(s, Broadcast(c, p));
    WokenMeans(s, Broadcast(c, p));
  }

  lemma WokenMeans(s: State, op: Op)
    requires Invariant(s) && Permitted(s, op) && (op.Signal? || op.Broadcast?)
    ensures Named(s, op) && Known(Meaning(s), op)
    ensures var u := Step(s, op).0;
            && Meaning(u) == DirectStep(Meaning(s), op).0 && u.asleep.Keys == s.asleep.Keys
            && op.c in Meaning(u).conds && Meaning(u).conds[op.c] == CondAt(u, op.c)
  {
    StepIsNamed(s, op);
    hide Invariant, Permitted, Step, CondAt, Meaning;
    StepSimulates(s, op);
    StepKeepsNames(s, op);
    MeansCond(Step(s, op).0, op.c);
    SleepersAre(s);
    SleepersAre(Step(s, op).0);
  }

  lemma SleepersAre(s: State)
    ensures Meaning(s).asleep.Keys == s.asleep.Keys
  {
  }

  /** A destroyed condition that had been used has its word at 0, so that its next use binds it anew; of
      one never used the call fails and changes nothing. */
  lemma DestroyForgets(s: State, c: Addr)
    requires c in s.conds.word
    ensures var (u, r) := Step(s, CondDestroy(c));
            && (s.conds.word[c] == 0 ==> r == Returns(22) && u == s)
            && (0 < s.conds.word[c] <= 0xFFFF ==> r == Faults && u == s)
            && (s.conds.word[c] > 0xFFFF ==>
                  r == Garbage && u.conds.word == s.conds.word[c := 0] && u.mutexes == s.mutexes)
  {
  }

  /** One thread waits with a mutex, another takes the mutex, signals and unlocks. */
  function Handover(c: Addr, m: Addr, t: Tid, w: Tid, p: seq<Ptr>): seq<Op>
    requires |p| == 5
  {
    [Lock(m, t, p[0]), Wait(c, m, t, p[1], p[2]), Lock(m, w, p[3]), Signal(c, 0, p[4]), Unlock(m, w), Resume(t)]
  }

  /** Half-way the waiter sleeps, a waiter of the condition, and the other thread has the mutex. */
  lemma HalfWay(d: Direct, c: Addr, m: Addr, t: Tid, w: Tid, p: seq<Ptr>)
    requires |p| == 5 && c in d.conds && m in d.mutexes && t != w
    requires d.mutexes[m].owner == None && d.conds[c].waiters == []
    ensures var ops := Handover(c, m, t, w, p);
            && Known(d, ops[0])
            && var (d1, r0) := DirectStep(d, ops[0]);
            && Known(d1, ops[1])
            && var (d2, r1) := DirectStep(d1, ops[1]);
            && Known(d2, ops[2])
            && var (d3, r2) := DirectStep(d2, ops[2]);
            && [r0, r1, r2] == [Returns(0), Blocks, Returns(0)]
            && c in d3.conds && d3.conds[c].waiters == [t] && t in d3.asleep && d3.asleep[t] == m
            && m in d3.mutexes && d3.mutexes[m].owner == Some(w) && d3.mutexes[m].depth == 1
  {
  }

  lemma SecondHalf(d: Direct, c: Addr, m: Addr, t: Tid, w: Tid, p: seq<Ptr>)
    requires |p| == 5 && c in d.conds && m in d.mutexes && d.conds[c].waiters == [t]
    requires t in d.asleep && d.asleep[t] == m && d.mutexes[m].owner == Some(w) && d.mutexes[m].depth == 1
    ensures var ops := Handover(c, m, t, w, p);
            && Known(d, ops[3])
            && var (d4, r3) := DirectStep(d, ops[3]);
            && Known(d4, ops[4])
            && var (d5, r4) := DirectStep(d4, ops[4]);
            && Known(d5, ops[5])
            && var (d6, r5) := DirectStep(d5, ops[5]);
            && [r3, r4, r5] == [Returns(0), Returns(0), Returns(0)]
            && m in d6.mutexes && d6.mutexes[m].owner == Some(t)
  {
  }

  lemma {:induction false} DirectHandover(d: Direct, c: Addr, m: Addr, t: Tid, w: Tid, p: seq<Ptr>)
    requires |p| == 5 && c in d.conds && m in d.mutexes && t != w
    requires d.mutexes[m].owner == None && d.conds[c].waiters == []
    ensures var ops := Handover(c, m, t, w, p);
            && KnownRun(d, ops)
            && var (e, rs) := RunDirect(d, ops);
               && rs == [Returns(0), Blocks, Returns(0), Returns(0), Returns(0), Returns(0)]
               && m in e.mutexes && e.mutexes[m].owner == Some(t)
  {
    hide DirectStep, Known;
    HalfWay(d, c, m, t, w, p);
    var ops := Handover(c, m, t, w, p);
    var d1 := DirectStep(d, ops[0]).0;
    var d2 := DirectStep(d1, ops[1]).0;
    var d3 := DirectStep(d2, ops[2]).0;
    SecondHalf(d3, c, m, t, w, p);
    var d4 := DirectStep(d3, ops[3]).0;
    var d5 := DirectStep(d4, ops[4]).0;
    RunLast(DirectStep(d5, ops[5]).0);
    RunFirst(d5, ops[5], []);
    RunFirst(d4, ops[4], ops[5..]);
    RunFirst(d3, ops[3], ops[4..]);
    RunFirst(d2, ops[2], ops[3..]);
    RunFirst(d1, ops[1], ops[2..]);
    RunFirst(d, ops[0], ops[1..]);
  }

  lemma RunLast(d: Direct)
    ensures KnownRun(d, []) && RunDirect(d, []) == (d, [])
  {
  }

  lemma RunFirst(d: Direct, op: Op, ops: seq<Op>)
    requires Known(d, op) && KnownRun(DirectStep(d, op).0, ops)
    ensures KnownRun(d, [op] + ops)
    ensures RunDirect(d, [op] + ops) ==
            (RunDirect(DirectStep(d, op).0, ops).0, [DirectStep(d, op).1] + RunDirect(DirectStep(d, op).0, ops).1)
  {
    hide DirectStep;
    assert ([op] + ops)[1..] == ops;
  }

  /** A mutex handed over through a condition, by two threads that know nothing but two words in memory,
      static or bound: the waiter gives the mutex up, the other thread gets it, and after the signal and
      the unlock the waiter returns with the mutex again. */
  lemma WaitHandsOver(s: State, c: Addr, m: Addr, t: Tid, w: Tid, p: seq<Ptr>)
    requires |p| == 5 && t != w && PermittedRun(s, Handover(c, m, t, w, p))
    requires Invariant(s) && c in s.conds.word && m in s.mutexes.word
    requires MutexAt(s, m).owner == None && CondAt(s, c).waiters == []
    ensures var (u, rs) := Run(s, Handover(c, m, t, w, p));
            && rs == [Returns(0), Blocks, Returns(0), Returns(0), Returns(0), Returns(0)]
            && m in u.mutexes.word && MutexAt(u, m).owner == Some(t)
  {
    var ops := Handover(c, m, t, w, p);
    hide Invariant, PermittedRun, Run, RunDirect, KnownRun, MutexAt, CondAt, Meaning, AnswersAt, Handover;
    MeansMutex(s, m);
    MeansCond(s, c);
    RunSimulates(s, ops);
    DirectHandover(Meaning(s), c, m, t, w, p);
    HandoverAnswers(s, c, m, t, w, p);
    SameResults(Run(s, ops).1, RunDirect(Meaning(s), ops).1);
    var u := Run(s, ops).0;
    NamedIfMeant(u, m);
    MeansMutex(u, m);
  }

  lemma HandoverAnswers(s: State, c: Addr, m: Addr, t: Tid, w: Tid, p: seq<Ptr>)
    requires |p| == 5
    ensures var ops := Handover(c, m, t, w, p); forall i | 0 <= i < |ops| :: AnswersAt(s, ops, i)
  {
    assert Binds(Handover(c, m, t, w, p)[0], m);
    hide Bound;
  }

  lemma SameResults(rs: seq<Result>, qs: seq<Result>)
    requires |rs| == |qs| && forall i | 0 <= i < |rs| :: rs[i] == qs[i]
    ensures rs == qs
  {
  }

  lemma NamedIfMeant(s: State, m: Addr)
    requires m in Meaning(s).mutexes
    ensures m in s.mutexes.word
  {
    hide Object;
  }
}
