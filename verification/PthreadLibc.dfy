/** The pthread wrappers that put an Android word in front of every mutex and condition. */
module PthreadLibc {
  import opened Lists
  import opened PthreadSync

  lemma SoundParts(s: State)
    requires Invariant(s)
    ensures Sound(s.mutexes) && Sound(s.conds)
  {
  }

  /** A wait, field by field, from the state in which both words are bound. */
  lemma WaitUpdates(s: State, c: Addr, m: Addr, t: Tid, pc: Ptr, pm: Ptr)
    requires Named(s, Wait(c, m, t, pc, pm))
    ensures var u := BindMutex(BindCond(s, c, pc), m, pm);
            var (w, v, r) := WaitReal(CondAt(u, c), MutexAt(u, m), t);
            Step(s, Wait(c, m, t, pc, pm)) ==
              (State(Table(u.mutexes.word, u.mutexes.heap[u.mutexes.word[m] := v]),
                     Table(u.conds.word, u.conds.heap[u.conds.word[c] := w]),
                     if r == Blocks then u.asleep[t := Sleeper(m, u.mutexes.word[m])] else u.asleep), r)
  {
    hide Object, WaitReal;
  }

  class Libc {
    var mutexWord: map<Addr, nat>
    var condWord: map<Addr, nat>
    var mutexHeap: map<Ptr, Mutex>
    var condHeap: map<Ptr, Cond>
    var asleep: map<Tid, Sleeper>

    ghost function View(): State
      reads this
    {
      State(Table(mutexWord, mutexHeap), Table(condWord, condHeap), asleep)
    }

    /** Program start: every word holds a static value and nothing has been allocated. */
    constructor (mutexes: map<Addr, nat>, conds: map<Addr, nat>)
      requires forall a | a in mutexes :: mutexes[a] <= TOP
      requires forall a | a in conds :: conds[a] <= TOP
      ensures View() == State(Table(mutexes, map[]), Table(conds, map[]), map[]) && Invariant(View())
    {
      mutexWord, condWord := mutexes, conds;
      mutexHeap, condHeap, asleep := map[], map[], map[];
    }

    method AllocInitMutex(value: nat, p: Ptr) returns (realMutex: Ptr)
      modifies this`mutexHeap
      ensures realMutex == p && mutexHeap == old(mutexHeap)[p := NewMutex(value)]
      ensures mutexHeap[p].kind == if value / 0x4000 % 2 == 1 then Recursive
                                   else if value / 0x8000 % 2 == 1 then Errorcheck else Normal
      ensures mutexHeap[p].owner == None && mutexHeap[p].depth == 0
    {
      var kind := Normal;
      if value / 0x4000 % 2 == 1 {
        kind := Recursive;
      } else if value / 0x8000 % 2 == 1 {
        kind := Errorcheck;
      }
      mutexHeap := mutexHeap[p := Mutex(kind, None, 0)];
      realMutex := p;
    }

    method AllocInitCond(p: Ptr) returns (realCond: Ptr)
      modifies this`condHeap
      ensures realCond == p && condHeap == old(condHeap)[p := Cond([])]
    {
      condHeap := condHeap[p := Cond([])];
      realCond := p;
    }

    /** The test at the head of every use of a mutex: what its word points at, after binding it. */
    method RealMutex(mutex: Addr, p: Ptr) returns (obj: Ptr)
      requires mutex in mutexWord && Sound(View().mutexes)
      modifies this`mutexWord, this`mutexHeap
      ensures View() == BindMutex(old(View()), mutex, p)
      ensures mutex in mutexWord && mutexWord[mutex] == obj && obj in mutexHeap
      ensures TOP < p ==> mutexHeap[obj] == MutexAt(View(), mutex)
    {
      obj := mutexWord[mutex];
      if obj <= TOP {
        obj := AllocInitMutex(obj, p);
        mutexWord := mutexWord[mutex := obj];
      }
    }

    method RealCond(cond: Addr, p: Ptr) returns (obj: Ptr)
      requires cond in condWord && Sound(View().conds)
      modifies this`condWord, this`condHeap
      ensures View() == BindCond(old(View()), cond, p)
      ensures cond in condWord && condWord[cond] == obj && obj in condHeap
      ensures TOP < p ==> condHeap[obj] == CondAt(View(), cond)
    {
      obj := condWord[cond];
      if obj <= TOP {
        obj := AllocInitCond(p);
        condWord := condWord[cond := obj];
      }
    }

    /** Any mutex may be given a new object; a thread asleep with the old one keeps that. */
    method MutexInit(mutex: Addr, kind: Kind, p: Ptr) returns (r: Result)
      requires Invariant(View()) && Named(View(), Op.MutexInit(mutex, kind, p)) && Unused(View(), p)
      modifies this
      ensures (View(), r) == Step(old(View()), Op.MutexInit(mutex, kind, p))
      ensures Invariant(View()) <==> Sleepless(old(View()), mutex)
    {
      ReinitKeepsInvariantIff(View(), Op.MutexInit(mutex, kind, p));
      hide Invariant, Sleepless;
      mutexWord := mutexWord[mutex := p];
      mutexHeap := mutexHeap[mutexWord[mutex] := Mutex(kind, None, 0)];
      r := Returns(0);
    }

    method MutexLock(mutex: Addr, t: Tid, p: Ptr) returns (r: Result)
      requires Invariant(View()) && Permitted(View(), Lock(mutex, t, p))
      modifies this
      ensures Invariant(View()) && (View(), r) == Step(old(View()), Lock(mutex, t, p))
    {
      StepKeepsInvariant(View(), Lock(mutex, t, p));
      var value := RealMutex(mutex, p);
      var (m, ret) := LockReal(mutexHeap[value], t);
      mutexHeap := mutexHeap[value := m];
      r := ret;
    }

    /** The word is handed to glibc as it is; a static value is no pointer. */
    method MutexUnlock(mutex: Addr, t: Tid) returns (r: Result)
      requires Invariant(View()) && Permitted(View(), Unlock(mutex, t))
      modifies this
      ensures Invariant(View()) && (View(), r) == Step(old(View()), Unlock(mutex, t))
    {
      StepKeepsInvariant(View(), Unlock(mutex, t));
      if mutexWord[mutex] <= TOP {
        return Faults;
      }
      var (m, ret) := UnlockReal(mutexHeap[mutexWord[mutex]], t);
      mutexHeap := mutexHeap[mutexWord[mutex] := m];
      r := ret;
    }

    method CondInit(cond: Addr, p: Ptr) returns (r: Result)
      requires Invariant(View()) && Permitted(View(), Op.CondInit(cond, p))
      modifies this
      ensures Invariant(View()) && (View(), r) == Step(old(View()), Op.CondInit(cond, p))
    {
      StepKeepsInvariant(View(), Op.CondInit(cond, p));
      condWord := condWord[cond := p];
      condHeap := condHeap[p := Cond([])];
      r := Returns(0);
    }

    method CondDestroy(cond: Addr) returns (r: Result)
      requires Invariant(View()) && Permitted(View(), Op.CondDestroy(cond))
      modifies this
      ensures Invariant(View()) && (View(), r) == Step(old(View()), Op.CondDestroy(cond))
    {
      StepKeepsInvariant(View(), Op.CondDestroy(cond));
      if condWord[cond] == 0 {
        return Returns(EINVAL);
      }
      if condWord[cond] <= TOP {
        return Faults;
      }
      condWord := condWord[cond := 0];
      r := Garbage;
    }

    method CondWait(cond: Addr, mutex: Addr, t: Tid, pc: Ptr, pm: Ptr) returns (r: Result)
      requires Invariant(View()) && Permitted(View(), Wait(cond, mutex, t, pc, pm))
      modifies this
      ensures Invariant(View()) && (View(), r) == Step(old(View()), Wait(cond, mutex, t, pc, pm))
    {
      StepKeepsInvariant(View(), Wait(cond, mutex, t, pc, pm));
      WaitUpdates(View(), cond, mutex, t, pc, pm);
      assert Sound(View().conds) && Sound(View().mutexes) by { SoundParts(View()); }
      hide Object, WaitReal, Invariant, Sound, Permitted, Step, Bind;
      var realCond := RealCond(cond, pc);
      var realMutex := RealMutex(mutex, pm);
      var (c, m, ret) := WaitReal(condHeap[realCond], mutexHeap[realMutex], t);
      condHeap, mutexHeap := condHeap[realCond := c], mutexHeap[realMutex := m];
      if ret == Blocks {
        asleep := asleep[t := Sleeper(mutex, realMutex)];
      }
      r := ret;
    }

    /** The end of glibc's wait, which takes the mutex it was given again. */
    method CondWaitEnds(t: Tid) returns (r: Result)
      requires Invariant(View()) && Permitted(View(), Resume(t))
      modifies this
      ensures Invariant(View()) && (View(), r) == Step(old(View()), Resume(t))
    {
      StepKeepsInvariant(View(), Resume(t));
      var realMutex := asleep[t].obj;
      var (m, ret) := LockReal(mutexHeap[realMutex], t);
      mutexHeap := mutexHeap[realMutex := m];
      if ret != Blocks {
        asleep := asleep - {t};
      }
      r := ret;
    }

    method CondSignal(cond: Addr, k: nat, p: Ptr) returns (r: Result)
      requires Invariant(View()) && Permitted(View(), Signal(cond, k, p))
      modifies this
      ensures Invariant(View()) && (View(), r) == Step(old(View()), Signal(cond, k, p))
    {
      StepKeepsInvariant(View(), Signal(cond, k, p));
      hide Anchored, SignalReal;
      var realCond := RealCond(cond, p);
      condHeap := condHeap[realCond := SignalReal(condHeap[realCond], k)];
      r := Returns(0);
    }

    method CondBroadcast(cond: Addr, p: Ptr) returns (r: Result)
      requires Invariant(View()) && Permitted(View(), Broadcast(cond, p))
      modifies this
      ensures Invariant(View()) && (View(), r) == Step(old(View()), Broadcast(cond, p))
    {
      StepKeepsInvariant(View(), Broadcast(cond, p));
      hide Anchored;
      var realCond := RealCond(cond, p);
      condHeap := condHeap[realCond := Cond([])];
      r := Returns(0);
    }
  }
}
