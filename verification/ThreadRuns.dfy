/** What the table knows of the threads that pthread_create starts, and a creation from end to end. */
module ThreadRuns {
  import T = TidTable
  import opened ThreadCreate

  // ---- The table is what the registrations make of it --------------------------------------

  /** What one step does to the table, read off the place where the child is. */
  function Registration(s: State, op: Op): seq<T.Op>
    requires op.Child? ==> op.c in s.calls
  {
    if !op.Child? then []
    else
      var k := s.calls[op.c];
      if k.child.HasBoth? then [T.Set(k.self, k.tid)]
      else if k.child.Running? then [T.Rem(k.self)]
      else []
  }

  /** The registrations and removals of a run, in order. */
  function Registrations(s: State, ops: seq<Op>): seq<T.Op>
    requires PermittedRun(s, ops)
    decreases |ops|
  {
    if ops == [] then [] else Registration(s, ops[0]) + Registrations(Step(s, ops[0]), ops[1..])
  }

  lemma StepIsRegistration(s: State, op: Op)
    requires Permitted(s, op)
    ensures Step(s, op).table == T.Run(s.table, Registration(s, op))
  {
    hide T.Filled, T.Removed;
    assert forall t: T.Table :: T.Run(t, []) == t;
  }

  lemma {:induction false} TableInTwo(t: T.Table, a: seq<T.Op>, b: seq<T.Op>)
    ensures T.Run(t, a + b) == T.Run(T.Run(t, a), b)
    decreases |a|
  {
    if a == [] {
      assert a + b == b;
    } else {
      assert (a + b)[1..] == a[1..] + b;
      TableInTwo(T.Step(t, a[0]), a[1..], b);
    }
  }

  /** Whatever the interleaving, the table is the one that the children's registrations and removals,
      one after the other, make of an empty one. */
  lemma {:induction false} TableFollowsRegistrations(s: State, ops: seq<Op>)
    requires PermittedRun(s, ops)
    ensures Run(s, ops).table == T.Run(s.table, Registrations(s, ops))
    decreases |ops|
  {
    hide Step, Registration, Vacant, Unused;
    if ops != [] {
      StepIsRegistration(s, ops[0]);
      TableFollowsRegistrations(Step(s, ops[0]), ops[1..]);
      TableInTwo(s.table, Registration(s, ops[0]), Registrations(Step(s, ops[0]), ops[1..]));
    }
  }

  // ---- A call and its thread over a run ------------------------------------------------------

  /** Once a call has a thread, handle and id stay, and a thread that has ended stays ended. */
  lemma ThreadStays(s: State, op: Op, c: Call)
    requires Inv(s) && Permitted(s, op) && c in s.calls && !s.calls[c].child.Unborn?
    ensures c in Step(s, op).calls
    ensures var k, k' := s.calls[c], Step(s, op).calls[c];
            && k'.self == k.self && k'.tid == k.tid && !k'.child.Unborn?
            && (k.child.Finished? ==> k'.child.Finished?)
  {
    hide Apart, Recorded, Vacant, Unused;
    assert Handshake(s, c);
  }

  lemma {:induction false} ThreadStaysOverRun(s: State, ops: seq<Op>, c: Call)
    requires Inv(s) && PermittedRun(s, ops) && c in s.calls && !s.calls[c].child.Unborn?
    ensures c in Run(s, ops).calls
    ensures var k, k' := s.calls[c], Run(s, ops).calls[c];
            && k'.self == k.self && k'.tid == k.tid && (k.child.Finished? ==> k'.child.Finished?)
    decreases |ops|
  {
    hide Inv, Step, Permitted;
    if ops != [] {
      StepKeepsInv(s, ops[0]);
      ThreadStays(s, ops[0], c);
      ThreadStaysOverRun(Step(s, ops[0]), ops[1..], c);
    }
  }

  lemma WhoRegisters(s: State, op: Op, c: Call)
    requires Inv(s) && Permitted(s, op) && c in Step(s, op).registered && c !in s.registered
    ensures op == Child(c) && c in s.calls && s.calls[c].child.HasBoth?
    ensures Registration(s, op) == [T.Set(s.calls[c].self, s.calls[c].tid)]
  {
    hide Apart, Recorded, Handshakes, Vacant, Unused;
  }

  /** A call is among the registered ones only if its thread has entered its handle and id. */
  lemma {:induction false} RegisteredHasEntered(s: State, ops: seq<Op>, c: Call)
    requires Inv(s) && PermittedRun(s, ops) && c in Run(s, ops).registered && c !in s.registered
    ensures c in Run(s, ops).calls
    ensures T.Set(Run(s, ops).calls[c].self, Run(s, ops).calls[c].tid) in Registrations(s, ops)
    decreases |ops|
  {
    hide Inv, Step, Permitted, Registration;
    if ops != [] {
      var u := Step(s, ops[0]);
      StepKeepsInv(s, ops[0]);
      if c in u.registered {
        WhoRegisters(s, ops[0], c);
        ThreadStays(s, ops[0], c);
        ThreadStaysOverRun(u, ops[1..], c);
        assert T.Set(s.calls[c].self, s.calls[c].tid) in Registration(s, ops[0]);
      } else {
        RegisteredHasEntered(u, ops[1..], c);
      }
    }
  }

  /** When pthread_create returns, its thread has entered its handle and its id in the table. */
  lemma ReturnedHasEntered(ops: seq<Op>, c: Call)
    requires PermittedRun(START, ops)
    requires var s := Run(START, ops); c in s.calls && s.calls[c].at == Returned
    ensures var k := Run(START, ops).calls[c]; T.Set(k.self, k.tid) in Registrations(START, ops)
  {
    StartInv();
    ReturnedIsRegistered(ops, c);
    RegisteredHasEntered(START, ops, c);
  }

  // ---- Looking a thread up -------------------------------------------------------------------

  lemma HeldIsFound(s: State, c: Call)
    requires Holds(s, c) && s.calls[c].self != 0
    ensures T.Lookup(s.table, s.calls[c].self) == s.calls[c].tid
  {
    T.LookupUniform(T.Slot(s.calls[c].tid, s.calls[c].self), s.calls[c].self);
  }

  /** A child that finds the table empty when it registers has it to itself from then on. */
  lemma EmptyTableIsTaken(s: State, c: Call)
    requires Inv(s) && c in s.calls && s.calls[c].child.HasBoth? && s.table == T.Uniform(T.EMPTY)
    ensures Holds(Step(s, Child(c)), c)
  {
    hide Handshakes, Apart;
    T.StepIsRegister(T.EMPTY, T.Set(s.calls[c].self, s.calls[c].tid));
  }

  lemma HoldingStays(s: State, op: Op, c: Call)
    requires Inv(s) && Permitted(s, op) && Holds(s, c)
    requires c in Step(s, op).calls && !Step(s, op).calls[c].child.Finished?
    ensures Holds(Step(s, op), c)
  {
    assert Handshake(s, c);
    var e := T.Slot(s.calls[c].tid, s.calls[c].self);
    assert s.calls[c].self != 0;
    if op.Child? && s.calls[op.c].child.HasBoth? {
      T.StepIsRegister(e, T.Set(s.calls[op.c].self, s.calls[op.c].tid));
    } else if op.Child? && s.calls[op.c].child.Running? {
      T.StepIsRegister(e, T.Rem(s.calls[op.c].self));
      assert op.c != c ==> s.calls[op.c].self != s.calls[c].self;
    }
    hide Handshakes, Apart, Recorded, T.Filled, T.Removed, T.Uniform;
  }

  lemma {:induction false} HoldingStaysOverRun(s: State, ops: seq<Op>, c: Call)
    requires Inv(s) && PermittedRun(s, ops) && Holds(s, c)
    requires c in Run(s, ops).calls && !Run(s, ops).calls[c].child.Finished?
    ensures Holds(Run(s, ops), c)
    decreases |ops|
  {
    if ops != [] {
      var u := Step(s, ops[0]);
      StepKeepsInv(s, ops[0]);
      ThreadStays(s, ops[0], c);
      ThreadStaysOverRun(u, ops[1..], c);
      HoldingStays(s, ops[0], c);
      hide Inv, Step, Permitted, Holds;
      HoldingStaysOverRun(u, ops[1..], c);
    }
  }

  lemma HandleIsNotNull(s: State, c: Call)
    requires Inv(s) && c in s.calls && !s.calls[c].child.Unborn?
    ensures s.calls[c].self != 0 && s.calls[c].tid != 0
  {
  }

  /** A thread that registers into an empty table is found under its id from then until it ends, over
      every interleaving with whatever other threads are created, run and end. */
  lemma FoundUntilItEnds(s: State, c: Call, ops: seq<Op>)
    requires Inv(s) && c in s.calls && s.calls[c].child.HasBoth? && s.table == T.Uniform(T.EMPTY)
    requires PermittedRun(Step(s, Child(c)), ops)
    ensures var u := Run(Step(s, Child(c)), ops);
            && c in u.calls && u.calls[c].self == s.calls[c].self
            && (!u.calls[c].child.Finished? ==> T.Lookup(u.table, s.calls[c].self) == s.calls[c].tid)
  {
    var v := Step(s, Child(c));
    EmptyTableIsTaken(s, c);
    StepKeepsInv(s, Child(c));
    ThreadStays(s, Child(c), c);
    HandleIsNotNull(s, c);
    hide Inv, Step, Holds;
    ThreadStaysOverRun(v, ops, c);
    if !Run(v, ops).calls[c].child.Finished? {
      HoldingStaysOverRun(v, ops, c);
      HeldIsFound(Run(v, ops), c);
    }
  }

  /** A thread that has just ended is not found. */
  lemma EndIsForgotten(s: State, c: Call)
    requires Inv(s) && c in s.calls && s.calls[c].child.Running?
    ensures T.Lookup(Step(s, Child(c)).table, s.calls[c].self) == 0
  {
    HandleIsNotNull(s, c);
    var e := s.table[0];
    T.StepIsRegister(e, T.Rem(s.calls[c].self));
    T.LookupUniform(T.Register(e, T.Rem(s.calls[c].self)), s.calls[c].self);
    hide Handshakes, Apart;
  }

  // ---- One creation from end to end ----------------------------------------------------------

  function Again(op: Op, n: nat): seq<Op> {
    seq(n, i => op)
  }

  lemma RunNext(s: State, op: Op, ops: seq<Op>)
    requires Permitted(s, op) && PermittedRun(Step(s, op), ops)
    ensures PermittedRun(s, [op] + ops) && Run(s, [op] + ops) == Run(Step(s, op), ops)
  {
    assert ([op] + ops)[1..] == ops;
  }

  lemma RunNothing(s: State)
    ensures PermittedRun(s, []) && Run(s, []) == s
  {
  }

  /** The child by itself: the accesses of my_start_routine one after the other do what the routine does
      as a whole. */
  lemma ChildRunsAlone(s: State, c: Call)
    requires Inv(s) && c in s.calls && s.calls[c].child == Started
    ensures var k := s.calls[c];
            var u := ChildStep(ChildStep(ChildStep(ChildStep(s, c), c), c), c);
            && u.calls == s.calls[c := k.(child := Running(k.routine, k.arg))]
            && u.memory == s.memory[k.frame := Container(k.routine, k.arg, 0)]
            && u.table == T.Filled(s.table, k.self, k.tid) && u.registered == s.registered + {c}
  {
    assert Handshake(s, c);
    hide Inv, T.Filled;
    var k := s.calls[c];
    var s1 := ChildStep(s, c);
    assert s1.calls == s.calls[c := k.(child := HasRoutine(k.routine))] && s1.memory == s.memory;
    var s2 := ChildStep(s1, c);
    assert s2.calls == s.calls[c := k.(child := HasBoth(k.routine, k.arg))] && s2.memory == s.memory;
    var s3 := ChildStep(s2, c);
    assert s3.calls == s.calls[c := k.(child := Known(k.routine, k.arg))] && s3.memory == s.memory;
  }

  lemma FillsContainer(s: State, c: Call, frame: Addr, routine: nat, arg: nat)
    requires c in s.calls && s.calls[c] == Creation(frame, routine, arg, Filling(0), Unborn, 0, 0)
    ensures PermittedRun(s, Again(Fill(c), 3))
    ensures Run(s, Again(Fill(c), 3)) ==
            s.(calls := s.calls[c := Creation(frame, routine, arg, Filling(3), Unborn, 0, 0)],
               memory := s.memory[frame := Container(routine, arg, 1)])
  {
    var s1 := Step(s, Fill(c));
    var s2 := Step(s1, Fill(c));
    var s3 := Step(s2, Fill(c));
    assert s3 == s.(calls := s.calls[c := Creation(frame, routine, arg, Filling(3), Unborn, 0, 0)],
                    memory := s.memory[frame := Container(routine, arg, 1)]);
    assert Again(Fill(c), 3) == [Fill(c)] + ([Fill(c)] + ([Fill(c)] + []));
    hide Step, Permitted;
    RunNothing(s3);
    RunNext(s2, Fill(c), []);
    RunNext(s1, Fill(c), [Fill(c)] + []);
    RunNext(s, Fill(c), [Fill(c)] + ([Fill(c)] + []));
  }

  lemma {:induction false} RunInTwo(s: State, a: seq<Op>, b: seq<Op>)
    requires PermittedRun(s, a) && PermittedRun(Run(s, a), b)
    ensures PermittedRun(s, a + b) && Run(s, a + b) == Run(Run(s, a), b)
    decreases |a|
  {
    hide Step, Permitted;
    if a == [] {
      assert a + b == b;
    } else {
      assert (a + b)[0] == a[0] && (a + b)[1..] == a[1..] + b;
      RunInTwo(Step(s, a[0]), a[1..], b);
    }
  }

  lemma RunOne(s: State, op: Op)
    requires Permitted(s, op)
    ensures PermittedRun(s, [op]) && Run(s, [op]) == Step(s, op)
  {
    RunNothing(Step(s, op));
    RunNext(s, op, []);
    assert [op] + [] == [op];
    hide Step, Permitted;
  }

  lemma ChildFour(s: State, c: Call)
    requires c in s.calls
    ensures PermittedRun(s, Again(Child(c), 4))
    ensures Run(s, Again(Child(c), 4)) == ChildStep(ChildStep(ChildStep(ChildStep(s, c), c), c), c)
  {
    assert forall t: State :: c in t.calls ==> c in ChildStep(t, c).calls;
    hide ChildStep;
    var s1 := Step(s, Child(c));
    var s2 := Step(s1, Child(c));
    var s3 := Step(s2, Child(c));
    RunOne(s3, Child(c));
    RunNext(s2, Child(c), [Child(c)]);
    RunNext(s1, Child(c), [Child(c)] + [Child(c)]);
    RunNext(s, Child(c), [Child(c)] + ([Child(c)] + [Child(c)]));
    assert Again(Child(c), 4) == [Child(c)] + ([Child(c)] + ([Child(c)] + [Child(c)]));
  }

  /** One call of pthread_create with its child, nobody else moving. */
  function Whole(c: Call, frame: Addr, routine: nat, arg: nat, self: T.Thread, tid: T.Tid): seq<Op> {
    [Enter(c, frame, routine, arg)] + (Again(Fill(c), 3) + ([Create(c, self, tid)] + (Again(Child(c), 4) + [Spin(c)])))
  }

  lemma SpinReturns(s: State, c: Call)
    requires c in s.calls && s.calls[c].at == Spinning && Memory(s, s.calls[c].frame).flag == 0
    ensures PermittedRun(s, [Spin(c)])
    ensures Run(s, [Spin(c)]) == s.(calls := s.calls[c := s.calls[c].(at := Returned)])
  {
    RunOne(s, Spin(c));
  }

  /** The second half, from the filled container on. */
  lemma StartsAndReturns(s: State, c: Call, k: Creation, self: T.Thread, tid: T.Tid)
    requires Inv(s) && c in s.calls && s.calls[c] == k && k.at == Filling(3) && k.child == Unborn
    requires self != 0 && tid != 0 && Unused(s, self)
    ensures var ops := [Create(c, self, tid)] + (Again(Child(c), 4) + [Spin(c)]);
            && PermittedRun(s, ops)
            && var u := Run(s, ops);
            && u.calls == s.calls[c := Creation(k.frame, k.routine, k.arg, Returned, Running(k.routine, k.arg), self, tid)]
            && u.table == T.Filled(s.table, self, tid) && u.registered == s.registered + {c}
  {
    var op := Create(c, self, tid);
    var s5 := Step(s, op);
    StepKeepsInv(s, op);
    var k5 := k.(at := Spinning, child := Started, self := self, tid := tid);
    assert s5.calls == s.calls[c := k5] && s5.table == s.table && s5.registered == s.registered;
    hide Inv, Step, T.Filled;
    ChildRunsAlone(s5, c);
    ChildFour(s5, c);
    hide ChildStep;
    var s9 := Run(s5, Again(Child(c), 4));
    assert s9.calls[c] == k5.(child := Running(k.routine, k.arg));
    SpinReturns(s9, c);
    RunInTwo(s5, Again(Child(c), 4), [Spin(c)]);
    RunNext(s, op, Again(Child(c), 4) + [Spin(c)]);
  }

  lemma EnterOnly(s: State, c: Call, frame: Addr, routine: nat, arg: nat)
    requires c !in s.calls && Vacant(s, frame)
    ensures var op := Enter(c, frame, routine, arg);
            && Permitted(s, op)
            && Step(s, op) == s.(calls := s.calls[c := Creation(frame, routine, arg, Filling(0), Unborn, 0, 0)])
  {
  }

  lemma StillUnused(s: State, t: State, c: Call, k: Creation, self: T.Thread)
    requires Unused(s, self) && t.calls == s.calls[c := k] && k.child == Unborn
    ensures Unused(t, self)
  {
  }

  /** From a call to its return: with an empty table and a thread of its own, pthread_create returns, the
      thread runs the routine and argument passed, and it is found under its id. */
  lemma CreationCompletes(s: State, c: Call, frame: Addr, routine: nat, arg: nat, self: T.Thread, tid: T.Tid)
    requires Inv(s) && c !in s.calls && Vacant(s, frame) && Unused(s, self) && self != 0 && tid != 0
    ensures PermittedRun(s, Whole(c, frame, routine, arg, self, tid))
    ensures var u := Run(s, Whole(c, frame, routine, arg, self, tid));
            && u.calls == s.calls[c := Creation(frame, routine, arg, Returned, Running(routine, arg), self, tid)]
            && u.table == T.Filled(s.table, self, tid)
            && (s.table == T.Uniform(T.EMPTY) ==> T.Lookup(u.table, self) == tid)
  {
    hide Inv, Step, Permitted, Vacant, Unused;
    EnterOnly(s, c, frame, routine, arg);
    var s1 := Step(s, Enter(c, frame, routine, arg));
    StepKeepsInv(s, Enter(c, frame, routine, arg));
    FillsContainer(s1, c, frame, routine, arg);
    RunKeepsInv(s1, Again(Fill(c), 3));
    var s4 := Run(s1, Again(Fill(c), 3));
    var k := Creation(frame, routine, arg, Filling(3), Unborn, 0, 0);
    assert s4.calls == s.calls[c := k];
    StillUnused(s, s4, c, k, self);
    StartsAndReturns(s4, c, k, self, tid);
    var rest := [Create(c, self, tid)] + (Again(Child(c), 4) + [Spin(c)]);
    RunInTwo(s1, Again(Fill(c), 3), rest);
    RunNext(s, Enter(c, frame, routine, arg), Again(Fill(c), 3) + rest);
    if s.table == T.Uniform(T.EMPTY) {
      T.StepIsRegister(T.EMPTY, T.Set(self, tid));
      T.LookupUniform(T.Slot(tid, self), self);
    }
  }
}
