/** pthread_create handing a container on its own stack to the thread it starts. */
module ThreadCreate {
  import T = TidTable

  type Call = nat
  type Addr = nat

  /** The three words on the creator's stack: routine, argument, and the flag it spins on. */
  datatype Container = Container(routine: nat, arg: nat, flag: nat)

  /** Where the creator is: filling the container, spinning on the flag, or gone from the call. */
  datatype Creator = Filling(words: nat) | Spinning | Returned

  /** Where the child is, with what it has read so far. */
  datatype Child =
    | Unborn
    | Started
    | HasRoutine(r: nat)
    | HasBoth(r: nat, x: nat)
    | Known(r: nat, x: nat)
    | Running(r: nat, x: nat)
    | Finished(r: nat, x: nat)

  datatype Creation = Creation(frame: Addr, routine: nat, arg: nat, at: Creator, child: Child,
                               self: T.Thread, tid: T.Tid)

  datatype State = State(memory: map<Addr, Container>, calls: map<Call, Creation>, table: T.Table,
                         registered: set<Call>)

  datatype Op =
    | Enter(c: Call, frame: Addr, routine: nat, arg: nat)
    | Fill(c: Call)
    | Create(c: Call, self: T.Thread, tid: T.Tid)
    | Spin(c: Call)
    | Child(c: Call)
    | Scribble(frame: Addr, junk: Container)

  function Memory(s: State, a: Addr): Container {
    if a in s.memory then s.memory[a] else Container(0, 0, 0)
  }

  predicate Inside(s: State, c: Call) {
    c in s.calls && s.calls[c].at != Returned
  }

  /** A child between its registration and its removal. */
  predicate Alive(s: State, c: Call) {
    c in s.calls && (s.calls[c].child.Known? || s.calls[c].child.Running?)
  }

  function CallStep(s: State, c: Call, k: Creation): State {
    s.(calls := s.calls[c := k])
  }

  function FillStep(s: State, c: Call): State
    requires c in s.calls && s.calls[c].at.Filling?
  {
    var k := s.calls[c];
    var was := Memory(s, k.frame);
    var now := match k.at.words
      case 0 => was.(routine := k.routine)
      case 1 => was.(arg := k.arg)
      case _ => was.(flag := 1);
    CallStep(s, c, k.(at := Filling(k.at.words + 1))).(memory := s.memory[k.frame := now])
  }

  /** my_start_routine, one access to shared memory at a time. */
  function ChildStep(s: State, c: Call): State
    requires c in s.calls
  {
    var k := s.calls[c];
    match k.child
    case Unborn => s
    case Started => CallStep(s, c, k.(child := HasRoutine(Memory(s, k.frame).routine)))
    case HasRoutine(r) => CallStep(s, c, k.(child := HasBoth(r, Memory(s, k.frame).arg)))
    case HasBoth(r, x) =>
      State(s.memory, s.calls[c := k.(child := Known(r, x))], T.Filled(s.table, k.self, k.tid),
            s.registered + {c})
    case Known(r, x) =>
      CallStep(s, c, k.(child := Running(r, x))).(memory := s.memory[k.frame := Memory(s, k.frame).(flag := 0)])
    case Running(r, x) =>
      CallStep(s, c, k.(child := Finished(r, x))).(table := T.Removed(s.table, k.self))
    case Finished(_, _) => s
  }

  function Step(s: State, op: Op): State
    requires Permitted(s, op)
  {
    match op
    case Enter(c, frame, routine, arg) =>
      CallStep(s, c, Creation(frame, routine, arg, Filling(0), Unborn, 0, 0))
    case Fill(c) => FillStep(s, c)
    case Create(c, self, tid) =>
      CallStep(s, c, s.calls[c].(at := Spinning, child := Started, self := self, tid := tid))
    case Spin(c) =>
      var k := s.calls[c];
      if Memory(s, k.frame).flag == 1 then s else CallStep(s, c, k.(at := Returned))
    case Child(c) => ChildStep(s, c)
    case Scribble(frame, junk) => s.(memory := s.memory[frame := junk])
  }

  /** Stacks of calls in progress are apart and only their owners write to them; the new thread's
      handle and id are not 0 and no other thread that has yet to end has that handle. */
  ghost predicate Permitted(s: State, op: Op) {
    match op
    case Enter(c, frame, _, _) => c !in s.calls && Vacant(s, frame)
    case Fill(c) => c in s.calls && s.calls[c].at.Filling? && s.calls[c].at.words < 3
    case Create(c, self, tid) =>
      && c in s.calls && s.calls[c].at == Filling(3)
      && self != 0 && tid != 0 && Unused(s, self)
    case Spin(c) => c in s.calls && s.calls[c].at == Spinning
    case Child(c) => c in s.calls
    case Scribble(frame, _) => Vacant(s, frame)
  }

  ghost predicate Vacant(s: State, frame: Addr) {
    forall c | c in s.calls :: Inside(s, c) ==> s.calls[c].frame != frame
  }

  ghost predicate Unused(s: State, self: T.Thread) {
    forall c | c in s.calls :: Exists(s, c) ==> s.calls[c].self != self
  }

  /** The thread has been started and has not ended. */
  predicate Exists(s: State, c: Call) {
    c in s.calls && !s.calls[c].child.Unborn? && !s.calls[c].child.Finished?
  }

  // ---- The invariant ---------------------------------------------------------------------

  /** The container holds what the creator has written so far. */
  predicate Written(k: Creation, m: Container, words: nat) {
    && (words > 0 ==> m.routine == k.routine)
    && (words > 1 ==> m.arg == k.arg)
    && (words > 2 ==> m.flag == 1)
  }

  /** Until the child is running the creator waits and the container is whole; what the child has
      read is what was passed. */
  predicate InStep(k: Creation, m: Container, registered: bool) {
    match k.child
    case Unborn => k.at.Filling? && k.at.words <= 3 && Written(k, m, k.at.words) && !registered
    case Started => k.at == Spinning && Written(k, m, 3) && !registered
    case HasRoutine(r) => k.at == Spinning && Written(k, m, 3) && r == k.routine && !registered
    case HasBoth(r, x) =>
      k.at == Spinning && Written(k, m, 3) && r == k.routine && x == k.arg && !registered
    case Known(r, x) =>
      k.at == Spinning && Written(k, m, 3) && r == k.routine && x == k.arg && registered
    case Running(r, x) =>
      !k.at.Filling? && (k.at == Spinning ==> m.flag == 0) && r == k.routine && x == k.arg && registered
    case Finished(r, x) =>
      !k.at.Filling? && (k.at == Spinning ==> m.flag == 0) && r == k.routine && x == k.arg && registered
  }

  ghost predicate Handshakes(s: State) {
    forall c | c in s.calls :: InStep(s.calls[c], Memory(s, s.calls[c].frame), c in s.registered)
  }

  ghost predicate Apart(s: State) {
    forall c, d | c in s.calls && d in s.calls && c != d ::
      && (Inside(s, c) && Inside(s, d) ==> s.calls[c].frame != s.calls[d].frame)
      && (Exists(s, c) && Exists(s, d) ==> s.calls[c].self != s.calls[d].self)
  }

  /** The table holds nothing or one live thread. */
  ghost predicate Recorded(s: State) {
    && |s.table| == T.SLOTS
    && s.table == T.Uniform(s.table[0])
    && (s.table[0] == T.EMPTY || exists c :: Alive(s, c) && s.table[0] == T.Slot(s.calls[c].tid, s.calls[c].self))
    && (forall c | c in s.calls :: !s.calls[c].child.Unborn? ==> s.calls[c].self != 0 && s.calls[c].tid != 0)
  }

  ghost predicate Inv(s: State) {
    && Handshakes(s) && Apart(s) && Recorded(s)
    && s.registered <= s.calls.Keys
  }

  const START: State := State(map[], map[], T.Uniform(T.EMPTY), {})

  lemma StartInv()
    ensures Inv(START)
  {
  }

  ghost predicate Handshake(s: State, c: Call)
    requires c in s.calls
  {
    InStep(s.calls[c], Memory(s, s.calls[c].frame), c in s.registered)
  }

  /** A step of one call, or a scribble, leaves the container of every other call in progress. */
  lemma OthersKeepHandshake(s: State, op: Op, c: Call)
    requires Inv(s) && Permitted(s, op) && c in s.calls
    requires op.Scribble? || op.c != c
    ensures c in Step(s, op).calls && Handshake(Step(s, op), c)
  {
    assert Handshake(s, c);
    assert Step(s, op).calls[c] == s.calls[c];
    assert c in Step(s, op).registered <==> c in s.registered;
    if Inside(s, c) {
      assert Memory(Step(s, op), s.calls[c].frame) == Memory(s, s.calls[c].frame);
    }
  }

  lemma OwnKeepsHandshake(s: State, op: Op)
    requires Inv(s) && Permitted(s, op) && !op.Scribble?
    ensures op.c in Step(s, op).calls && Handshake(Step(s, op), op.c)
  {
    hide Apart, Recorded, Vacant, Unused;
    if op.c in s.calls {
      assert Handshake(s, op.c);
    }
  }

  lemma StepKeepsHandshakes(s: State, op: Op)
    requires Inv(s) && Permitted(s, op)
    ensures Handshakes(Step(s, op))
  {
    hide Inv, Permitted, InStep, Step;
    var t := Step(s, op);
    forall c | c in t.calls
      ensures Handshake(t, c)
    {
      if op.Scribble? || op.c != c {
        StepKeepsCalls(s, op, c);
        OthersKeepHandshake(s, op, c);
      } else {
        OwnKeepsHandshake(s, op);
      }
    }
  }

  lemma StepKeepsCalls(s: State, op: Op, c: Call)
    requires Permitted(s, op) && (op.Scribble? || op.c != c)
    ensures c in Step(s, op).calls <==> c in s.calls
  {
  }

  /** No call has entered or been given a thread. */
  ghost predicate NothingNew(s: State, t: State) {
    && t.calls.Keys == s.calls.Keys
    && (forall c | c in s.calls ::
          && t.calls[c].frame == s.calls[c].frame && t.calls[c].self == s.calls[c].self
          && (Inside(t, c) ==> Inside(s, c)) && (Exists(t, c) ==> Exists(s, c)))
  }

  lemma NothingNewKeepsApart(s: State, t: State)
    requires Apart(s) && NothingNew(s, t)
    ensures Apart(t)
  {
  }

  lemma EnterKeepsApart(s: State, op: Op)
    requires Apart(s) && Permitted(s, op) && op.Enter?
    ensures Apart(Step(s, op))
  {
  }

  lemma CreateKeepsApart(s: State, op: Op)
    requires Apart(s) && Permitted(s, op) && op.Create?
    ensures Apart(Step(s, op))
  {
  }

  lemma OthersBringNothingNew(s: State, op: Op)
    requires Permitted(s, op) && !op.Enter? && !op.Create?
    ensures NothingNew(s, Step(s, op))
  {
    hide Vacant, Unused;
  }

  lemma StepKeepsApart(s: State, op: Op)
    requires Inv(s) && Permitted(s, op)
    ensures Apart(Step(s, op)) && Step(s, op).registered <= Step(s, op).calls.Keys
  {
    assert Step(s, op).registered <= Step(s, op).calls.Keys by { RegisteredAreCalls(s, op); }
    hide Apart, Step, Permitted, NothingNew, Handshakes, Recorded;
    if op.Enter? {
      EnterKeepsApart(s, op);
    } else if op.Create? {
      CreateKeepsApart(s, op);
    } else {
      OthersBringNothingNew(s, op);
      NothingNewKeepsApart(s, Step(s, op));
    }
  }

  lemma RegisteredAreCalls(s: State, op: Op)
    requires s.registered <= s.calls.Keys && Permitted(s, op)
    ensures Step(s, op).registered <= Step(s, op).calls.Keys
  {
    hide Vacant, Unused;
  }

  /** Who the table is about: nobody, or the live thread of call `c`. */
  ghost predicate Holds(s: State, c: Call) {
    Alive(s, c) && s.table == T.Uniform(T.Slot(s.calls[c].tid, s.calls[c].self))
  }

  lemma ChildKeepsTable(s: State, c: Call)
    requires Inv(s) && c in s.calls
    ensures var t := ChildStep(s, c);
            t.table == T.Uniform(T.EMPTY) || exists d :: Holds(t, d)
  {
    hide Handshakes, Apart;
    var k, t := s.calls[c], ChildStep(s, c);
    if k.child.HasBoth? {
      T.StepIsRegister(s.table[0], T.Set(k.self, k.tid));
      assert s.table[0] == T.EMPTY ==> Holds(t, c);
    } else if k.child.Running? {
      T.StepIsRegister(s.table[0], T.Rem(k.self));
    }
    if s.table[0] != T.EMPTY {
      var d :| Alive(s, d) && s.table[0] == T.Slot(s.calls[d].tid, s.calls[d].self);
      assert k.child.Running? && s.table[0].t == k.self ==> t.table == T.Uniform(T.EMPTY);
      assert !(k.child.Running? && s.table[0].t == k.self) ==> Holds(t, d);
    }
  }

  lemma OthersKeepTable(s: State, op: Op)
    requires Inv(s) && Permitted(s, op) && !op.Child?
    ensures var t := Step(s, op);
            t.table == T.Uniform(T.EMPTY) || exists d :: Holds(t, d)
  {
    hide Apart;
    if s.table[0] != T.EMPTY {
      var d :| Alive(s, d) && s.table[0] == T.Slot(s.calls[d].tid, s.calls[d].self);
      assert Handshake(s, d);
      assert Holds(Step(s, op), d);
    }
  }

  lemma StepKeepsRecorded(s: State, op: Op)
    requires Inv(s) && Permitted(s, op)
    ensures Recorded(Step(s, op))
  {
    hide Apart, Handshakes;
    var t := Step(s, op);
    if op.Child? {
      ChildKeepsTable(s, op.c);
    } else {
      OthersKeepTable(s, op);
    }
    if t.table != T.Uniform(T.EMPTY) {
      var d :| Holds(t, d);
      assert t.table[0] == T.Slot(t.calls[d].tid, t.calls[d].self);
    }
  }

  lemma StepKeepsInv(s: State, op: Op)
    requires Inv(s) && Permitted(s, op)
    ensures Inv(Step(s, op))
  {
    hide Handshakes, Apart, Recorded, Permitted, Step;
    StepKeepsHandshakes(s, op);
    StepKeepsApart(s, op);
    StepKeepsRecorded(s, op);
  }

  // ---- Whole runs ------------------------------------------------------------------------

  ghost predicate PermittedRun(s: State, ops: seq<Op>)
    decreases |ops|
  {
    ops == [] || (Permitted(s, ops[0]) && PermittedRun(Step(s, ops[0]), ops[1..]))
  }

  function Run(s: State, ops: seq<Op>): State
    requires PermittedRun(s, ops)
    decreases |ops|
  {
    if ops == [] then s else Run(Step(s, ops[0]), ops[1..])
  }

  lemma {:induction false} RunKeepsInv(s: State, ops: seq<Op>)
    requires Inv(s) && PermittedRun(s, ops)
    ensures Inv(Run(s, ops))
    decreases |ops|
  {
    hide Inv, Permitted, Step;
    if ops != [] {
      StepKeepsInv(s, ops[0]);
      RunKeepsInv(Step(s, ops[0]), ops[1..]);
    }
  }

  lemma Reached(ops: seq<Op>)
    requires PermittedRun(START, ops)
    ensures Inv(Run(START, ops))
  {
    StartInv();
    RunKeepsInv(START, ops);
  }

  /** The next step of the child reads or writes its container. */
  predicate Touches(k: Creation) {
    k.child.Started? || k.child.HasRoutine? || k.child.Known?
  }

  /** A child touches its container only while its creator is inside pthread_create, and finds
      there what its creator wrote. */
  lemma ContainerOutlivesChild(ops: seq<Op>, c: Call)
    requires PermittedRun(START, ops)
    requires var s := Run(START, ops); c in s.calls && Touches(s.calls[c])
    ensures var s := Run(START, ops);
            && s.calls[c].at == Spinning
            && Memory(s, s.calls[c].frame) == Container(s.calls[c].routine, s.calls[c].arg, 1)
  {
    Reached(ops);
    assert Handshake(Run(START, ops), c);
  }

  /** A thread runs the routine and the argument passed for it. */
  lemma RunsWhatWasPassed(ops: seq<Op>, c: Call)
    requires PermittedRun(START, ops)
    requires var s := Run(START, ops); c in s.calls && s.calls[c].child.Running?
    ensures var k := Run(START, ops).calls[c]; k.child == Running(k.routine, k.arg)
  {
    Reached(ops);
    assert Handshake(Run(START, ops), c);
  }

  /** The creator is let go exactly when its child has gone past the container, which is after
      the child's registration. */
  lemma CreatorLeavesIff(ops: seq<Op>, c: Call)
    requires PermittedRun(START, ops)
    requires var s := Run(START, ops); c in s.calls && s.calls[c].at == Spinning
    ensures var s := Run(START, ops);
            && Permitted(s, Spin(c))
            && (Step(s, Spin(c)).calls[c].at == Returned
                <==> s.calls[c].child.Running? || s.calls[c].child.Finished?)
            && (Step(s, Spin(c)).calls[c].at == Returned ==> c in s.registered)
  {
    Reached(ops);
    assert Handshake(Run(START, ops), c);
  }

  lemma ReturnedIsRegistered(ops: seq<Op>, c: Call)
    requires PermittedRun(START, ops)
    requires var s := Run(START, ops); c in s.calls && s.calls[c].at == Returned
    ensures c in Run(START, ops).registered
  {
    Reached(ops);
    assert Handshake(Run(START, ops), c);
  }

  /** A lookup finds a thread that is alive now, under the id it registered. */
  lemma LookupIsSound(ops: seq<Op>, self: T.Thread)
    requires PermittedRun(START, ops)
    ensures var s := Run(START, ops);
            T.Lookup(s.table, self) != 0 ==>
              exists c :: Alive(s, c) && s.calls[c].self == self && s.calls[c].tid == T.Lookup(s.table, self)
  {
    Reached(ops);
    var s := Run(START, ops);
    T.LookupUniform(s.table[0], self);
  }

  // ---- The child's own code --------------------------------------------------------------

  /** my_start_routine up to the call of the routine, run without interference. */
  method MyStartRoutine(container: array<nat>, registry: T.Registry, self: T.Thread, pid: T.Tid)
    returns (startRoutine: nat, arg: nat)
    requires container.Length == 3 && registry.Valid()
    modifies container, registry.threadToTid
    ensures (startRoutine, arg) == (old(container[0]), old(container[1]))
    ensures container[..] == [old(container[0]), old(container[1]), 0]
    ensures registry.threadToTid[..] == T.Filled(old(registry.threadToTid[..]), self, pid)
  {
    startRoutine := container[0];
    arg := container[1];
    registry.SetTidToThread(self, pid);
    container[2] := 0;
  }
}
