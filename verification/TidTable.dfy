/** The table from thread handles to kernel thread ids. */
module TidTable {

  type Thread = nat
  type Tid = int

  datatype Slot = Slot(tid: Tid, t: Thread)

  const SLOTS: nat := 512
  const EMPTY: Slot := Slot(0, 0)

  type Table = seq<Slot>

  // ---- What the three operations do ------------------------------------------------------

  /** Every empty slot is filled: the loop does not stop at the first. */
  function Filled(table: Table, t: Thread, tid: Tid): Table {
    seq(|table|, i requires 0 <= i < |table| => if table[i] == EMPTY then Slot(tid, t) else table[i])
  }

  function Removed(table: Table, t: Thread): Table {
    seq(|table|, i requires 0 <= i < |table| => if table[i].t == t then EMPTY else table[i])
  }

  /** The tid in the first slot of the thread, or 0. */
  function Lookup(table: Table, t: Thread): Tid {
    if table == [] then 0 else if table[0].t == t then table[0].tid else Lookup(table[1..], t)
  }

  class Registry {
    var threadToTid: array<Slot>

    ghost predicate Valid()
      reads this
    {
      threadToTid.Length == SLOTS
    }

    constructor ()
      ensures Valid() && fresh(threadToTid)
      ensures threadToTid[..] == seq(SLOTS, i => EMPTY)
    {
      threadToTid := new Slot[SLOTS](i => EMPTY);
    }

    method SetTidToThread(t: Thread, tid: Tid)
      requires Valid()
      modifies threadToTid
      ensures threadToTid[..] == Filled(old(threadToTid[..]), t, tid)
    {
      ghost var was := threadToTid[..];
      var i := 0;
      while i < SLOTS
        invariant 0 <= i <= SLOTS
        invariant threadToTid[..i] == Filled(was, t, tid)[..i]
        invariant threadToTid[i..] == was[i..]
      {
        assert threadToTid[i] == threadToTid[i..][0] == was[i..][0];
        if threadToTid[i].tid == 0 && threadToTid[i].t == 0 {
          threadToTid[i] := Slot(tid, t);
        }
        i := i + 1;
        assert was[i..] == was[i - 1..][1..];
        assert threadToTid[i..] == threadToTid[i - 1..][1..];
      }
    }

    method GetTidFromThread(t: Thread) returns (tid: Tid)
      requires Valid()
      ensures tid == Lookup(threadToTid[..], t)
    {
      tid := 0;
      var i := 0;
      while i < SLOTS
        invariant 0 <= i <= SLOTS && tid == 0
        invariant Lookup(threadToTid[..], t) == Lookup(threadToTid[i..], t)
      {
        assert threadToTid[i..][0] == threadToTid[i] && threadToTid[i..][1..] == threadToTid[i + 1..];
        if threadToTid[i].t == t {
          tid := threadToTid[i].tid;
          break;
        }
        i := i + 1;
      }
      assert threadToTid[SLOTS..] == [];
    }

    method RemTid(t: Thread)
      requires Valid()
      modifies threadToTid
      ensures threadToTid[..] == Removed(old(threadToTid[..]), t)
    {
      ghost var was := threadToTid[..];
      var i := 0;
      while i < SLOTS
        invariant 0 <= i <= SLOTS
        invariant threadToTid[..i] == Removed(was, t)[..i]
        invariant threadToTid[i..] == was[i..]
      {
        assert threadToTid[i] == threadToTid[i..][0] == was[i..][0];
        if threadToTid[i].t == t {
          threadToTid[i] := EMPTY;
        }
        i := i + 1;
        assert was[i..] == was[i - 1..][1..];
        assert threadToTid[i..] == threadToTid[i - 1..][1..];
      }
    }
  }

  // ---- What a run of them leaves ---------------------------------------------------------

  datatype Op = Set(t: Thread, tid: Tid) | Rem(t: Thread)

  function Step(table: Table, op: Op): Table {
    match op
    case Set(t, tid) => Filled(table, t, tid)
    case Rem(t) => Removed(table, t)
  }

  function Run(table: Table, ops: seq<Op>): Table
    decreases |ops|
  {
    if ops == [] then table else Run(Step(table, ops[0]), ops[1..])
  }

  /** A table of one size with the same entry throughout. */
  function Uniform(e: Slot): Table {
    seq(SLOTS, i => e)
  }

  /** The whole table as one register: a registration is taken only when the register is empty. */
  function Register(e: Slot, op: Op): Slot {
    match op
    case Set(t, tid) => if e == EMPTY then Slot(tid, t) else e
    case Rem(t) => if e.t == t then EMPTY else e
  }

  function RunRegister(e: Slot, ops: seq<Op>): Slot
    decreases |ops|
  {
    if ops == [] then e else RunRegister(Register(e, ops[0]), ops[1..])
  }

  lemma StepIsRegister(e: Slot, op: Op)
    ensures Step(Uniform(e), op) == Uniform(Register(e, op))
  {
  }

  /** For all its 512 slots the table never holds more than one thread. */
  lemma {:induction false} TableIsOneRegister(e: Slot, ops: seq<Op>)
    ensures Run(Uniform(e), ops) == Uniform(RunRegister(e, ops))
    decreases |ops|
  {
    if ops != [] {
      StepIsRegister(e, ops[0]);
      TableIsOneRegister(Register(e, ops[0]), ops[1..]);
    }
  }

  lemma {:induction false} LookupUniform(e: Slot, t: Thread)
    ensures Lookup(Uniform(e), t) == if e.t == t then e.tid else 0
  {
    assert Uniform(e)[0] == e;
    if e.t != t {
      LookupMisses(Uniform(e), t);
    }
  }

  lemma {:induction false} LookupMisses(table: Table, t: Thread)
    requires forall i | 0 <= i < |table| :: table[i].t != t
    ensures Lookup(table, t) == 0
  {
    if table != [] {
      LookupMisses(table[1..], t);
    }
  }

  /** The threads registered and not yet removed, with the tid each of them gave. */
  function Live(live: map<Thread, Tid>, ops: seq<Op>): map<Thread, Tid>
    decreases |ops|
  {
    if ops == [] then live
    else match ops[0]
      case Set(t, tid) => Live(live[t := tid], ops[1..])
      case Rem(t) => Live(live - {t}, ops[1..])
  }

  /** Threads register once while they live, with handles and tids that are not 0. */
  ghost predicate Permitted(live: map<Thread, Tid>, ops: seq<Op>)
    decreases |ops|
  {
    ops == [] ||
    match ops[0]
    case Set(t, tid) => t != 0 && tid != 0 && t !in live && Permitted(live[t := tid], ops[1..])
    case Rem(t) => t in live && Permitted(live - {t}, ops[1..])
  }

  ghost predicate Honest(e: Slot, live: map<Thread, Tid>) {
    && (forall t | t in live :: t != 0 && live[t] != 0)
    && (e == EMPTY || (e.t in live && live[e.t] == e.tid))
  }

  lemma {:induction false} RegisterIsHonest(e: Slot, live: map<Thread, Tid>, ops: seq<Op>)
    requires Honest(e, live) && Permitted(live, ops)
    ensures Honest(RunRegister(e, ops), Live(live, ops))
    decreases |ops|
  {
    if ops != [] {
      var next := match ops[0] case Set(t, tid) => live[t := tid] case Rem(t) => live - {t};
      RegisterIsHonest(Register(e, ops[0]), next, ops[1..]);
    }
  }

  /** A lookup returns 0 or the very tid the living thread registered. */
  lemma LookupIsSound(ops: seq<Op>, t: Thread)
    requires Permitted(map[], ops)
    ensures var tid := Lookup(Run(Uniform(EMPTY), ops), t);
            tid != 0 ==> t in Live(map[], ops) && Live(map[], ops)[t] == tid
  {
    TableIsOneRegister(EMPTY, ops);
    RegisterIsHonest(EMPTY, map[], ops);
    LookupUniform(RunRegister(EMPTY, ops), t);
  }

  /** A new thread can be looked up exactly when it registered into an empty table. */
  lemma RegistrationTakesIff(ops: seq<Op>, t: Thread, tid: Tid)
    requires Permitted(map[], ops) && t != 0 && tid != 0 && t !in Live(map[], ops)
    ensures var table := Run(Uniform(EMPTY), ops);
            Lookup(Filled(table, t, tid), t) == tid <==> table == Uniform(EMPTY)
  {
    TableIsOneRegister(EMPTY, ops);
    RegisterIsHonest(EMPTY, map[], ops);
    var e := RunRegister(EMPTY, ops);
    StepIsRegister(e, Set(t, tid));
    LookupUniform(Register(e, Set(t, tid)), t);
  }

  /** The second of two live threads is not found. */
  lemma SecondThreadIsLost()
    ensures var ops := [Set(1, 101), Set(2, 102)];
            && Permitted(map[], ops) && Live(map[], ops) == map[1 := 101, 2 := 102]
            && Lookup(Run(Uniform(EMPTY), ops), 2) == 0
  {
    var ops := [Set(1, 101), Set(2, 102)];
    assert ops[1..] == [Set(2, 102)] && ops[1..][1..] == [];
    assert map[][1 := 101][2 := 102] == map[1 := 101, 2 := 102];
    assert Permitted(map[1 := 101], ops[1..]);
    TableIsOneRegister(EMPTY, ops);
    LookupUniform(RunRegister(EMPTY, ops), 2);
  }
}
