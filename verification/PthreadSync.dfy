/** Android mutex and condition words lazily bound to real objects, and why a program cannot tell. */
module PthreadSync {
  import opened Lists

  type Addr = nat
  type Ptr = nat
  type Tid = nat

  // ---- The real objects ------------------------------------------------------------------

  datatype Kind = Normal | Recursive | Errorcheck

  datatype Mutex = Mutex(kind: Kind, owner: Option<Tid>, depth: nat)

  /** The threads asleep on a condition, oldest first. */
  datatype Cond = Cond(waiters: seq<Tid>)

  /** What a call does: return a value, sleep, return a variable that was never set, or hand glibc a
      static value for a pointer. */
  datatype Result = Returns(value: int) | Blocks | Garbage | Faults

  const EPERM: int := 1
  const EINVAL: int := 22
  const EDEADLK: int := 35

  function LockReal(m: Mutex, t: Tid): (Mutex, Result) {
    if m.owner == None then (m.(owner := Some(t), depth := 1), Returns(0))
    else if m.owner != Some(t) then (m, Blocks)
    else match m.kind
      case Normal => (m, Blocks)
      case Recursive => (m.(depth := m.depth + 1), Returns(0))
      case Errorcheck => (m, Returns(EDEADLK))
  }

  function UnlockReal(m: Mutex, t: Tid): (Mutex, Result) {
    if m.kind != Normal && m.owner != Some(t) then (m, Returns(EPERM))
    else if m.depth > 1 then (m.(depth := m.depth - 1), Returns(0))
    else (m.(owner := None, depth := 0), Returns(0))
  }

  /** A wait gives the mutex back and sleeps, unless the mutex refuses. */
  function WaitReal(c: Cond, m: Mutex, t: Tid): (Cond, Mutex, Result) {
    var (v, r) := UnlockReal(m, t);
    if r == Returns(0) then (Cond(c.waiters + [t]), v, Blocks) else (c, m, r)
  }

  /** One waiter goes, the `k`-th if there is one. */
  function SignalReal(c: Cond, k: nat): Cond {
    if k < |c.waiters| then Cond(RemoveAt(c.waiters, k)) else c
  }

  // ---- Words and heap --------------------------------------------------------------------

  const TOP: nat := 0xFFFF

  /** Android words, and the real objects that have been allocated for them. */
  datatype Table<T> = Table(word: map<Addr, nat>, heap: map<Ptr, T>)

  /** The object a word stands for: one of its own behind a pointer, else a new one of the kind
      the static initializer asks for. */
  function Object<T>(tb: Table<T>, init: nat -> T, a: Addr): T {
    if a in tb.word && tb.word[a] in tb.heap && tb.word[a] > TOP then tb.heap[tb.word[a]]
    else init(if a in tb.word then tb.word[a] else 0)
  }

  /** What all the words stand for. */
  function Objects<T>(tb: Table<T>, init: nat -> T): (r: map<Addr, T>)
    ensures r.Keys == tb.word.Keys && forall a | a in tb.word :: r[a] == Object(tb, init, a)
  {
    map a | a in tb.word :: Object(tb, init, a)
  }

  /** The lazy binding at the head of every use; `p` is what malloc returns if it is called. */
  function Bind<T>(tb: Table<T>, init: nat -> T, a: Addr, p: Ptr): Table<T>
    requires a in tb.word
  {
    if tb.word[a] <= TOP then
      Table(tb.word[a := p], tb.heap[p := init(tb.word[a])])
    else tb
  }

  function Put<T>(tb: Table<T>, a: Addr, v: T): Table<T>
    requires a in tb.word
  {
    tb.(heap := tb.heap[tb.word[a] := v])
  }

  ghost predicate Sound<T>(tb: Table<T>) {
    && (forall a | a in tb.word :: tb.word[a] > TOP ==> tb.word[a] in tb.heap)
    && (forall a, b | a in tb.word && b in tb.word ::
          tb.word[a] == tb.word[b] && tb.word[a] > TOP ==> a == b)
  }

  /** malloc's contract: a block above the static values that is not in use. */
  ghost predicate Fresh<T>(tb: Table<T>, p: Ptr) {
    TOP < p && p !in tb.heap
  }

  lemma SameObjects<T>(tb: Table<T>, u: Table<T>, init: nat -> T)
    requires u.word.Keys == tb.word.Keys
    requires forall b | b in tb.word :: Object(u, init, b) == Object(tb, init, b)
    ensures Objects(u, init) == Objects(tb, init)
  {
    hide Object;
  }

  lemma BindSound<T>(tb: Table<T>, init: nat -> T, a: Addr, p: Ptr)
    requires Sound(tb) && a in tb.word && Fresh(tb, p)
    ensures var u := Bind(tb, init, a, p);
            && Sound(u) && u.word.Keys == tb.word.Keys && u.word[a] > TOP && u.word[a] in u.heap
            && u.heap.Keys <= tb.heap.Keys + {p}
  {
  }

  lemma BindObject<T>(tb: Table<T>, init: nat -> T, a: Addr, p: Ptr, b: Addr)
    requires Sound(tb) && a in tb.word && Fresh(tb, p) && b in tb.word
    ensures Object(Bind(tb, init, a, p), init, b) == Object(tb, init, b)
  {
  }

  lemma BindKeeps<T>(tb: Table<T>, init: nat -> T, a: Addr, p: Ptr)
    requires Sound(tb) && a in tb.word && Fresh(tb, p)
    ensures var u := Bind(tb, init, a, p);
            && Sound(u) && u.word.Keys == tb.word.Keys && u.word[a] > TOP && u.word[a] in u.heap
            && u.heap.Keys <= tb.heap.Keys + {p}
    ensures Objects(Bind(tb, init, a, p), init) == Objects(tb, init)
  {
    hide Sound, Object, Objects, Bind, Fresh;
    BindSound(tb, init, a, p);
    forall b | b in tb.word
      ensures Object(Bind(tb, init, a, p), init, b) == Object(tb, init, b)
    {
      BindObject(tb, init, a, p, b);
    }
    SameObjects(tb, Bind(tb, init, a, p), init);
  }

  lemma OneObjectChanges<T>(tb: Table<T>, u: Table<T>, init: nat -> T, a: Addr, v: T)
    requires a in tb.word && u.word.Keys == tb.word.Keys
    requires forall b | b in tb.word :: Object(u, init, b) == if b == a then v else Object(tb, init, b)
    ensures Objects(u, init) == Objects(tb, init)[a := v]
  {
    hide Object;
  }

  lemma PutChangesOne<T>(tb: Table<T>, init: nat -> T, a: Addr, v: T)
    requires Sound(tb) && a in tb.word && tb.word[a] > TOP
    ensures var u := Put(tb, a, v); Sound(u) && u.word == tb.word && u.heap.Keys == tb.heap.Keys
    ensures Objects(Put(tb, a, v), init) == Objects(tb, init)[a := v]
  {
    OneObjectChanges(tb, Put(tb, a, v), init, a, v);
    hide Object, Objects;
  }

  /** Init: a word is pointed at a new object whatever it held before. */
  function Rebind<T>(tb: Table<T>, a: Addr, p: Ptr, v: T): Table<T> {
    Table(tb.word[a := p], tb.heap[p := v])
  }

  lemma RebindSound<T>(tb: Table<T>, a: Addr, p: Ptr, v: T)
    requires Sound(tb) && a in tb.word && Fresh(tb, p)
    ensures var u := Rebind(tb, a, p, v);
            Sound(u) && u.word.Keys == tb.word.Keys && u.heap.Keys == tb.heap.Keys + {p}
  {
  }

  lemma RebindObject<T>(tb: Table<T>, init: nat -> T, a: Addr, p: Ptr, v: T, b: Addr)
    requires Sound(tb) && a in tb.word && Fresh(tb, p) && b in tb.word
    ensures Object(Rebind(tb, a, p, v), init, b) == if b == a then v else Object(tb, init, b)
  {
  }

  lemma RebindChangesOne<T>(tb: Table<T>, init: nat -> T, a: Addr, p: Ptr, v: T)
    requires Sound(tb) && a in tb.word && Fresh(tb, p)
    ensures var u := Rebind(tb, a, p, v);
            Sound(u) && u.word.Keys == tb.word.Keys && u.heap.Keys == tb.heap.Keys + {p}
    ensures Objects(Rebind(tb, a, p, v), init) == Objects(tb, init)[a := v]
  {
    hide Sound, Object, Objects, Rebind, Fresh;
    RebindSound(tb, a, p, v);
    forall b | b in tb.word
      ensures Object(Rebind(tb, a, p, v), init, b) == if b == a then v else Object(tb, init, b)
    {
      RebindObject(tb, init, a, p, v, b);
    }
    OneObjectChanges(tb, Rebind(tb, a, p, v), init, a, v);
  }

  lemma UnboundObject<T>(tb: Table<T>, init: nat -> T, a: Addr)
    requires a in tb.word && tb.word[a] <= TOP
    ensures Object(tb, init, a) == init(tb.word[a])
  {
  }

  /** Destroy: the word goes back to the static value 0. */
  function Forget<T>(tb: Table<T>, a: Addr): Table<T> {
    tb.(word := tb.word[a := 0])
  }

  lemma ForgetObject<T>(tb: Table<T>, init: nat -> T, a: Addr, b: Addr)
    requires a in tb.word && b in tb.word
    ensures Object(Forget(tb, a), init, b) == if b == a then init(0) else Object(tb, init, b)
  {
  }

  lemma ForgetSound<T>(tb: Table<T>, a: Addr)
    requires Sound(tb) && a in tb.word
    ensures Sound(Forget(tb, a)) && Forget(tb, a).word.Keys == tb.word.Keys
  {
  }

  lemma ForgetChangesOne<T>(tb: Table<T>, init: nat -> T, a: Addr)
    requires Sound(tb) && a in tb.word
    ensures var u := Forget(tb, a);
            Sound(u) && u.heap == tb.heap && Objects(u, init) == Objects(tb, init)[a := init(0)]
  {
    hide Sound, Object, Objects;
    ForgetSound(tb, a);
    forall b | b in tb.word
      ensures Object(Forget(tb, a), init, b) == if b == a then init(0) else Object(tb, init, b)
    {
      ForgetObject(tb, init, a, b);
    }
    OneObjectChanges(tb, Forget(tb, a), init, a, init(0));
  }

  // ---- The emulation and the direct program ----------------------------------------------

  /** hybris_set_mutex_attr on a static value: the recursive bit wins over the errorcheck bit. */
  function KindOf(value: nat): Kind {
    if value / 0x4000 % 2 == 1 then Recursive
    else if value / 0x8000 % 2 == 1 then Errorcheck
    else Normal
  }

  function NewMutex(value: nat): Mutex {
    Mutex(KindOf(value), None, 0)
  }

  function NewCond(value: nat): Cond {
    Cond([])
  }

  /** A thread inside pthread_cond_wait: the mutex it named, and the object glibc was given. */
  datatype Sleeper = Sleeper(mutex: Addr, obj: Ptr)

  /** The library: Android words in front of glibc objects. */
  datatype State = State(mutexes: Table<Mutex>, conds: Table<Cond>, asleep: map<Tid, Sleeper>)

  /** The program it imitates: every Android object is a real one. */
  datatype Direct = Direct(mutexes: map<Addr, Mutex>, conds: map<Addr, Cond>, asleep: map<Tid, Addr>)

  datatype Op =
    | MutexInit(m: Addr, kind: Kind, pm: Ptr)
    | Lock(m: Addr, t: Tid, pm: Ptr)
    | Unlock(m: Addr, t: Tid)
    | CondInit(c: Addr, pc: Ptr)
    | CondDestroy(c: Addr)
    | Wait(c: Addr, m: Addr, t: Tid, pc: Ptr, pm: Ptr)
    | Signal(c: Addr, k: nat, pc: Ptr)
    | Broadcast(c: Addr, pc: Ptr)
    | Resume(t: Tid)  // the end of a wait: the thread has been woken and takes its mutex again

  /** Every sleeper's object is still the one its word points at. */
  ghost predicate Anchored(word: map<Addr, nat>, asleep: map<Tid, Sleeper>) {
    forall t | t in asleep ::
      asleep[t].mutex in word && word[asleep[t].mutex] == asleep[t].obj && asleep[t].obj > TOP
  }

  ghost predicate Invariant(s: State) {
    && Sound(s.mutexes) && Sound(s.conds)
    && s.mutexes.heap.Keys !! s.conds.heap.Keys
    && Anchored(s.mutexes.word, s.asleep)
  }

  function MutexAt(s: State, a: Addr): Mutex {
    Object(s.mutexes, NewMutex, a)
  }

  function CondAt(s: State, a: Addr): Cond {
    Object(s.conds, NewCond, a)
  }

  /** malloc's contract for both heaps at once. */
  ghost predicate Unused(s: State, p: Ptr) {
    Fresh(s.mutexes, p) && Fresh(s.conds, p)
  }

  /** The objects a call names exist. */
  predicate Named(s: State, op: Op) {
    && (op.MutexInit? || op.Lock? || op.Unlock? || op.Wait? ==> op.m in s.mutexes.word)
    && (op.CondInit? || op.CondDestroy? || op.Wait? || op.Signal? || op.Broadcast? ==> op.c in s.conds.word)
    && (op.Resume? ==> op.t in s.asleep && s.asleep[op.t].obj in s.mutexes.heap)
  }

  predicate Sleepless(s: State, m: Addr) {
    forall t | t in s.asleep :: s.asleep[t].mutex != m
  }

  /** What malloc and the callers owe: new blocks, and no init of a mutex that a sleeping thread will
      take again. A thread wakes when no condition has it as a waiter any more. */
  ghost predicate Permitted(s: State, op: Op) {
    && Named(s, op)
    && (op.MutexInit? || op.Lock? || op.Wait? ==> Unused(s, op.pm))
    && (op.CondInit? || op.Wait? || op.Signal? || op.Broadcast? ==> Unused(s, op.pc))
    && (op.Wait? ==> op.pc != op.pm)
    && (op.MutexInit? ==> Sleepless(s, op.m))
    && (op.Resume? ==> forall c | c in s.conds.word :: op.t !in CondAt(s, c).waiters)
  }

  function BindMutex(s: State, a: Addr, p: Ptr): State
    requires a in s.mutexes.word
  {
    s.(mutexes := Bind(s.mutexes, NewMutex, a, p))
  }

  function BindCond(s: State, a: Addr, p: Ptr): State
    requires a in s.conds.word
  {
    s.(conds := Bind(s.conds, NewCond, a, p))
  }

  function PutMutex(s: State, a: Addr, v: Mutex): State
    requires a in s.mutexes.word
  {
    s.(mutexes := Put(s.mutexes, a, v))
  }

  function PutCond(s: State, a: Addr, v: Cond): State
    requires a in s.conds.word
  {
    s.(conds := Put(s.conds, a, v))
  }

  function FallAsleep(s: State, t: Tid, m: Addr): State
    requires m in s.mutexes.word
  {
    s.(asleep := s.asleep[t := Sleeper(m, s.mutexes.word[m])])
  }

  function Step(s: State, op: Op): (State, Result)
    requires Named(s, op)
  {
    match op
    case MutexInit(m, kind, pm) =>
      (s.(mutexes := Rebind(s.mutexes, m, pm, Mutex(kind, None, 0))), Returns(0))
    case Lock(m, t, pm) =>
      var u := BindMutex(s, m, pm);
      var (v, r) := LockReal(MutexAt(u, m), t);
      (PutMutex(u, m, v), r)
    case Unlock(m, t) =>
      if s.mutexes.word[m] <= TOP then (s, Faults)
      else
        var (v, r) := UnlockReal(MutexAt(s, m), t);
        (PutMutex(s, m, v), r)
    case CondInit(c, pc) => (s.(conds := Rebind(s.conds, c, pc, Cond([]))), Returns(0))
    case CondDestroy(c) =>
      if s.conds.word[c] == 0 then (s, Returns(EINVAL))
      else if s.conds.word[c] <= TOP then (s, Faults)
      else (s.(conds := Forget(s.conds, c)), Garbage)
    case Wait(c, m, t, pc, pm) =>
      var u := BindMutex(BindCond(s, c, pc), m, pm);
      var (w, v, r) := WaitReal(CondAt(u, c), MutexAt(u, m), t);
      var x := PutMutex(PutCond(u, c, w), m, v);
      (if r == Blocks then FallAsleep(x, t, m) else x, r)
    case Signal(c, k, pc) =>
      var u := BindCond(s, c, pc);
      (PutCond(u, c, SignalReal(CondAt(u, c), k)), Returns(0))
    case Broadcast(c, pc) =>
      var u := BindCond(s, c, pc);
      (PutCond(u, c, Cond([])), Returns(0))
    case Resume(t) =>
      var obj := s.asleep[t].obj;
      var (v, r) := LockReal(s.mutexes.heap[obj], t);
      var u := s.(mutexes := s.mutexes.(heap := s.mutexes.heap[obj := v]));
      (if r == Blocks then u else u.(asleep := s.asleep - {t}), r)
  }

  predicate Known(d: Direct, op: Op) {
    && (op.MutexInit? || op.Lock? || op.Unlock? || op.Wait? ==> op.m in d.mutexes)
    && (op.CondInit? || op.CondDestroy? || op.Wait? || op.Signal? || op.Broadcast? ==> op.c in d.conds)
    && (op.Resume? ==> op.t in d.asleep && d.asleep[op.t] in d.mutexes)
  }

  function DirectStep(d: Direct, op: Op): (Direct, Result)
    requires Known(d, op)
  {
    match op
    case MutexInit(m, kind, _) => (d.(mutexes := d.mutexes[m := Mutex(kind, None, 0)]), Returns(0))
    case Lock(m, t, _) =>
      var (v, r) := LockReal(d.mutexes[m], t);
      (d.(mutexes := d.mutexes[m := v]), r)
    case Unlock(m, t) =>
      var (v, r) := UnlockReal(d.mutexes[m], t);
      (d.(mutexes := d.mutexes[m := v]), r)
    case CondInit(c, _) => (d.(conds := d.conds[c := Cond([])]), Returns(0))
    case CondDestroy(c) => (d.(conds := d.conds[c := Cond([])]), Returns(0))
    case Wait(c, m, t, _, _) =>
      var (w, v, r) := WaitReal(d.conds[c], d.mutexes[m], t);
      (Direct(d.mutexes[m := v], d.conds[c := w], if r == Blocks then d.asleep[t := m] else d.asleep), r)
    case Signal(c, k, _) => (d.(conds := d.conds[c := SignalReal(d.conds[c], k)]), Returns(0))
    case Broadcast(c, _) => (d.(conds := d.conds[c := Cond([])]), Returns(0))
    case Resume(t) =>
      var m := d.asleep[t];
      var (v, r) := LockReal(d.mutexes[m], t);
      (d.(mutexes := d.mutexes[m := v], asleep := if r == Blocks then d.asleep else d.asleep - {t}), r)
  }

  function MutexesOf(asleep: map<Tid, Sleeper>): map<Tid, Addr> {
    map t | t in asleep :: asleep[t].mutex
  }

  /** The real object every Android object stands for. */
  function Meaning(s: State): Direct {
    Direct(Objects(s.mutexes, NewMutex), Objects(s.conds, NewCond), MutexesOf(s.asleep))
  }

  // ---- Refinement ------------------------------------------------------------------------

  lemma BindAnchors(tb: Table<Mutex>, a: Addr, p: Ptr, asleep: map<Tid, Sleeper>)
    requires Anchored(tb.word, asleep) && a in tb.word
    ensures Anchored(Bind(tb, NewMutex, a, p).word, asleep)
  {
  }

  lemma RebindAnchorsIff(tb: Table<Mutex>, a: Addr, p: Ptr, v: Mutex, asleep: map<Tid, Sleeper>)
    requires Sound(tb) && Anchored(tb.word, asleep) && a in tb.word && Fresh(tb, p)
    ensures Anchored(Rebind(tb, a, p, v).word, asleep) <==> forall t | t in asleep :: asleep[t].mutex != a
  {
    forall t | t in asleep && asleep[t].mutex == a ensures !Anchored(tb.word[a := p], asleep) {
      assert asleep[t].obj in tb.heap;
    }
  }

  lemma BindMutexKeeps(s: State, a: Addr, p: Ptr)
    requires Invariant(s) && a in s.mutexes.word && Unused(s, p)
    ensures var u := BindMutex(s, a, p);
            && Invariant(u) && Meaning(u) == Meaning(s) && u.conds == s.conds && u.asleep == s.asleep
            && u.mutexes.word.Keys == s.mutexes.word.Keys && u.mutexes.word[a] > TOP
            && (forall q | Unused(s, q) && q != p :: Unused(u, q))
  {
    BindAnchors(s.mutexes, a, p, s.asleep);
    BindKeeps(s.mutexes, NewMutex, a, p);
    hide Sound, Objects, Bind, Anchored, MutexesOf;
  }

  lemma BindCondKeeps(s: State, a: Addr, p: Ptr)
    requires Invariant(s) && a in s.conds.word && Unused(s, p)
    ensures var u := BindCond(s, a, p);
            && Invariant(u) && Meaning(u) == Meaning(s) && u.mutexes == s.mutexes && u.asleep == s.asleep
            && u.conds.word.Keys == s.conds.word.Keys && u.conds.word[a] > TOP
            && (forall q | Unused(s, q) && q != p :: Unused(u, q))
  {
    hide Sound, Objects, Bind, Anchored, MutexesOf;
    BindKeeps(s.conds, NewCond, a, p);
  }

  lemma PutMutexMeans(s: State, a: Addr, v: Mutex)
    requires Invariant(s) && a in s.mutexes.word && s.mutexes.word[a] > TOP
    ensures var u := PutMutex(s, a, v);
            && Invariant(u) && u.conds == s.conds && u.mutexes.word == s.mutexes.word && u.asleep == s.asleep
            && Meaning(u) == Meaning(s).(mutexes := Meaning(s).mutexes[a := v])
  {
    hide Sound, Objects, Put, Anchored, MutexesOf;
    PutChangesOne(s.mutexes, NewMutex, a, v);
  }

  lemma PutCondMeans(s: State, a: Addr, v: Cond)
    requires Invariant(s) && a in s.conds.word && s.conds.word[a] > TOP
    ensures var u := PutCond(s, a, v);
            && Invariant(u) && u.mutexes == s.mutexes && u.conds.word == s.conds.word && u.asleep == s.asleep
            && Meaning(u) == Meaning(s).(conds := Meaning(s).conds[a := v])
  {
    hide Sound, Objects, Put, Anchored, MutexesOf;
    PutChangesOne(s.conds, NewCond, a, v);
  }

  /** A call that returns what the real one returns: any but a destroy, whose return value is never
      set, and an unlock of a word that has not been bound. */
  predicate Answers(s: State, op: Op)
    requires Named(s, op)
  {
    !op.CondDestroy? && (op.Unlock? ==> s.mutexes.word[op.m] > TOP)
  }

  /** One call on Android words is the same call on the objects they stand for. */
  ghost predicate Simulates(s: State, op: Op)
    requires Named(s, op)
  {
    && Known(Meaning(s), op)
    && var (t, r) := Step(s, op);
       var (d, q) := DirectStep(Meaning(s), op);
       Invariant(t) && Meaning(t) == d && (r == q <==> Answers(s, op))
  }

  lemma LockSimulates(s: State, op: Op)
    requires Invariant(s) && Permitted(s, op) && op.Lock?
    ensures Simulates(s, op)
  {
    hide Invariant, Object, Objects, LockReal;
    BindMutexKeeps(s, op.m, op.pm);
    var u := BindMutex(s, op.m, op.pm);
    assert MutexAt(u, op.m) == Meaning(u).mutexes[op.m];
    PutMutexMeans(u, op.m, LockReal(MutexAt(u, op.m), op.t).0);
  }

  lemma BoundUnlockSimulates(s: State, op: Op)
    requires Invariant(s) && Permitted(s, op) && op.Unlock? && s.mutexes.word[op.m] > TOP
    ensures Simulates(s, op)
  {
    hide Invariant, Object, Objects, UnlockReal;
    assert MutexAt(s, op.m) == Meaning(s).mutexes[op.m];
    PutMutexMeans(s, op.m, UnlockReal(MutexAt(s, op.m), op.t).0);
  }

  /** The object an unbound word stands for is nobody's, and an unlock leaves it so. */
  lemma UnboundUnlockSimulates(s: State, op: Op)
    requires Invariant(s) && Permitted(s, op) && op.Unlock? && s.mutexes.word[op.m] <= TOP
    ensures Simulates(s, op)
  {
    hide Invariant, Object, Objects;
    UnboundObject(s.mutexes, NewMutex, op.m);
    var was := Meaning(s).mutexes;
    assert was[op.m] == NewMutex(s.mutexes.word[op.m]);
    assert was[op.m := UnlockReal(was[op.m], op.t).0] == was;
  }

  lemma UnlockSimulates(s: State, op: Op)
    requires Invariant(s) && Permitted(s, op) && op.Unlock?
    ensures Simulates(s, op)
  {
    hide Invariant, Simulates;
    if s.mutexes.word[op.m] > TOP { BoundUnlockSimulates(s, op); } else { UnboundUnlockSimulates(s, op); }
  }

  lemma OneMoreSleeper(word: map<Addr, nat>, asleep: map<Tid, Sleeper>, t: Tid, m: Addr)
    requires Anchored(word, asleep) && m in word && word[m] > TOP
    ensures var a := asleep[t := Sleeper(m, word[m])];
            Anchored(word, a) && MutexesOf(a) == MutexesOf(asleep)[t := m]
  {
  }

  lemma FallAsleepMeans(s: State, t: Tid, m: Addr)
    requires Invariant(s) && m in s.mutexes.word && s.mutexes.word[m] > TOP
    ensures Invariant(FallAsleep(s, t, m))
    ensures Meaning(FallAsleep(s, t, m)) == Meaning(s).(asleep := Meaning(s).asleep[t := m])
  {
    hide Sound, Objects, Anchored, MutexesOf;
    OneMoreSleeper(s.mutexes.word, s.asleep, t, m);
  }

  lemma WakeUpMeans(s: State, t: Tid)
    requires Invariant(s)
    ensures var u := s.(asleep := s.asleep - {t});
            Invariant(u) && Meaning(u) == Meaning(s).(asleep := Meaning(s).asleep - {t})
  {
    hide Sound, Objects;
  }

  /** The object glibc kept for the sleeper is still the one its mutex stands for. */
  lemma SleepersObject(s: State, t: Tid)
    requires Invariant(s) && t in s.asleep
    ensures var (m, obj) := (s.asleep[t].mutex, s.asleep[t].obj);
            && m in s.mutexes.word && s.mutexes.word[m] == obj && obj > TOP
            && obj in s.mutexes.heap && s.mutexes.heap[obj] == MutexAt(s, m) == Meaning(s).mutexes[m]
  {
  }

  lemma ResumeSimulates(s: State, op: Op)
    requires Invariant(s) && Permitted(s, op) && op.Resume?
    ensures Simulates(s, op)
  {
    hide Invariant, Object, Objects, LockReal, Unused;
    SleepersObject(s, op.t);
    var m := s.asleep[op.t].mutex;
    var v := LockReal(MutexAt(s, m), op.t).0;
    PutMutexMeans(s, m, v);
    WakeUpMeans(PutMutex(s, m, v), op.t);
  }

  lemma WaitSimulates(s: State, op: Op)
    requires Invariant(s) && Permitted(s, op) && op.Wait?
    ensures Simulates(s, op)
  {
    hide Invariant, Object, Objects, WaitReal, Unused;
    BindCondKeeps(s, op.c, op.pc);
    var u := BindCond(s, op.c, op.pc);
    BindMutexKeeps(u, op.m, op.pm);
    var v := BindMutex(u, op.m, op.pm);
    assert MutexAt(v, op.m) == Meaning(v).mutexes[op.m] && CondAt(v, op.c) == Meaning(v).conds[op.c];
    var x := WaitReal(CondAt(v, op.c), MutexAt(v, op.m), op.t);
    PutCondMeans(v, op.c, x.0);
    var w := PutCond(v, op.c, x.0);
    PutMutexMeans(w, op.m, x.1);
    FallAsleepMeans(PutMutex(w, op.m, x.1), op.t, op.m);
  }

  lemma WakeSimulates(s: State, op: Op)
    requires Invariant(s) && Permitted(s, op) && (op.Signal? || op.Broadcast?)
    ensures Simulates(s, op)
  {
    hide Invariant, Object, Objects, SignalReal;
    BindCondKeeps(s, op.c, op.pc);
    var u := BindCond(s, op.c, op.pc);
    assert CondAt(u, op.c) == Meaning(u).conds[op.c];
    PutCondMeans(u, op.c, if op.Signal? then SignalReal(CondAt(u, op.c), op.k) else Cond([]));
  }

  lemma MutexInitSimulates(s: State, op: Op)
    requires Invariant(s) && Permitted(s, op) && op.MutexInit?
    ensures Simulates(s, op)
  {
    hide Sound, Objects, Rebind, Anchored, MutexesOf, CondAt;
    var v := Mutex(op.kind, None, 0);
    RebindAnchorsIff(s.mutexes, op.m, op.pm, v, s.asleep);
    RebindChangesOne(s.mutexes, NewMutex, op.m, op.pm, v);
  }

  lemma CondInitSimulates(s: State, op: Op)
    requires Invariant(s) && Permitted(s, op) && op.CondInit?
    ensures Simulates(s, op)
  {
    hide Sound, Objects, Rebind, Anchored, MutexesOf, CondAt;
    RebindChangesOne(s.conds, NewCond, op.c, op.pc, Cond([]));
  }

  /** The object an unbound word stands for has no waiters already. */
  lemma UnboundDestroySimulates(s: State, op: Op)
    requires Invariant(s) && Permitted(s, op) && op.CondDestroy? && s.conds.word[op.c] <= TOP
    ensures Simulates(s, op)
  {
    hide Invariant, Object, Objects;
    UnboundObject(s.conds, NewCond, op.c);
    var was := Meaning(s).conds;
    assert was[op.c := Cond([])] == was;
  }

  lemma CondDestroySimulates(s: State, op: Op)
    requires Invariant(s) && Permitted(s, op) && op.CondDestroy? && s.conds.word[op.c] > TOP
    ensures Simulates(s, op)
  {
    hide Sound, Objects, Object, Forget, Anchored, MutexesOf;
    ForgetChangesOne(s.conds, NewCond, op.c);
  }

  lemma DestroySimulates(s: State, op: Op)
    requires Invariant(s) && Permitted(s, op) && op.CondDestroy?
    ensures Simulates(s, op)
  {
    hide Invariant, Simulates;
    if s.conds.word[op.c] > TOP { CondDestroySimulates(s, op); } else { UnboundDestroySimulates(s, op); }
  }

  lemma StepSimulates(s: State, op: Op)
    requires Invariant(s) && Permitted(s, op)
    ensures Simulates(s, op)
  {
    hide *;
    if op.Lock? { LockSimulates(s, op); }
    else if op.Unlock? { UnlockSimulates(s, op); }
    else if op.Resume? { ResumeSimulates(s, op); }
    else if op.Wait? { WaitSimulates(s, op); }
    else if op.Signal? || op.Broadcast? { WakeSimulates(s, op); }
    else if op.MutexInit? { MutexInitSimulates(s, op); }
    else if op.CondInit? { CondInitSimulates(s, op); }
    else { DestroySimulates(s, op); }
  }

  lemma StepKeepsInvariant(s: State, op: Op)
    requires Invariant(s) && Permitted(s, op)
    ensures Invariant(Step(s, op).0)
  {
    StepSimulates(s, op);
    hide Invariant, Permitted, Meaning, DirectStep, Step;
  }

  // ---- Whole runs ------------------------------------------------------------------------

  lemma StepKeepsNames(s: State, op: Op)
    requires Named(s, op)
    ensures var t := Step(s, op).0;
            t.mutexes.word.Keys == s.mutexes.word.Keys && t.conds.word.Keys == s.conds.word.Keys
  {
  }

  ghost predicate PermittedRun(s: State, ops: seq<Op>)
    decreases |ops|
  {
    ops == [] || (Permitted(s, ops[0]) && PermittedRun(Step(s, ops[0]).0, ops[1..]))
  }

  function Run(s: State, ops: seq<Op>): (State, seq<Result>)
    requires PermittedRun(s, ops)
    decreases |ops|
  {
    if ops == [] then (s, [])
    else
      var (t, r) := Step(s, ops[0]);
      var (u, rs) := Run(t, ops[1..]);
      (u, [r] + rs)
  }

  ghost predicate KnownRun(d: Direct, ops: seq<Op>)
    decreases |ops|
  {
    ops == [] || (Known(d, ops[0]) && KnownRun(DirectStep(d, ops[0]).0, ops[1..]))
  }

  function RunDirect(d: Direct, ops: seq<Op>): (Direct, seq<Result>)
    requires KnownRun(d, ops)
    decreases |ops|
  {
    if ops == [] then (d, [])
    else
      var (e, r) := DirectStep(d, ops[0]);
      var (f, rs) := RunDirect(e, ops[1..]);
      (f, [r] + rs)
  }

  /** The call gives the word of `m` an object. */
  predicate Binds(op: Op, m: Addr) {
    (op.MutexInit? || op.Lock? || op.Wait?) && op.m == m
  }

  predicate Bound(s: State, m: Addr) {
    m in s.mutexes.word && s.mutexes.word[m] > TOP
  }

  /** The word of `m` has an object when the i-th call is made. */
  predicate BoundBefore(s: State, ops: seq<Op>, i: nat, m: Addr)
    requires i <= |ops|
  {
    Bound(s, m) || exists j :: 0 <= j < i && Binds(ops[j], m)
  }

  lemma StepBinds(s: State, op: Op, m: Addr)
    requires Permitted(s, op)
    ensures Bound(Step(s, op).0, m) <==> Bound(s, m) || Binds(op, m)
  {
    hide Object, LockReal, UnlockReal, WaitReal, SignalReal;
  }

  lemma BoundBeforeSplits(s: State, t: State, ops: seq<Op>, i: nat, m: Addr)
    requires 0 < i <= |ops| && (Bound(t, m) <==> Bound(s, m) || Binds(ops[0], m))
    ensures BoundBefore(t, ops[1..], i - 1, m) <==> BoundBefore(s, ops, i, m)
  {
    hide Bound, Binds;
    assert forall j :: 0 <= j < i - 1 ==> ops[1..][j] == ops[j + 1];
    if j :| 0 < j < i && Binds(ops[j], m) {
      assert Binds(ops[1..][j - 1], m);
    }
  }

  /** Call i of the run returns what the real one returns. */
  predicate AnswersAt(s: State, ops: seq<Op>, i: nat)
    requires i < |ops|
  {
    !ops[i].CondDestroy? && (ops[i].Unlock? ==> BoundBefore(s, ops, i, ops[i].m))
  }

  /** Every run through the library does to the objects what the same calls on real ones do, and a call
      returns the same exactly when it is no destroy and no unlock of a word not bound before. */
  lemma {:induction false} RunSimulates(s: State, ops: seq<Op>)
    requires Invariant(s) && PermittedRun(s, ops)
    ensures KnownRun(Meaning(s), ops)
    ensures var (t, rs) := Run(s, ops);
            var (d, qs) := RunDirect(Meaning(s), ops);
            && Invariant(t) && Meaning(t) == d && |rs| == |qs| == |ops|
            && (forall i | 0 <= i < |ops| :: rs[i] == qs[i] <==> AnswersAt(s, ops, i))
    decreases |ops|
  {
    hide Invariant, Unused, Meaning, Step, DirectStep, Bound, Binds, BoundBefore;
    if ops != [] {
      var t := Step(s, ops[0]).0;
      StepSimulates(s, ops[0]);
      RunSimulates(t, ops[1..]);
      forall i | 0 < i < |ops| ensures AnswersAt(t, ops[1..], i - 1) <==> AnswersAt(s, ops, i) {
        AnswersLater(s, ops, i);
      }
      AnswersFirst(s, ops);
    }
  }

  lemma AnswersLater(s: State, ops: seq<Op>, i: nat)
    requires PermittedRun(s, ops) && 0 < i < |ops|
    ensures AnswersAt(Step(s, ops[0]).0, ops[1..], i - 1) <==> AnswersAt(s, ops, i)
  {
    hide Unused, Step, Bound, Binds, BoundBefore;
    if ops[i].Unlock? {
      StepBinds(s, ops[0], ops[i].m);
      BoundBeforeSplits(s, Step(s, ops[0]).0, ops, i, ops[i].m);
    }
  }

  lemma AnswersFirst(s: State, ops: seq<Op>)
    requires PermittedRun(s, ops) && ops != []
    ensures Answers(s, ops[0]) <==> AnswersAt(s, ops, 0)
  {
    hide Step;
  }

  /** Over a run from static words, an unlock of a mutex returns what the real one returns exactly when an
      earlier call of the run locked it, waited with it or initialised it. */
  lemma UnlockAgreesIff(s: State, ops: seq<Op>, i: nat)
    requires Invariant(s) && PermittedRun(s, ops) && i < |ops| && ops[i].Unlock?
    requires forall a | a in s.mutexes.word :: s.mutexes.word[a] <= TOP
    ensures KnownRun(Meaning(s), ops) && |Run(s, ops).1| == |RunDirect(Meaning(s), ops).1| == |ops|
    ensures Run(s, ops).1[i] == RunDirect(Meaning(s), ops).1[i]
            <==> exists j :: 0 <= j < i && Binds(ops[j], ops[i].m)
  {
    hide Invariant, Meaning, Step, DirectStep, Binds, PermittedRun, Run, RunDirect, KnownRun;
    RunSimulates(s, ops);
    assert !Bound(s, ops[i].m);
  }

  /** Giving a mutex a new object is safe exactly while no thread sleeps with the old one. */
  lemma ReinitKeepsInvariantIff(s: State, op: Op)
    requires Invariant(s) && op.MutexInit? && Named(s, op) && Unused(s, op.pm)
    ensures Invariant(Step(s, op).0) <==> Sleepless(s, op.m)
  {
    hide Sound, Rebind, Anchored;
    RebindSound(s.mutexes, op.m, op.pm, Mutex(op.kind, None, 0));
    RebindAnchorsIff(s.mutexes, op.m, op.pm, Mutex(op.kind, None, 0), s.asleep);
  }

  // ---- Bindings --------------------------------------------------------------------------

  /** The call gives word `a` of a mutex, or of a condition, a new object or none. */
  predicate Resets(op: Op, cond: bool, a: Addr) {
    if cond then (op.CondInit? || op.CondDestroy?) && op.c == a else op.MutexInit? && op.m == a
  }

  /** The call is a use that binds a static word. */
  predicate Uses(op: Op, cond: bool, a: Addr) {
    if cond then (op.Wait? || op.Signal? || op.Broadcast?) && op.c == a
    else (op.Lock? || op.Wait?) && op.m == a
  }

  function WordAt(s: State, cond: bool, a: Addr): nat
    requires a in (if cond then s.conds.word else s.mutexes.word)
  {
    if cond then s.conds.word[a] else s.mutexes.word[a]
  }

  predicate Exists(s: State, cond: bool, a: Addr) {
    a in (if cond then s.conds.word else s.mutexes.word)
  }

  /** A word changes only at its first use, when it gets the new block, and at its reset. */
  lemma WordChangesIff(s: State, op: Op, cond: bool, a: Addr)
    requires Invariant(s) && Permitted(s, op) && Exists(s, cond, a) && !Resets(op, cond, a)
    ensures Exists(Step(s, op).0, cond, a)
    ensures WordAt(Step(s, op).0, cond, a) != WordAt(s, cond, a)
            <==> Uses(op, cond, a) && WordAt(s, cond, a) <= TOP
    ensures Uses(op, cond, a) && WordAt(s, cond, a) <= TOP ==>
              WordAt(Step(s, op).0, cond, a) == (if cond then op.pc else op.pm)
  {
    hide Invariant, Object, MutexAt, CondAt, LockReal, UnlockReal, WaitReal, SignalReal;
  }

  /** Once bound, a word keeps its object over every run that does not reset it. */
  lemma {:induction false} BindingLasts(s: State, ops: seq<Op>, cond: bool, a: Addr)
    requires Invariant(s) && PermittedRun(s, ops) && Exists(s, cond, a) && WordAt(s, cond, a) > TOP
    requires forall op | op in ops :: !Resets(op, cond, a)
    ensures Exists(Run(s, ops).0, cond, a) && WordAt(Run(s, ops).0, cond, a) == WordAt(s, cond, a)
    decreases |ops|
  {
    hide Invariant, Object, Unused, Step, WordAt, Exists, Resets;
    if ops != [] {
      StepSimulates(s, ops[0]);
      assert ops[0] in ops;
      WordChangesIff(s, ops[0], cond, a);
      assert forall op | op in ops[1..] :: op in ops;
      BindingLasts(Step(s, ops[0]).0, ops[1..], cond, a);
    }
  }

  /** Two bound words never share an object, mutex or condition. */
  lemma BoundApart(s: State, ops: seq<Op>, cond: bool, a: Addr, cond': bool, b: Addr)
    requires Invariant(s) && PermittedRun(s, ops)
    requires (cond, a) != (cond', b)
    requires var t := Run(s, ops).0; Exists(t, cond, a) && Exists(t, cond', b)
    requires var t := Run(s, ops).0; WordAt(t, cond, a) > TOP && WordAt(t, cond', b) > TOP
    ensures var t := Run(s, ops).0; WordAt(t, cond, a) != WordAt(t, cond', b)
  {
    RunSimulates(s, ops);
    var t := Run(s, ops).0;
    assert Invariant(t);
  }

  /** What the static value of a mutex decides: its owner's second lock nests exactly when bit 14 is
      set, fails exactly when bit 15 is set and bit 14 is not, and sleeps otherwise. */
  lemma StaticKindDecides(s: State, a: Addr, t: Tid, p: Ptr, q: Ptr)
    requires Invariant(s) && a in s.mutexes.word && s.mutexes.word[a] <= 0xFFFF && Unused(s, p)
    requires Unused(Step(s, Lock(a, t, p)).0, q)
    ensures Step(s, Lock(a, t, p)).1 == Returns(0)
    ensures Named(Step(s, Lock(a, t, p)).0, Lock(a, t, q))
    ensures Step(Step(s, Lock(a, t, p)).0, Lock(a, t, q)).1 ==
            if s.mutexes.word[a] / 0x4000 % 2 == 1 then Returns(0)
            else if s.mutexes.word[a] / 0x8000 % 2 == 1 then Returns(35)
            else Blocks
  {
    hide Invariant, Object, Unused, Step;
    UnboundObject(s.mutexes, NewMutex, a);
    StepSimulates(s, Lock(a, t, p));
    StepKeepsNames(s, Lock(a, t, p));
    StepSimulates(Step(s, Lock(a, t, p)).0, Lock(a, t, q));
  }
}
