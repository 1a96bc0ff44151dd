/** The buffer queue of FbDevNativeWindow: any number of threads, each critical section of the
    window's mutex one step, and the framebuffer post between two of them. */
module FbDevQueue {
  import opened Lists

  type Tid = nat

  /** FbDevNativeWindowBuffer: busy is 0 (free), 1 (dequeued) or 2 (being posted). */
  class Buffer {
    var busy: int

    constructor ()
      ensures busy == 0
    {
      busy := 0;
    }
  }

  /** Where a thread inside dequeueBuffer sleeps: in the wait for the counter, or in the wait of
      the search loop, which does not look at the counter again. */
  datatype Wait = ForCounter | InSearch

  /** A thread that has dequeued a buffer and not yet given it back. */
  datatype Hold = Hold(tid: Tid, buffer: Buffer)

  /** `ready` says that the buffers have been allocated once; before that, m_freeBufs and
      m_frontBuf hold whatever the memory held. `seen` is every buffer ever allocated. */
  datatype State = State(
    bufs: seq<Buffer>, busy: map<Buffer, int>, free: int, front: Option<Buffer>,
    count: nat, usage: int, format: int, allocate: bool, ready: bool,
    holders: set<Hold>, posting: set<Hold>, waiting: map<Tid, Wait>, seen: set<Buffer>)

  // ---- The invariant ---------------------------------------------------------------------

  ghost function WithBusy(busy: map<Buffer, int>, v: int): set<Buffer> {
    set b | b in busy && busy[b] == v
  }

  ghost function BuffersOf(holds: set<Hold>): set<Buffer> {
    set h | h in holds :: h.buffer
  }

  /** No two of these threads, nor one of them twice, hold the same buffer. */
  ghost predicate Exclusive(holds: set<Hold>) {
    forall g, h | g in holds && h in holds :: g.buffer == h.buffer ==> g == h
  }

  ghost predicate Shape(s: State) {
    NoDup(s.bufs) && s.busy.Keys == Elems(s.bufs) && s.busy.Keys <= s.seen
  }

  ghost predicate Flags(s: State) {
    && WithBusy(s.busy, 1) == BuffersOf(s.holders)
    && WithBusy(s.busy, 2) == BuffersOf(s.posting)
    && s.busy.Keys == WithBusy(s.busy, 0) + WithBusy(s.busy, 1) + WithBusy(s.busy, 2)
  }

  ghost predicate Counted(s: State) {
    && (s.ready ==> s.free == |WithBusy(s.busy, 0)|)
    && (s.ready && s.front.Some? ==> s.front.value in WithBusy(s.busy, 0))
    && (!s.ready ==> s.bufs == [])
  }

  ghost predicate Inv(s: State) {
    Shape(s) && Flags(s) && Counted(s) && Exclusive(s.holders) && Exclusive(s.posting)
  }

  lemma Combine(s: State)
    requires Shape(s)
    requires Flags(s)
    requires Counted(s)
    requires Exclusive(s.holders)
    requires Exclusive(s.posting)
    ensures Inv(s)
  {
  }

  // ---- dequeueBuffer ---------------------------------------------------------------------

  /** reallocateBuffers: `made` are the buffers gralloc could provide, at most `count` of them. */
  function Reallocate(s: State, made: seq<Buffer>): State {
    s.(bufs := made, busy := map b | b in made :: 0, free := |made|, front := None,
       allocate := false, ready := true, seen := s.seen + set b | b in made)
  }

  /** A buffer the search accepts: not the front buffer, and free. */
  function Candidate(s: State): Buffer -> bool {
    b => s.front != Some(b) && b in s.busy && s.busy[b] == 0
  }

  function Take(s: State, t: Tid, i: nat): State
    requires i < |s.bufs|
  {
    var b := s.bufs[i];
    s.(busy := s.busy[b := 1], free := s.free - 1, holders := s.holders + {Hold(t, b)},
       waiting := s.waiting - {t})
  }

  /** One pass of the search loop: take a buffer or go to sleep. */
  function Search(s: State, t: Tid): (State, Option<Buffer>) {
    var i := First(s.bufs, Candidate(s));
    if i == |s.bufs| then (s.(waiting := s.waiting[t := InSearch]), None)
    else (Take(s, t, i), Some(s.bufs[i]))
  }

  /** dequeueBuffer up to its return or its first sleep. */
  function Enter(s: State, t: Tid, made: seq<Buffer>): (State, Option<Buffer>) {
    var u := if s.allocate then Reallocate(s, made) else s;
    if u.free == 0 then (u.(waiting := u.waiting[t := ForCounter]), None)
    else Search(u, t)
  }

  /** dequeueBuffer from one wake-up to its return or its next sleep. */
  function Wake(s: State, t: Tid): (State, Option<Buffer>) {
    if t !in s.waiting then (s, None)
    else if s.waiting[t] == ForCounter && s.free == 0 then (s, None)
    else Search(s, t)
  }

  // ---- queueBuffer, cancelBuffer, setters --------------------------------------------------

  /** The first critical section of queueBuffer. */
  function QueueBegin(s: State, t: Tid, b: Buffer): State {
    s.(busy := s.busy[b := 2], holders := s.holders - {Hold(t, b)}, posting := s.posting + {Hold(t, b)})
  }

  /** The second one, after the post. */
  function QueueEnd(s: State, t: Tid, b: Buffer): State {
    s.(busy := s.busy[b := 0], front := Some(b), free := s.free + 1, posting := s.posting - {Hold(t, b)})
  }

  function Cancel(s: State, t: Tid, b: Buffer): State {
    s.(busy := s.busy[b := 0], free := s.free + 1, holders := s.holders - {Hold(t, b)})
  }

  /** setUsage assigns the request flag where the other setters or into it. */
  function SetUsage(s: State, usage: int): State {
    s.(allocate := s.usage != usage, usage := usage)
  }

  function SetFormat(s: State, format: int): State {
    s.(allocate := s.allocate || format != s.format, format := format)
  }

  function SetCount(s: State, cnt: nat): State {
    if s.count != cnt then s.(count := cnt, allocate := true) else s
  }

  // ---- Every step keeps the invariant ------------------------------------------------------

  ghost predicate NewBuffers(s: State, made: seq<Buffer>) {
    |made| <= s.count && NoDup(made) && Elems(made) !! s.seen
  }

  lemma ReallocateKeepsInv(s: State, made: seq<Buffer>)
    requires Inv(s) && NewBuffers(s, made) && s.holders == {} && s.posting == {}
    ensures Inv(Reallocate(s, made))
  {
    var t := Reallocate(s, made);
    assert t.busy.Keys == Elems(made);
    assert WithBusy(t.busy, 0) == Elems(made);
    assert WithBusy(t.busy, 1) == {} && WithBusy(t.busy, 2) == {};
    Combine(t);
  }

  /** One buffer's flag changes from v to w. */
  lemma Flip(busy: map<Buffer, int>, b: Buffer, v: int, w: int)
    requires b in busy && busy[b] == v != w
    ensures busy[b := w].Keys == busy.Keys
    ensures WithBusy(busy[b := w], v) == WithBusy(busy, v) - {b} && b in WithBusy(busy, v)
    ensures WithBusy(busy[b := w], w) == WithBusy(busy, w) + {b} && b !in WithBusy(busy, w)
    ensures forall x :: x != v && x != w ==> WithBusy(busy[b := w], x) == WithBusy(busy, x)
    ensures forall x :: x != v ==> b !in WithBusy(busy, x)
  {
  }

  lemma AddHold(holds: set<Hold>, h: Hold)
    requires Exclusive(holds) && h.buffer !in BuffersOf(holds)
    ensures Exclusive(holds + {h}) && BuffersOf(holds + {h}) == BuffersOf(holds) + {h.buffer}
  {
    assert h in holds + {h};
    forall g | g in holds ensures g.buffer != h.buffer {
      assert g.buffer in BuffersOf(holds);
    }
  }

  lemma RemoveHold(holds: set<Hold>, h: Hold)
    requires Exclusive(holds) && h in holds
    ensures Exclusive(holds - {h}) && BuffersOf(holds - {h}) == BuffersOf(holds) - {h.buffer}
    ensures h.buffer in BuffersOf(holds)
  {
    forall c | c in BuffersOf(holds) - {h.buffer} ensures c in BuffersOf(holds - {h}) {
      var g :| g in holds && g.buffer == c;
      assert g in holds - {h};
    }
  }

  lemma FlagOf(busy: map<Buffer, int>, b: Buffer, v: int)
    ensures b in WithBusy(busy, v) <==> b in busy && busy[b] == v
  {
  }

  lemma TakeKeepsInv(s: State, t: Tid, i: nat)
    requires Inv(s) && s.ready && i < |s.bufs| && Candidate(s)(s.bufs[i])
    ensures Inv(Take(s, t, i))
  {
    hide WithBusy, BuffersOf, Exclusive, NoDup, Elems;
    var b := s.bufs[i];
    Flip(s.busy, b, 0, 1);
    AddHold(s.holders, Hold(t, b));
    Combine(Take(s, t, i));
  }

  lemma SearchKeepsInv(s: State, t: Tid)
    requires Inv(s) && s.ready
    ensures Inv(Search(s, t).0)
  {
    var i := First(s.bufs, Candidate(s));
    if i < |s.bufs| {
      TakeKeepsInv(s, t, i);
    } else {
      Combine(Search(s, t).0);
    }
  }

  /** queueBuffer's assert: the buffer a thread returns is marked as dequeued. */
  lemma QueueAssertHolds(s: State, t: Tid, b: Buffer)
    requires Inv(s) && Hold(t, b) in s.holders
    ensures b in s.busy && s.busy[b] == 1
  {
    assert b in BuffersOf(s.holders);
  }

  lemma QueueBeginKeepsInv(s: State, t: Tid, b: Buffer)
    requires Inv(s) && Hold(t, b) in s.holders
    ensures Inv(QueueBegin(s, t, b))
  {
    hide WithBusy, BuffersOf, Exclusive, NoDup, Elems;
    QueueAssertHolds(s, t, b);
    Flip(s.busy, b, 1, 2);
    RemoveHold(s.holders, Hold(t, b));
    AddHold(s.posting, Hold(t, b));
    Combine(QueueBegin(s, t, b));
  }

  lemma QueueEndKeepsInv(s: State, t: Tid, b: Buffer)
    requires Inv(s) && Hold(t, b) in s.posting
    ensures Inv(QueueEnd(s, t, b))
  {
    hide WithBusy, BuffersOf, Exclusive, NoDup, Elems;
    RemoveHold(s.posting, Hold(t, b));
    FlagOf(s.busy, b, 2);
    Flip(s.busy, b, 2, 0);
    Combine(QueueEnd(s, t, b));
  }

  lemma CancelKeepsInv(s: State, t: Tid, b: Buffer)
    requires Inv(s) && Hold(t, b) in s.holders
    ensures Inv(Cancel(s, t, b))
  {
    hide WithBusy, BuffersOf, Exclusive, NoDup, Elems;
    QueueAssertHolds(s, t, b);
    Flip(s.busy, b, 1, 0);
    RemoveHold(s.holders, Hold(t, b));
    Combine(Cancel(s, t, b));
  }

  // ---- All interleavings -----------------------------------------------------------------

  datatype Action =
    | EnterDequeue(t: Tid, made: seq<Buffer>)
    | WakeUp(t: Tid)
    | BeginQueue(t: Tid, b: Buffer)
    | EndQueue(t: Tid, b: Buffer)
    | CancelHeld(t: Tid, b: Buffer)
    | UsageChange(usage: int)
    | FormatChange(format: int)
    | CountChange(count: nat)

  /** The buffers have been allocated, or will be by the next dequeue. */
  predicate Requested(s: State) {
    s.ready || s.allocate
  }

  /** The client contract: threads return only buffers they hold, and a dequeue that reallocates
      starts only while no buffer is out. The first dequeue of a window comes while its request for
      buffers is pending: without one it would read a counter that was never set. */
  ghost predicate Permitted(s: State, a: Action) {
    match a
    case EnterDequeue(t, made) =>
      && t !in s.waiting && Requested(s)
      && (s.allocate ==> s.holders == {} && s.posting == {} && NewBuffers(s, made))
    case WakeUp(t) => t in s.waiting && s.ready
    case BeginQueue(t, b) => Hold(t, b) in s.holders
    case EndQueue(t, b) => Hold(t, b) in s.posting
    case CancelHeld(t, b) => Hold(t, b) in s.holders
    case UsageChange(_) => true
    case FormatChange(_) => true
    case CountChange(_) => true
  }

  function Step(s: State, a: Action): State {
    match a
    case EnterDequeue(t, made) => Enter(s, t, made).0
    case WakeUp(t) => Wake(s, t).0
    case BeginQueue(t, b) => QueueBegin(s, t, b)
    case EndQueue(t, b) => QueueEnd(s, t, b)
    case CancelHeld(t, b) => Cancel(s, t, b)
    case UsageChange(usage) => SetUsage(s, usage)
    case FormatChange(format) => SetFormat(s, format)
    case CountChange(count) => SetCount(s, count)
  }

  /** A dequeue keeps the invariant exactly when it does not reallocate with a buffer out: the new
      list knows nothing of a buffer that is still held or being posted. */
  lemma EnterKeepsInvIff(s: State, t: Tid, made: seq<Buffer>)
    requires Inv(s) && t !in s.waiting && (s.allocate ==> NewBuffers(s, made))
    ensures Inv(Enter(s, t, made).0) <==> (s.allocate ==> s.holders == {} && s.posting == {})
  {
    if s.allocate && s.holders + s.posting != {} {
      EnterForgets(s, t, made);
    } else {
      var u := if s.allocate then Reallocate(s, made) else s;
      if s.allocate {
        ReallocateKeepsInv(s, made);
      }
      hide WithBusy, BuffersOf, Exclusive, NoDup, Elems;
      if u.free != 0 && u.ready {
        SearchKeepsInv(u, t);
      } else {
        Combine(Enter(s, t, made).0);
      }
    }
  }

  lemma EnterForgets(s: State, t: Tid, made: seq<Buffer>)
    requires Inv(s) && s.allocate && NewBuffers(s, made) && s.holders + s.posting != {}
    ensures !Inv(Enter(s, t, made).0)
  {
    var h :| h in s.holders + s.posting;
    HoldIsFlagged(s, h);
    var u := Enter(s, t, made).0;
    EnterKeys(s, t, made);
    assert h.buffer in Elems(s.bufs) && h.buffer in s.seen;
    assert h.buffer !in u.busy;
    hide NoDup, Elems, WithBusy;
    if Inv(u) {
      HoldIsFlagged(u, h);
    }
  }

  lemma EnterKeys(s: State, t: Tid, made: seq<Buffer>)
    requires s.allocate
    ensures var u := Enter(s, t, made).0;
            u.busy.Keys == Elems(made) && s.holders <= u.holders && u.posting == s.posting
  {
    var r := Reallocate(s, made);
    assert r.busy.Keys == Elems(made);
    var i := First(r.bufs, Candidate(r));
    if i < |r.bufs| {
      assert r.bufs[i] in Elems(made);
    }
    hide First, Candidate;
  }

  lemma SettingKeepsInv(s: State, t: State)
    requires Inv(s) && t == s.(count := t.count, usage := t.usage, format := t.format, allocate := t.allocate)
    ensures Inv(t)
  {
    hide WithBusy, BuffersOf, Exclusive, NoDup, Elems;
    Combine(t);
  }

  lemma StepKeepsInv(s: State, a: Action)
    requires Inv(s) && Permitted(s, a)
    ensures Inv(Step(s, a))
  {
    hide Inv;
    match a
    case EnterDequeue(t, made) => EnterKeepsInvIff(s, t, made);
    case WakeUp(t) => SearchKeepsInv(s, t);
    case BeginQueue(t, b) => QueueBeginKeepsInv(s, t, b);
    case EndQueue(t, b) => QueueEndKeepsInv(s, t, b);
    case CancelHeld(t, b) => CancelKeepsInv(s, t, b);
    case UsageChange(_) => SettingKeepsInv(s, Step(s, a));
    case FormatChange(_) => SettingKeepsInv(s, Step(s, a));
    case CountChange(_) => SettingKeepsInv(s, Step(s, a));
  }

  ghost function Run(s: State, actions: seq<Action>): State
    decreases |actions|
  {
    if actions == [] || !Permitted(s, actions[0]) then s
    else Run(Step(s, actions[0]), actions[1..])
  }

  lemma {:induction false} RunKeepsInv(s: State, actions: seq<Action>)
    requires Inv(s)
    ensures Inv(Run(s, actions))
    decreases |actions|
  {
    hide Inv;
    if actions != [] && Permitted(s, actions[0]) {
      StepKeepsInv(s, actions[0]);
      RunKeepsInv(Step(s, actions[0]), actions[1..]);
    }
  }

  /** A window as its constructor leaves it: a request for buffers is pending, and the counter and
      the front pointer are not initialised. */
  ghost predicate IsFresh(s: State) {
    && s.bufs == [] && s.busy == map[] && s.allocate && !s.ready
    && s.holders == {} && s.posting == {} && s.waiting == map[]
  }

  ghost function Reached(start: State, actions: seq<Action>): (s: State)
    requires IsFresh(start)
    ensures Inv(s)
  {
    FreshKeepsInv(start);
    RunKeepsInv(start, actions);
    Run(start, actions)
  }

  lemma FreshKeepsInv(f: State)
    requires IsFresh(f)
    ensures Inv(f)
  {
    assert WithBusy(f.busy, 0) == {} && WithBusy(f.busy, 1) == {} && WithBusy(f.busy, 2) == {};
    assert BuffersOf(f.holders) == {} && BuffersOf(f.posting) == {} && Elems(f.bufs) == {};
    Combine(f);
  }

  // ---- What holds in every run -----------------------------------------------------------

  /** Exclusion: whatever the interleaving, a buffer is held or being posted by one thread at most,
      and the front buffer is a free buffer of the list that no thread holds. */
  lemma NoBufferIsShared(start: State, actions: seq<Action>, s: State, g: Hold, h: Hold)
    requires IsFresh(start) && s == Reached(start, actions)
    requires g in s.holders + s.posting && h in s.holders + s.posting
    ensures g.buffer == h.buffer ==> g == h && (g in s.holders <==> h !in s.posting)
    ensures s.front.Some? ==>
              s.front.value in s.bufs && s.busy[s.front.value] == 0 && s.front.value != g.buffer
    ensures g.buffer in s.bufs && s.busy[g.buffer] == if g in s.holders then 1 else 2
  {
    HoldIsFlagged(s, g);
    HoldIsFlagged(s, h);
    if s.front.Some? {
      assert s.front.value in WithBusy(s.busy, 0);
      assert s.front.value in Elems(s.bufs);
    }
  }

  /** In every interleaving, whoever holds what: a posted front buffer is a free buffer of the list,
      held and being posted by nobody, and the next dequeue does not hand it out. */
  lemma FrontIsNobodys(start: State, actions: seq<Action>, s: State, t: Tid)
    requires IsFresh(start) && s == Reached(start, actions) && s.ready && s.front.Some?
    ensures s.front.value in s.bufs && s.busy[s.front.value] == 0
    ensures forall h | h in s.holders + s.posting :: h.buffer != s.front.value
    ensures !s.allocate ==> Search(s, t).1 != s.front
  {
    assert s.front.value in WithBusy(s.busy, 0);
    assert s.front.value in Elems(s.bufs);
    forall h | h in s.holders + s.posting ensures h.buffer != s.front.value {
      HoldIsFlagged(s, h);
    }
  }

  lemma HoldIsFlagged(s: State, h: Hold)
    requires Inv(s) && h in s.holders + s.posting
    ensures s.ready && h.buffer in s.bufs && h.buffer in s.busy
    ensures h in s.holders <==> s.busy[h.buffer] == 1
    ensures h in s.posting <==> s.busy[h.buffer] == 2
  {
    if h in s.holders {
      assert h.buffer in BuffersOf(s.holders);
    }
    if h in s.posting {
      assert h.buffer in BuffersOf(s.posting);
    }
    assert h.buffer in Elems(s.bufs);
  }

  lemma FrontIsFree(s: State)
    requires Inv(s) && s.ready && s.front.Some?
    ensures s.front.value in s.busy && s.busy[s.front.value] == 0
  {
  }

  lemma {:induction false} HoldsCount(holds: set<Hold>)
    requires Exclusive(holds)
    ensures |BuffersOf(holds)| == |holds|
  {
    if holds == {} {
      assert BuffersOf(holds) == {};
    } else {
      var h :| h in holds;
      RemoveHold(holds, h);
      HoldsCount(holds - {h});
    }
  }

  /** The counter is exact, and every buffer that is not free is with exactly one thread. */
  lemma CounterIsExact(s: State)
    requires Inv(s) && s.ready
    ensures s.free + |s.holders| + |s.posting| == |s.bufs|
  {
    HoldsCount(s.holders);
    HoldsCount(s.posting);
    var zero, one, two := WithBusy(s.busy, 0), WithBusy(s.busy, 1), WithBusy(s.busy, 2);
    assert zero !! one && (zero + one) !! two;
    assert |zero + one + two| == |zero| + |one| + |two|;
  }

  /** The buffers the search would accept. */
  ghost function Candidates(s: State): set<Buffer> {
    WithBusy(s.busy, 0) - if s.front.Some? then {s.front.value} else {}
  }

  lemma CandidateIs(s: State, b: Buffer)
    requires Inv(s)
    ensures Candidate(s)(b) <==> b in Candidates(s)
    ensures b in Candidates(s) ==> b in s.bufs
  {
    assert b in s.bufs <==> b in Elems(s.bufs);
  }

  lemma SearchFindsIff(s: State)
    requires Inv(s) && s.ready
    ensures First(s.bufs, Candidate(s)) < |s.bufs| <==> Candidates(s) != {}
    ensures |Candidates(s)| == s.free - if s.front.Some? then 1 else 0
  {
    hide Shape, Flags, Exclusive, Candidate, First;
    if Candidates(s) != {} {
      var b :| b in Candidates(s);
      CandidateIs(s, b);
    }
    var i := First(s.bufs, Candidate(s));
    if i < |s.bufs| {
      CandidateIs(s, s.bufs[i]);
    }
  }

  lemma SearchProceedsIff(s: State, t: Tid)
    requires Inv(s) && s.ready
    ensures Search(s, t).1.Some? <==> s.free > if s.front.Some? then 1 else 0
  {
    hide Inv;
    SearchFindsIff(s);
    hide Candidates, First, Candidate;
  }

  /** Progress by counting: a dequeue with nothing to reallocate gets a buffer without sleeping
      exactly when a free buffer exists besides the front one. The same count decides each later
      wake-up. */
  lemma DequeueProceedsIff(s: State, t: Tid, made: seq<Buffer>)
    requires Inv(s) && s.ready && !s.allocate
    ensures Enter(s, t, made).1.Some? <==> s.free > if s.front.Some? then 1 else 0
    ensures t in s.waiting ==> (Wake(s, t).1.Some? <==> s.free > if s.front.Some? then 1 else 0)
  {
    hide Inv;
    SearchProceedsIff(s, t);
    hide Search;
  }

  /** The buffer handed out was with nobody and is not the front buffer. */
  lemma SearchHandsOutFree(s: State, t: Tid)
    requires Inv(s) && s.ready
    ensures var (u, r) := Search(s, t);
            r.Some? ==>
              && r.value in s.bufs && s.busy[r.value] == 0 && s.front != r && u.front == s.front
              && u.holders == s.holders + {Hold(t, r.value)} && u.bufs == s.bufs
              && (forall h | h in s.holders + s.posting :: h.buffer != r.value)
  {
    forall h | h in s.holders + s.posting ensures h.buffer in s.busy && s.busy[h.buffer] != 0 {
      HoldIsFlagged(s, h);
    }
  }

  lemma DequeueHandsOutFree(s: State, t: Tid, made: seq<Buffer>)
    requires Inv(s) && t !in s.waiting
    requires s.allocate ==> s.holders == {} && s.posting == {} && NewBuffers(s, made)
    ensures var (u, r) := Enter(s, t, made);
            r.Some? ==>
              && r.value in u.bufs && u.front != r && u.holders == s.holders + {Hold(t, r.value)}
              && (forall h | h in s.holders + s.posting :: h.buffer != r.value)
  {
    var u := if s.allocate then Reallocate(s, made) else s;
    if s.allocate {
      ReallocateKeepsInv(s, made);
    }
    if u.ready {
      hide Inv, First;
      SearchHandsOutFree(u, t);
    }
  }

  /** With two or more buffers and none of them out, a dequeue never sleeps. */
  lemma NoneOutNeverBlocks(s: State, t: Tid, made: seq<Buffer>)
    requires Inv(s) && s.ready && !s.allocate
    requires |s.bufs| >= 2 && s.holders == {} && s.posting == {}
    ensures Enter(s, t, made).1.Some?
  {
    CounterIsExact(s);
    DequeueProceedsIff(s, t, made);
  }

  /** Once something has been posted, one buffer is always kept back. */
  lemma FrontIsKeptBack(s: State)
    requires Inv(s) && s.ready && s.front.Some?
    ensures |s.holders| + |s.posting| <= |s.bufs| - 1
  {
    CounterIsExact(s);
    assert WithBusy(s.busy, 0) != {};
  }

  ghost predicate IsSetter(a: Action) {
    a.UsageChange? || a.FormatChange? || a.CountChange?
  }

  lemma StepKeepsFront(s: State, a: Action)
    requires Inv(s) && s.ready && !s.allocate && Permitted(s, a) && !IsSetter(a)
    ensures var u := Step(s, a);
            && u.ready && !u.allocate && u.bufs == s.bufs && u.count == s.count
            && u.front == if a.EndQueue? then Some(a.b) else s.front
  {
    hide Inv, First;
  }

  lemma {:induction false} FrontStays(s: State, actions: seq<Action>)
    requires Inv(s) && s.ready && !s.allocate && s.front.Some?
    requires forall a | a in actions :: !IsSetter(a)
    ensures var u := Run(s, actions);
            Inv(u) && u.ready && u.front.Some? && u.bufs == s.bufs
    decreases |actions|
  {
    hide Inv, Permitted, Step, IsSetter;
    if actions != [] && Permitted(s, actions[0]) {
      assert actions[0] in actions && forall a | a in actions[1..] :: a in actions;
      StepKeepsFront(s, actions[0]);
      StepKeepsInv(s, actions[0]);
      FrontStays(Step(s, actions[0]), actions[1..]);
    }
  }

  /** Once a post has ended, over every interleaving of everything but the setters at most n - 1
      buffers are ever held or being posted. */
  lemma OncePostedOneStays(s: State, t: Tid, b: Buffer, actions: seq<Action>)
    requires Inv(s) && s.ready && !s.allocate && Hold(t, b) in s.posting
    requires forall a | a in actions :: !IsSetter(a)
    ensures var u := Run(QueueEnd(s, t, b), actions);
            |u.holders| + |u.posting| <= |s.bufs| - 1
  {
    var v := QueueEnd(s, t, b);
    QueueEndKeepsInv(s, t, b);
    FrontStays(v, actions);
    FrontIsKeptBack(Run(v, actions));
  }

  /** A window of one buffer gives out none after its first post, until a setter asks for a
      reallocation. */
  lemma {:induction false} SingleBufferIsStuck(s: State, actions: seq<Action>)
    requires Inv(s) && s.ready && !s.allocate && |s.bufs| == 1 && s.front.Some?
    requires forall a | a in actions :: !IsSetter(a)
    ensures var u := Run(s, actions);
            u.holders == {} && u.posting == {} && u.bufs == s.bufs && u.front == s.front
    decreases |actions|
  {
    NothingIsOut(s);
    if actions != [] && Permitted(s, actions[0]) {
      StuckStep(s, actions[0]);
      StepKeepsInv(s, actions[0]);
      hide Inv;
      SingleBufferIsStuck(Step(s, actions[0]), actions[1..]);
    }
  }

  lemma StuckStep(s: State, a: Action)
    requires Inv(s) && s.ready && !s.allocate && |s.bufs| == 1 && s.front.Some?
    requires Permitted(s, a) && !IsSetter(a)
    ensures Step(s, a) == s.(waiting := Step(s, a).waiting)
  {
    NothingIsOut(s);
    SearchFindsIff(s);
  }

  lemma NothingIsOut(s: State)
    requires Inv(s) && s.ready && |s.bufs| == 1 && s.front.Some?
    ensures s.holders == {} && s.posting == {} && s.free == 1
  {
    var f := s.front.value;
    assert f in Elems(s.bufs);
    assert s.bufs == [f];
    assert Elems(s.bufs) == {f};
    assert WithBusy(s.busy, 0) == {f};
    assert s.free == |{f}|;
    forall h | h in s.holders + s.posting ensures false {
      HoldIsFlagged(s, h);
    }
    assert s.holders + s.posting == {};
  }

  /** setUsage overwrites a pending request where the other setters add to it. After asking for
      `cnt` buffers and then naming a usage, the next dequeue finds `cnt` buffers exactly when the
      usage was not the one already in force. */
  lemma CountIsHonouredIff(s: State, cnt: nat, usage: int, t: Tid, made: seq<Buffer>)
    requires Inv(s) && s.ready && |s.bufs| == s.count != cnt && |made| == cnt
    ensures var u := SetUsage(SetCount(s, cnt), usage);
            |Enter(u, t, made).0.bufs| == cnt <==> usage != s.usage
  {
    var u := SetUsage(SetCount(s, cnt), usage);
    EnterBufs(u, t, made);
  }

  /** The setters of a sequence, one after the other. */
  function AfterSetters(s: State, setters: seq<Action>): State
    decreases |setters|
  {
    if setters == [] then s
    else Step(AfterSetters(s, setters[..|setters| - 1]), setters[|setters| - 1])
  }

  /** The setter changes the value it sets. */
  predicate Alters(s: State, a: Action) {
    match a
    case UsageChange(usage) => usage != s.usage
    case FormatChange(format) => format != s.format
    case CountChange(count) => count != s.count
    case _ => false
  }

  /** The k-th setter changes its value and no setUsage comes after it. */
  ghost predicate AltersForGood(s: State, setters: seq<Action>, k: nat)
    requires k < |setters|
  {
    Alters(AfterSetters(s, setters[..k]), setters[k])
    && forall m :: k < m < |setters| ==> !setters[m].UsageChange?
  }

  /** Some setter does so: the request it makes is still there at the end. */
  ghost predicate AlteredLast(s: State, setters: seq<Action>) {
    exists k: nat :: k < |setters| && AltersForGood(s, setters, k)
  }

  lemma ForGoodSnoc(s: State, setters: seq<Action>, a: Action, k: nat)
    requires k < |setters|
    ensures AltersForGood(s, setters + [a], k) <==> !a.UsageChange? && AltersForGood(s, setters, k)
  {
    hide Alters, AfterSetters;
    var all, n := setters + [a], |setters|;
    assert all[..k] == setters[..k] && all[k] == setters[k] && all[n] == a;
    assert forall m | k < m < n :: all[m] == setters[m];
  }

  lemma ForGoodLast(s: State, setters: seq<Action>, a: Action)
    ensures AltersForGood(s, setters + [a], |setters|) <==> Alters(AfterSetters(s, setters), a)
  {
    hide Alters, AfterSetters;
    assert (setters + [a])[..|setters|] == setters;
  }

  lemma AlteredLastSnoc(s: State, setters: seq<Action>, a: Action)
    ensures AlteredLast(s, setters + [a]) <==>
            Alters(AfterSetters(s, setters), a) || (!a.UsageChange? && AlteredLast(s, setters))
  {
    hide Alters, AfterSetters, AltersForGood;
    var all, n := setters + [a], |setters|;
    ForGoodLast(s, setters, a);
    forall k: nat | k < n
      ensures AltersForGood(s, all, k) <==> !a.UsageChange? && AltersForGood(s, setters, k)
    {
      ForGoodSnoc(s, setters, a, k);
    }
    if AlteredLast(s, all) {
      var k: nat :| k < |all| && AltersForGood(s, all, k);
      assert k < n ==> AltersForGood(s, setters, k);
    }
    if !a.UsageChange? && AlteredLast(s, setters) {
      var k: nat :| k < n && AltersForGood(s, setters, k);
      assert AltersForGood(s, all, k);
    }
  }

  lemma OneSetter(s: State, a: Action)
    requires IsSetter(a)
    ensures var u := Step(s, a);
            && (u.allocate <==> Alters(s, a) || (!a.UsageChange? && s.allocate))
            && u == s.(count := u.count, usage := u.usage, format := u.format, allocate := u.allocate)
  {
  }

  /** What is left of the requests: one made for good, or the one pending before if no setUsage
      assigned over it. */
  ghost predicate StillRequested(s: State, setters: seq<Action>) {
    AlteredLast(s, setters) || (s.allocate && forall a | a in setters :: !a.UsageChange?)
  }

  lemma {:induction false} RequestSurvivesIff(s: State, setters: seq<Action>)
    requires forall a | a in setters :: IsSetter(a)
    ensures var u := AfterSetters(s, setters);
            && (u.allocate <==> StillRequested(s, setters))
            && u == s.(count := u.count, usage := u.usage, format := u.format, allocate := u.allocate)
    decreases |setters|
  {
    if setters != [] {
      var n := |setters| - 1;
      var before, last := setters[..n], setters[n];
      assert setters == before + [last] && last in setters;
      assert forall a | a in before :: a in setters;
      assert forall a | a in setters :: a in before || a == last;
      RequestSurvivesIff(s, before);
      AlteredLastSnoc(s, before, last);
      OneSetter(AfterSetters(s, before), last);
      assert AfterSetters(s, setters) == Step(AfterSetters(s, before), last);
      hide AlteredLast, Alters, Step, AfterSetters;
    } else {
      assert !AlteredLast(s, setters);
    }
  }

  /** What any sequence of setters between two dequeues, or before the first, comes to: the next
      dequeue makes new buffers exactly when a request is left; so it finds the number of buffers
      asked for last exactly then, or when that number is what there was. */
  lemma SettersAreHonouredIff(s: State, setters: seq<Action>, t: Tid, made: seq<Buffer>)
    requires forall a | a in setters :: IsSetter(a)
    requires |made| == AfterSetters(s, setters).count
    ensures var u := AfterSetters(s, setters);
            && Enter(u, t, made).0.bufs == (if StillRequested(s, setters) then made else s.bufs)
            && (|Enter(u, t, made).0.bufs| == u.count <==> StillRequested(s, setters) || u.count == |s.bufs|)
  {
    RequestSurvivesIff(s, setters);
    EnterBufs(AfterSetters(s, setters), t, made);
    hide AfterSetters, StillRequested;
  }

  /** After the setters that come before a window's first dequeue, that dequeue is one the client may
      make, and finds buffers, exactly when a request is left: some setter changed its value after the
      last setUsage or in it, or there was no setUsage and the constructor's request stands. */
  lemma FirstDequeueIff(start: State, setters: seq<Action>, t: Tid, made: seq<Buffer>)
    requires IsFresh(start) && (forall a | a in setters :: IsSetter(a)) && made != []
    requires NewBuffers(AfterSetters(start, setters), made)
    ensures var u := AfterSetters(start, setters);
            && Inv(u)
            && (Permitted(u, EnterDequeue(t, made)) <==> StillRequested(start, setters))
            && (Enter(u, t, made).0.bufs != [] <==> StillRequested(start, setters))
            && (StillRequested(start, setters) <==>
                  AlteredLast(start, setters) || forall a | a in setters :: !a.UsageChange?)
  {
    var u := AfterSetters(start, setters);
    FreshKeepsInv(start);
    RequestSurvivesIff(start, setters);
    SettingKeepsInv(start, u);
    EnterBufs(u, t, made);
    hide AfterSetters, AlteredLast, Inv, NewBuffers;
  }

  /** In particular, of a window without buffers told one usage: it must be another than its own. */
  lemma FirstUsageIff(s: State, usage: int, t: Tid, made: seq<Buffer>)
    requires Inv(s) && !s.ready && made != []
    ensures Requested(SetUsage(s, usage)) <==> usage != s.usage
    ensures Enter(SetUsage(s, usage), t, made).0.bufs != [] <==> usage != s.usage
  {
    EnterBufs(SetUsage(s, usage), t, made);
  }

  /** Neither telling a new window its own usage nor telling it another settles the matter: a change
      of count or format after the first asks again, and the second told twice takes it back. */
  lemma LaterSettersDecide(start: State, usage: int, cnt: nat, t: Tid, made: seq<Buffer>)
    requires IsFresh(start) && made != [] && usage != start.usage && cnt != start.count
    ensures Enter(SetCount(SetUsage(start, start.usage), cnt), t, made).0.bufs == made
    ensures Enter(SetUsage(SetUsage(start, usage), usage), t, made).0.bufs == []
  {
    EnterBufs(SetCount(SetUsage(start, start.usage), cnt), t, made);
    EnterBufs(SetUsage(SetUsage(start, usage), usage), t, made);
  }

  lemma EnterBufs(s: State, t: Tid, made: seq<Buffer>)
    ensures Enter(s, t, made).0.bufs == if s.allocate then made else s.bufs
  {
    var u := if s.allocate then Reallocate(s, made) else s;
    SearchKeepsBufs(u, t);
  }

  lemma SearchKeepsBufs(s: State, t: Tid)
    ensures Search(s, t).0.bufs == s.bufs
  {
  }
}
