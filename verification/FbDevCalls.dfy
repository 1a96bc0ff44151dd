/** What each critical section of FbDevQueue gives and takes, and which of them undo each other. */
module FbDevCalls {
  import opened Lists
  import opened FbDevQueue

  // ---- dequeueBuffer ---------------------------------------------------------------------

  /** The list and the front buffer that a dequeue works on. */
  function ListFor(s: State, made: seq<Buffer>): seq<Buffer> {
    if s.allocate then made else s.bufs
  }

  function FrontFor(s: State): Option<Buffer> {
    if s.allocate then None else s.front
  }

  /** The buffer is with no thread and is not kept back as the front one. */
  ghost predicate Available(s: State, b: Buffer) {
    b in s.bufs && s.front != Some(b) && forall h | h in s.holders + s.posting :: h.buffer != b
  }

  /** The flag says whether some thread has the buffer. */
  lemma FreeIsNobodys(s: State, b: Buffer)
    requires Inv(s) && b in s.bufs
    ensures b in s.busy && (s.busy[b] == 0 <==> forall h | h in s.holders + s.posting :: h.buffer != b)
  {
    assert b in Elems(s.bufs);
    if s.busy[b] == 0 {
      forall h | h in s.holders + s.posting ensures h.buffer != b {
        HoldIsFlagged(s, h);
      }
    } else {
      assert b in WithBusy(s.busy, 1) + WithBusy(s.busy, 2);
      var h :| h in s.holders + s.posting && h.buffer == b;
    }
  }

  lemma AvailableIff(s: State, b: Buffer)
    requires Inv(s) && b in s.bufs
    ensures Candidate(s)(b) <==> Available(s, b)
  {
    FreeIsNobodys(s, b);
    hide Inv;
  }

  /** What one pass of the search may change. */
  ghost predicate SearchOnly(s: State, u: State) {
    && u.bufs == s.bufs && u.front == s.front && u.posting == s.posting && u.seen == s.seen
    && u.count == s.count && u.usage == s.usage && u.format == s.format
    && u.allocate == s.allocate && u.ready == s.ready
  }

  lemma SearchIs(s: State, t: Tid)
    ensures var i := First(s.bufs, Candidate(s));
            && SearchOnly(s, Search(s, t).0)
            && (i < |s.bufs| ==>
                  && Search(s, t).1 == Some(s.bufs[i])
                  && Search(s, t).0.holders == s.holders + {Hold(t, s.bufs[i])}
                  && Search(s, t).0.free == s.free - 1 && Search(s, t).0.waiting == s.waiting - {t})
            && (i == |s.bufs| ==>
                  Search(s, t).1 == None && Search(s, t).0 == s.(waiting := s.waiting[t := InSearch]))
  {
    hide First, Candidate;
  }

  /** The search takes the first available buffer of the list, for this thread, which no longer
      sleeps; or there is none, and the thread sleeps in the search with nothing else changed. */
  lemma SearchTakesFirst(s: State, t: Tid) returns (i: nat)
    requires Inv(s)
    ensures i <= |s.bufs| && forall j :: 0 <= j < i ==> !Available(s, s.bufs[j])
    ensures SearchOnly(s, Search(s, t).0)
    ensures var (u, r) := Search(s, t);
            if i < |s.bufs| then
              && r == Some(s.bufs[i]) && Available(s, s.bufs[i])
              && u.holders == s.holders + {Hold(t, s.bufs[i])} && u.free == s.free - 1
              && u.waiting == s.waiting - {t}
            else
              r == None && u == s.(waiting := s.waiting[t := InSearch])
  {
    hide Inv, First, Available, SearchOnly, Search;
    i := First(s.bufs, Candidate(s));
    SearchIs(s, t);
    if i < |s.bufs| {
      AvailableIff(s, s.bufs[i]);
    }
    hide Candidate;
    forall j | 0 <= j < i ensures !Available(s, s.bufs[j]) {
      AvailableIff(s, s.bufs[j]);
    }
  }

  /** A dequeue works on the new list if one was asked for, which uses the request up, and on the old
      one otherwise; no setting changes and nothing being posted is disturbed. */
  lemma EnterUsesRequest(s: State, t: Tid, made: seq<Buffer>)
    ensures var u := Enter(s, t, made).0;
            && u.bufs == ListFor(s, made) && u.front == FrontFor(s) && !u.allocate
            && u.ready == (s.ready || s.allocate)
            && u.count == s.count && u.usage == s.usage && u.format == s.format && u.posting == s.posting
  {
    hide First;
  }

  /** Who gets nothing sleeps: for the counter when nothing is free at all, in the search when only
      the front buffer is. */
  lemma SleepsWhere(s: State, t: Tid, made: seq<Buffer>)
    requires Inv(s) && s.ready && !s.allocate
    ensures var (u, r) := Enter(s, t, made);
            r == None ==> u == s.(waiting := s.waiting[t := if s.free == 0 then ForCounter else InSearch])
    ensures var (u, r) := Wake(s, t);
            r == None && t in s.waiting ==>
              u == s.(waiting := s.waiting[t := if s.waiting[t] == ForCounter && s.free == 0 then ForCounter
                                                 else InSearch])
  {
    hide Inv, First;
    assert t in s.waiting ==> s.waiting[t := s.waiting[t]] == s.waiting;
  }

  // ---- Giving back -----------------------------------------------------------------------

  /** What the return of a buffer leaves alone. */
  ghost predicate ReturnOnly(s: State, u: State, b: Buffer) {
    && u.bufs == s.bufs && u.busy.Keys == s.busy.Keys
    && (forall c | c in s.busy :: c != b ==> u.busy[c] == s.busy[c])
    && u.waiting == s.waiting && u.seen == s.seen && u.ready == s.ready
    && u.count == s.count && u.usage == s.usage && u.format == s.format && u.allocate == s.allocate
  }

  /** A buffer that a thread has out is flagged so and is not the front one. */
  lemma OutIsNotFront(s: State, h: Hold)
    requires Inv(s) && h in s.holders + s.posting
    ensures h.buffer in s.busy && s.busy[h.buffer] == (if h in s.holders then 1 else 2)
    ensures s.front != Some(h.buffer) && (h in s.holders ==> h !in s.posting)
  {
    HoldIsFlagged(s, h);
    if s.front.Some? {
      FrontIsFree(s);
    }
    hide Inv;
  }

  lemma ReturnsAre(s: State, t: Tid, b: Buffer)
    requires b in s.busy
    ensures ReturnOnly(s, Cancel(s, t, b), b) && ReturnOnly(s, QueueBegin(s, t, b), b)
    ensures ReturnOnly(s, QueueEnd(s, t, b), b)
  {
  }

  lemma FlagMoves(busy: map<Buffer, int>, b: Buffer, v: int, w: int)
    requires b in busy && busy[b] == v != w && v != 0
    ensures busy[b := w].Keys == busy.Keys
    ensures WithBusy(busy[b := w], 0) == if w == 0 then WithBusy(busy, 0) + {b} else WithBusy(busy, 0)
    ensures b !in WithBusy(busy, 0)
  {
  }

  /** A cancelled buffer is free again and the next search may take it; the front buffer stays. */
  lemma CancelGivesBack(s: State, t: Tid, b: Buffer)
    requires Inv(s) && Hold(t, b) in s.holders
    ensures var u := Cancel(s, t, b);
            && ReturnOnly(s, u, b) && b in s.busy && b in u.busy && s.busy[b] == 1 && u.busy[b] == 0
            && Hold(t, b) !in u.holders && u.holders + {Hold(t, b)} == s.holders && u.posting == s.posting
            && u.free == s.free + 1 && u.front == s.front
            && Candidates(u) == Candidates(s) + {b}
  {
    hide Inv, ReturnOnly;
    OutIsNotFront(s, Hold(t, b));
    ReturnsAre(s, t, b);
    FlagMoves(s.busy, b, 1, 0);
    TakeAndAdd(s.holders, Hold(t, b));
    hide WithBusy;
  }

  lemma TakeAndAdd(holds: set<Hold>, h: Hold)
    requires h in holds
    ensures holds - {h} + {h} == holds
  {
  }

  /** A buffer whose post begins passes from the threads that hold to the threads that post; nothing
      becomes free by it. */
  lemma PostBegins(s: State, t: Tid, b: Buffer)
    requires Inv(s) && Hold(t, b) in s.holders
    ensures var u := QueueBegin(s, t, b);
            && ReturnOnly(s, u, b) && b in s.busy && b in u.busy && s.busy[b] == 1 && u.busy[b] == 2
            && Hold(t, b) !in u.holders && u.holders + {Hold(t, b)} == s.holders
            && Hold(t, b) !in s.posting && u.posting == s.posting + {Hold(t, b)}
            && u.free == s.free && u.front == s.front && Candidates(u) == Candidates(s)
  {
    hide Inv, ReturnOnly;
    OutIsNotFront(s, Hold(t, b));
    ReturnsAre(s, t, b);
    FlagMoves(s.busy, b, 1, 2);
    TakeAndAdd(s.holders, Hold(t, b));
    hide WithBusy;
  }

  /** A buffer whose post has ended is the front one, kept back; what was free before, the old front
      buffer included, may be taken. */
  lemma PostEnds(s: State, t: Tid, b: Buffer)
    requires Inv(s) && Hold(t, b) in s.posting
    ensures var u := QueueEnd(s, t, b);
            && ReturnOnly(s, u, b) && b in s.busy && b in u.busy && s.busy[b] == 2 && u.busy[b] == 0
            && Hold(t, b) !in u.posting && u.posting + {Hold(t, b)} == s.posting && u.holders == s.holders
            && u.free == s.free + 1 && u.front == Some(b)
            && Candidates(u) == WithBusy(s.busy, 0)
  {
    hide Inv, ReturnOnly;
    OutIsNotFront(s, Hold(t, b));
    ReturnsAre(s, t, b);
    FlagMoves(s.busy, b, 2, 0);
    TakeAndAdd(s.posting, Hold(t, b));
    hide WithBusy;
  }

  lemma PutBack(busy: map<Buffer, int>, b: Buffer)
    requires b in busy && busy[b] == 0
    ensures busy[b := 1][b := 0] == busy && busy[b := 1][b := 2][b := 0] == busy
  {
  }

  lemma TakeOut(holds: set<Hold>, h: Hold)
    requires h !in holds
    ensures holds + {h} - {h} == holds
  {
  }

  /** The state with one free buffer handed to a thread. */
  ghost predicate Taken(s: State, u: State, t: Tid, b: Buffer) {
    && b in s.busy && s.busy[b] == 0 && Hold(t, b) !in s.holders && Hold(t, b) !in s.posting
    && u == s.(busy := s.busy[b := 1], free := s.free - 1, holders := s.holders + {Hold(t, b)},
               waiting := s.waiting - {t})
  }

  lemma DequeueIsTake(s: State, t: Tid)
    requires Inv(s) && s.ready && !s.allocate && Enter(s, t, []).1.Some?
    ensures Taken(s, Enter(s, t, []).0, t, Enter(s, t, []).1.value)
  {
    SearchHandsOutFree(s, t);
    var b := Search(s, t).1.value;
    assert b in Elems(s.bufs);
    if Hold(t, b) in s.holders + s.posting {
      HoldIsFlagged(s, Hold(t, b));
    }
    hide Inv, First;
  }

  lemma TakenAndBack(s: State, u: State, t: Tid, b: Buffer)
    requires Taken(s, u, t, b) && t !in s.waiting
    ensures Cancel(u, t, b) == s && QueueEnd(QueueBegin(u, t, b), t, b) == s.(front := Some(b))
  {
    PutBack(s.busy, b);
    TakeOut(s.holders, Hold(t, b));
    TakeOut(s.posting, Hold(t, b));
    assert s.waiting - {t} == s.waiting;
  }

  /** A dequeue that is cancelled leaves no trace. */
  lemma CancelUndoesDequeue(s: State, t: Tid)
    requires Inv(s) && s.ready && !s.allocate && t !in s.waiting && Enter(s, t, []).1.Some?
    ensures var (u, r) := Enter(s, t, []); Cancel(u, t, r.value) == s
  {
    hide Inv, Enter, Taken;
    DequeueIsTake(s, t);
    TakenAndBack(s, Enter(s, t, []).0, t, Enter(s, t, []).1.value);
  }

  /** A dequeue whose buffer is posted leaves that buffer the front one, and no other trace. */
  lemma PostAfterDequeue(s: State, t: Tid)
    requires Inv(s) && s.ready && !s.allocate && t !in s.waiting && Enter(s, t, []).1.Some?
    ensures var (u, r) := Enter(s, t, []);
            QueueEnd(QueueBegin(u, t, r.value), t, r.value) == s.(front := r)
  {
    hide Inv, Enter, Taken;
    DequeueIsTake(s, t);
    TakenAndBack(s, Enter(s, t, []).0, t, Enter(s, t, []).1.value);
  }

  // ---- Requests and settings over runs -----------------------------------------------------

  lemma {:induction false} ListStays(s: State, actions: seq<Action>)
    requires Inv(s) && s.ready && !s.allocate && forall a | a in actions :: !IsSetter(a)
    ensures var u := Run(s, actions); u.ready && !u.allocate && u.bufs == s.bufs && u.count == s.count
    decreases |actions|
  {
    hide Inv, Permitted, Step, IsSetter;
    if actions != [] && Permitted(s, actions[0]) {
      assert actions[0] in actions && forall a | a in actions[1..] :: a in actions;
      StepKeepsFront(s, actions[0]);
      StepKeepsInv(s, actions[0]);
      ListStays(Step(s, actions[0]), actions[1..]);
    }
  }

  /** A request for buffers is answered once: what a dequeue finds or makes stays the window's list
      over every interleaving without setters. */
  lemma ReallocatesOnce(s: State, t: Tid, made: seq<Buffer>, actions: seq<Action>)
    requires Inv(s) && Permitted(s, EnterDequeue(t, made)) && forall a | a in actions :: !IsSetter(a)
    ensures Run(Enter(s, t, made).0, actions).bufs == ListFor(s, made)
  {
    EnterUsesRequest(s, t, made);
    StepKeepsInv(s, EnterDequeue(t, made));
    hide Inv, Enter, Run, IsSetter;
    ListStays(Enter(s, t, made).0, actions);
  }

  datatype Setting = Count | Usage | Format

  function SettingOf(a: Action): Setting {
    if a.CountChange? then Count else if a.UsageChange? then Usage else Format
  }

  function Given(a: Action): int
    requires IsSetter(a)
  {
    match a
    case CountChange(count) => count
    case UsageChange(usage) => usage
    case FormatChange(format) => format
  }

  function Value(s: State, w: Setting): int {
    match w
    case Count => s.count
    case Usage => s.usage
    case Format => s.format
  }

  /** A setter stores its value and touches no other. */
  lemma StepStores(s: State, a: Action, w: Setting)
    requires IsSetter(a)
    ensures Value(Step(s, a), w) == if SettingOf(a) == w then Given(a) else Value(s, w)
  {
  }

  /** A value that no setter of the sequence sets stays. */
  lemma {:induction false} UnsetStays(s: State, setters: seq<Action>, w: Setting)
    requires forall a | a in setters :: IsSetter(a) && SettingOf(a) != w
    ensures Value(AfterSetters(s, setters), w) == Value(s, w)
    decreases |setters|
  {
    hide Step, IsSetter, SettingOf, Value, Given;
    if setters != [] {
      var n := |setters| - 1;
      assert setters[n] in setters && forall a | a in setters[..n] :: a in setters;
      StepStores(AfterSetters(s, setters[..n]), setters[n], w);
      UnsetStays(s, setters[..n], w);
    }
  }

  lemma {:induction false} AfterInTwo(s: State, a: seq<Action>, b: seq<Action>)
    ensures AfterSetters(s, a + b) == AfterSetters(AfterSetters(s, a), b)
    decreases |b|
  {
    hide Step;
    if b == [] {
      assert a + b == a;
    } else {
      var n := |b| - 1;
      assert (a + b)[..|a| + n] == a + b[..n];
      AfterInTwo(s, a, b[..n]);
    }
  }

  /** After any setters each value is the one given to it last. */
  lemma LastSetterStands(s: State, before: seq<Action>, a: Action, rest: seq<Action>)
    requires IsSetter(a) && forall c | c in rest :: IsSetter(c) && SettingOf(c) != SettingOf(a)
    ensures Value(AfterSetters(s, before + [a] + rest), SettingOf(a)) == Given(a)
  {
    var u := AfterSetters(s, before);
    AfterInTwo(s, before + [a], rest);
    AfterInTwo(s, before, [a]);
    assert [a][..0] == [];
    StepStores(u, a, SettingOf(a));
    hide Step, IsSetter, SettingOf, Value, Given;
    UnsetStays(AfterSetters(s, before + [a]), rest, SettingOf(a));
  }
}
