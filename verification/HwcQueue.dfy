/** The buffer ring of HWComposerNativeWindow: no busy flags, so which buffer is out is decided by
    arithmetic on the ring index alone, and each buffer carries a fence descriptor. */
module HwcQueue {
  import opened Lists

  /** HWComposerNativeWindowBuffer. fenceFd is -1 when no fence is stored. */
  class Buffer {
    var fenceFd: int

    constructor ()
      ensures fenceFd == -1
    {
      fenceFd := -1;
    }
  }

  type Fence = nat

  /** The process's descriptors: each open one refers to a fence. Names are not reused, so that a
      descriptor closed twice would show. `bad` counts close calls on descriptors not open. */
  datatype Fds = Fds(open: map<int, Fence>, next: nat, bad: nat)

  function Close(k: Fds, fd: int): Fds {
    if fd in k.open then k.(open := k.open - {fd}) else k.(bad := k.bad + 1)
  }

  /** dup: a new descriptor for the same fence, or -1 for a descriptor that is not open. */
  function Dup(k: Fds, fd: int): (Fds, int) {
    if fd in k.open then Install(k, k.open[fd]) else (k, -1)
  }

  function Install(k: Fds, f: Fence): (Fds, int) {
    (k.(open := k.open[k.next := f], next := k.next + 1), k.next)
  }

  /** `held` is what the client has out, oldest first, and `out[i]` the number of the dequeue that
      gave it `held[i]`; `taken` counts the dequeues since the buffers were allocated; `caller` are
      the descriptors that are the client's to close. */
  datatype State = State(
    bufs: seq<Buffer>, fence: map<Buffer, int>, next: nat, count: nat, usage: int, format: int,
    held: seq<Buffer>, out: seq<nat>, taken: nat, fds: Fds, caller: set<int>)

  // ---- The operations --------------------------------------------------------------------

  /** allocateBuffers: `made` are the buffers the allocator could provide. */
  function Allocate(s: State, made: seq<Buffer>): State {
    s.(bufs := made, fence := map b | b in made :: -1, next := 0, taken := 0)
  }

  datatype Result = Aborted | Got(buffer: Buffer, fenceFd: int)

  function Dequeue(s: State, wantFence: bool, made: seq<Buffer>): (State, Result) {
    var u := if s.bufs == [] then Allocate(s, made) else s;
    if u.bufs == [] || u.next >= |u.bufs| then (u, Aborted)
    else HandOut(u, wantFence)
  }

  /** The caller gets a duplicate of the fence, the window's own descriptor is closed. */
  function PassFence(k: Fds, fence: int, wantFence: bool): (Fds, int) {
    var (k2, out) := if wantFence then Dup(k, fence) else (k, -1);
    (if fence != -1 then Close(k2, fence) else k2, out)
  }

  function HandOut(s: State, wantFence: bool): (State, Result)
    requires s.next < |s.bufs|
  {
    var b := s.bufs[s.next];
    var (k, out) := PassFence(s.fds, FenceOf(s, b), wantFence);
    (s.(next := if s.next + 1 >= |s.bufs| then 0 else s.next + 1,
        held := s.held + [b], out := s.out + [s.taken], taken := s.taken + 1, fds := k, fence := s.fence[b := -1],
        caller := if out != -1 then s.caller + {out} else s.caller),
     Got(b, out))
  }

  function FenceOf(s: State, b: Buffer): int {
    if b in s.fence then s.fence[b] else -1
  }

  /** What the present callback does with the fence of the buffer it is given: leave it, or hand
      it to the display, which closes it, and store the release fence (or none) instead. */
  datatype Present = Keep | Replace(release: Option<Fence>)

  function PresentBuffer(s: State, b: Buffer, p: Present): State {
    match p
    case Keep => s
    case Replace(release) =>
      var k := if FenceOf(s, b) != -1 then Close(s.fds, FenceOf(s, b)) else s.fds;
      if release.Some? then
        var (k2, fd) := Install(k, release.value);
        s.(fds := k2, fence := s.fence[b := fd])
      else s.(fds := k, fence := s.fence[b := -1])
  }

  /** cancelBuffer for the i-th held buffer: the fence becomes the window's. */
  function Cancel(s: State, i: nat, fd: int): State
    requires i < |s.held| == |s.out|
  {
    s.(fence := s.fence[s.held[i] := fd], caller := s.caller - {fd},
       held := RemoveAt(s.held, i), out := RemoveAt(s.out, i))
  }

  /** queueBuffer's assert. */
  predicate QueueAssert(s: State, b: Buffer) {
    FenceOf(s, b) == -1
  }

  function Queue(s: State, i: nat, fd: int, p: Present): State
    requires i < |s.held| == |s.out|
  {
    PresentBuffer(Cancel(s, i, fd), s.held[i], p)
  }

  /** destroyBuffers forgets the fences its buffers store. */
  function Destroy(s: State): State {
    s.(bufs := [], fence := map[], next := 0, taken := 0)
  }

  // ---- The invariant ---------------------------------------------------------------------

  ghost function Stored(s: State): set<int> {
    set b | b in s.fence && s.fence[b] != -1 :: s.fence[b]
  }

  ghost predicate Ring(s: State) {
    && NoDup(s.bufs) && s.fence.Keys == Elems(s.bufs)
    && s.next == if s.bufs == [] then 0 else s.taken % |s.bufs|
  }

  /** Each held buffer is the one its dequeue found, the ring has not come round past it, and it
      stores no fence. The order in which the client returns them is its own affair. */
  ghost predicate Holding(s: State) {
    && |s.out| == |s.held| && (s.bufs == [] ==> s.held == [])
    && (forall i, j :: 0 <= i < j < |s.out| ==> s.out[i] < s.out[j])
    && (forall i :: 0 <= i < |s.out| ==>
          && s.out[i] < s.taken <= s.out[i] + |s.bufs|
          && s.held[i] == s.bufs[s.out[i] % |s.bufs|] && FenceOf(s, s.held[i]) == -1)
  }

  /** The client still has what it got as many dequeues ago as there are buffers. */
  predicate Overdue(s: State) {
    exists i :: 0 <= i < |s.out| && s.out[i] + |s.bufs| == s.taken
  }

  /** Every open descriptor is the client's or stored in exactly one buffer, and nothing has been
      closed twice. */
  ghost predicate Ledger(s: State) {
    && s.fds.open.Keys == s.caller + Stored(s)
    && s.caller !! Stored(s)
    && (forall b, c | b in s.fence && c in s.fence :: s.fence[b] == s.fence[c] != -1 ==> b == c)
    && (forall fd | fd in s.fds.open :: 0 <= fd < s.fds.next)
    && s.fds.bad == 0
  }

  ghost predicate Inv(s: State) {
    Ring(s) && Holding(s) && Ledger(s)
  }

  lemma Combine(s: State)
    requires Ring(s)
    requires Holding(s)
    requires Ledger(s)
    ensures Inv(s)
  {
  }

  // ---- Ring arithmetic -------------------------------------------------------------------

  lemma AtLeastOnce(n: int, k: int)
    requires n > 0 && k >= 1
    ensures n * k >= n
  {
  }

  /** Multiples of n less than n apart are equal. */
  lemma NoMultipleBetween(p: int, q: int, n: int)
    requires n > 0 && 0 - n < n * q - n * p < n
    ensures p == q
  {
    assert n * q - n * p == n * (q - p);
    assert n * p - n * q == n * (p - q);
    if q - p >= 1 {
      AtLeastOnce(n, q - p);
    } else if p - q >= 1 {
      AtLeastOnce(n, p - q);
    }
  }

  lemma ModOf(a: nat, q: nat, r: nat, n: nat)
    requires r < n && a == n * q + r
    ensures a % n == r
  {
    assert a == n * (a / n) + a % n;
    NoMultipleBetween(q, a / n, n);
  }

  lemma SameSlot(a: nat, b: nat, n: nat)
    requires n > 0 && a <= b < a + n && a % n == b % n
    ensures a == b
  {
    assert a == n * (a / n) + a % n && b == n * (b / n) + b % n;
    NoMultipleBetween(a / n, b / n, n);
  }

  lemma NextSlot(a: nat, n: nat)
    requires n > 0
    ensures (a + 1) % n == if a % n + 1 >= n then 0 else a % n + 1
  {
    var p := a / n;
    assert a == n * p + a % n;
    if a % n + 1 >= n {
      assert a + 1 == n * (p + 1);
      ModOf(a + 1, p + 1, 0, n);
    } else {
      ModOf(a + 1, p, a % n + 1, n);
    }
  }

  lemma ModPlus(a: nat, n: nat)
    requires n > 0
    ensures (a + n) % n == a % n
  {
    assert a == n * (a / n) + a % n;
    assert a + n == n * (a / n + 1) + a % n;
    ModOf(a + n, a / n + 1, a % n, n);
  }

  /** The slots of at most n consecutive numbers are different. */
  lemma SlotsDiffer(s: State, i: nat, j: nat)
    requires NoDup(s.bufs) && i < j < i + |s.bufs|
    ensures s.bufs[i % |s.bufs|] != s.bufs[j % |s.bufs|]
  {
    var n := |s.bufs|;
    if i % n == j % n {
      SameSlot(i, j, n);
    }
    Distinct(s.bufs);
  }

  lemma HeldIsDistinct(s: State)
    requires Ring(s) && Holding(s)
    ensures Pairwise(s.held)
  {
    forall i, j | 0 <= i < j < |s.held| ensures s.held[i] != s.held[j] {
      SlotsDiffer(s, s.out[i], s.out[j]);
    }
  }

  /** The buffer at the ring index is one the client holds exactly while it is overdue, whatever
      it has returned in between and in whatever order. */
  lemma NextIsHeldIff(s: State)
    requires Ring(s) && Holding(s) && s.bufs != []
    ensures s.next < |s.bufs|
    ensures s.bufs[s.next] in s.held <==> Overdue(s)
  {
    var n := |s.bufs|;
    forall i | 0 <= i < |s.held| ensures s.held[i] == s.bufs[s.next] <==> s.out[i] + n == s.taken {
      if s.out[i] + n == s.taken {
        ModPlus(s.out[i], n);
      } else {
        SlotsDiffer(s, s.out[i], s.taken);
      }
    }
    if s.bufs[s.next] in s.held {
      var i :| 0 <= i < |s.held| && s.held[i] == s.bufs[s.next];
      assert s.out[i] + n == s.taken;
    }
  }

  // ---- Every step keeps the invariant ------------------------------------------------------

  lemma AllocateKeepsInv(s: State, made: seq<Buffer>)
    requires Inv(s) && s.bufs == [] && NoDup(made)
    ensures Inv(Allocate(s, made))
  {
    var t := Allocate(s, made);
    assert Stored(s) == {} && Stored(t) == {};
    Combine(t);
  }

  /** Storing a descriptor of the client's in a buffer that stores none. */
  lemma StoreKeepsLedger(s: State, b: Buffer, fd: int)
    requires Ledger(s) && b in s.fence && s.fence[b] == -1 && (fd == -1 || fd in s.caller)
    ensures Ledger(s.(fence := s.fence[b := fd], caller := s.caller - {fd}))
    ensures fd != -1 ==> s.fds.open.Keys >= {fd} && fd !in Stored(s)
  {
    var t := s.(fence := s.fence[b := fd], caller := s.caller - {fd});
    if fd == -1 {
      assert t.fence == s.fence;
      assert t.caller == s.caller;
    } else {
      assert t.fence[b] in Stored(t);
      forall c | c in s.fence && s.fence[c] != -1 ensures s.fence[c] in Stored(t) {
        assert t.fence[c] == s.fence[c];
      }
      assert Stored(t) == Stored(s) + {fd};
    }
  }

  /** Taking the stored descriptor out of a buffer and closing it. */
  lemma CloseKeepsLedger(s: State, b: Buffer)
    requires Ledger(s) && b in s.fence && s.fence[b] != -1
    ensures s.fence[b] in s.fds.open
    ensures Ledger(s.(fence := s.fence[b := -1], fds := Close(s.fds, s.fence[b])))
  {
    var t := s.(fence := s.fence[b := -1], fds := Close(s.fds, s.fence[b]));
    assert s.fence[b] in Stored(s);
    forall c | c in s.fence && s.fence[c] != -1 && c != b ensures s.fence[c] in Stored(t) {
      assert t.fence[c] == s.fence[c];
    }
    assert Stored(t) == Stored(s) - {s.fence[b]};
  }

  /** A new descriptor that becomes the client's. */
  lemma InstallKeepsLedger(s: State, f: Fence)
    requires Ledger(s)
    ensures Ledger(s.(fds := Install(s.fds, f).0, caller := s.caller + {s.fds.next}))
    ensures s.fds.next !in s.fds.open
  {
  }

  lemma HandOutKeepsRing(s: State, wantFence: bool)
    requires Ring(s) && s.next < |s.bufs|
    ensures Ring(HandOut(s, wantFence).0)
  {
    NextSlot(s.taken, |s.bufs|);
    assert s.bufs[s.next] in Elems(s.bufs);
    assert HandOut(s, wantFence).0.fence.Keys == s.fence.Keys;
  }

  lemma HandOutKeepsHolding(s: State, wantFence: bool)
    requires Ring(s) && Holding(s) && s.next < |s.bufs| && !Overdue(s)
    ensures Holding(HandOut(s, wantFence).0)
  {
    var t, b := HandOut(s, wantFence).0, s.bufs[s.next];
    NextIsHeldIff(s);
    hide Ring, Overdue;
    forall i | 0 <= i < |t.out|
      ensures t.out[i] < t.taken <= t.out[i] + |t.bufs|
      ensures t.held[i] == t.bufs[t.out[i] % |t.bufs|] && FenceOf(t, t.held[i]) == -1
    {
      if i < |s.held| {
        assert t.held[i] == s.held[i] != b;
        assert t.out[i] == s.out[i];
        NotOverdue(s, i);
      } else {
        RingIndex(s);
      }
    }
  }

  lemma RingIndex(s: State)
    requires Ring(s) && s.bufs != []
    ensures s.next == s.taken % |s.bufs|
  {
  }

  lemma NotOverdue(s: State, i: nat)
    requires !Overdue(s) && i < |s.out|
    ensures s.out[i] + |s.bufs| != s.taken
  {
  }

  lemma HandOutKeepsLedger(s: State, wantFence: bool)
    requires Ledger(s) && s.next < |s.bufs| && s.bufs[s.next] in s.fence
    ensures Ledger(HandOut(s, wantFence).0)
  {
    var b := s.bufs[s.next];
    var t := HandOut(s, wantFence).0;
    var fence := s.fence[b];
    hide Ledger;
    if fence == -1 {
      assert s.fence[b := -1] == s.fence;
      MinusOneIsNotOpen(s);
      SameLedger(s, t);
    } else {
      CloseKeepsLedger(s, b);
      if wantFence {
        InstallKeepsLedger(s, s.fds.open[fence]);
        var u := s.(fds := Install(s.fds, s.fds.open[fence]).0, caller := s.caller + {s.fds.next});
        CloseKeepsLedger(u, b);
        NamesAreNatural(s);
        SameLedger(u.(fence := u.fence[b := -1], fds := Close(u.fds, fence)), t);
      } else {
        SameLedger(s.(fence := s.fence[b := -1], fds := Close(s.fds, fence)), t);
      }
    }
  }

  lemma NamesAreNatural(s: State)
    requires Ledger(s)
    ensures -1 !in s.fds.open && s.fds.next != -1
  {
  }

  lemma MinusOneIsNotOpen(s: State)
    requires Ledger(s)
    ensures -1 !in s.fds.open
  {
  }

  lemma SameLedger(s: State, t: State)
    requires Ledger(s) && t.fence == s.fence && t.fds == s.fds && t.caller == s.caller
    ensures Ledger(t)
  {
    assert Stored(t) == Stored(s);
  }

  /** A dequeue is safe exactly when the client is not overdue: then, and only then, it gets a
      buffer it does not hold, and the invariant goes on holding. */
  lemma DequeueIsSafeIff(s: State, wantFence: bool, made: seq<Buffer>)
    requires Inv(s) && (s.bufs == [] ==> NoDup(made))
    ensures Inv(Dequeue(s, wantFence, made).0) <==> !Overdue(s)
    ensures Dequeue(s, wantFence, made).1 == Aborted <==> s.bufs == [] && made == []
    ensures var r := Dequeue(s, wantFence, made).1;
            r.Got? ==> (r.buffer in s.held <==> Overdue(s))
  {
    var u := if s.bufs == [] then Allocate(s, made) else s;
    if s.bufs == [] {
      AllocateKeepsInv(s, made);
    }
    if u.bufs != [] {
      NextIsHeldIff(u);
      HandOutKeepsRing(u, wantFence);
      assert u.bufs[u.next] in Elems(u.bufs);
      HandOutKeepsLedger(u, wantFence);
      var t := HandOut(u, wantFence).0;
      if Overdue(u) {
        var i :| 0 <= i < |u.out| && u.out[i] + |u.bufs| == u.taken;
        assert t.out[i] == u.out[i];
        assert !Holding(t);
      } else {
        HandOutKeepsHolding(u, wantFence);
        hide Ledger, Holding, Ring;
        Combine(t);
      }
    }
  }

  lemma RingOf(s: State)
    requires Inv(s)
    ensures Ring(s)
  {
  }

  /** dequeueBuffer's second assert, for any client. */
  lemma IndexInRange(s: State, u: State, made: seq<Buffer>)
    requires Ring(s) && u == (if s.bufs == [] then Allocate(s, made) else s) && u.bufs != []
    ensures u.next < |u.bufs|
  {
  }

  /** The fence of a buffer the client does not hold is none of the ring's business. */
  lemma FenceKeepsRing(s: State, b: Buffer, t: State)
    requires Ring(s) && Holding(s) && b in s.fence && b !in s.held
    requires t == s.(fence := t.fence, fds := t.fds, caller := t.caller)
    requires t.fence.Keys == s.fence.Keys && forall c | c in s.fence :: c != b ==> t.fence[c] == s.fence[c]
    ensures Ring(t) && Holding(t)
  {
  }

  /** queueBuffer's assert never fires for a buffer the client holds. */
  lemma HeldStoresNoFence(s: State, i: nat)
    requires Inv(s) && i < |s.held|
    ensures |s.out| == |s.held| && QueueAssert(s, s.held[i]) && s.held[i] in s.fence
  {
    assert s.held[i] == s.bufs[s.out[i] % |s.bufs|];
    assert s.held[i] in Elems(s.bufs);
  }

  lemma CancelKeepsRing(s: State, i: nat, fd: int)
    requires Ring(s) && Holding(s) && i < |s.held| && s.held[i] in s.fence
    ensures Ring(Cancel(s, i, fd)) && Holding(Cancel(s, i, fd))
    ensures s.held[i] !in Cancel(s, i, fd).held
  {
    var t, b := Cancel(s, i, fd), s.held[i];
    HeldIsDistinct(s);
    hide NoDup;
    assert t.fence.Keys == s.fence.Keys;
    forall j | 0 <= j < |t.held|
      ensures t.held[j] != b && FenceOf(t, t.held[j]) == -1
      ensures t.out[j] < t.taken <= t.out[j] + |t.bufs| && t.held[j] == t.bufs[t.out[j] % |t.bufs|]
    {
      var k := if j < i then j else j + 1;
      assert t.held[j] == s.held[k] && t.out[j] == s.out[k];
    }
  }

  /** A held buffer may be returned whatever its age. */
  lemma CancelKeepsInv(s: State, i: nat, fd: int)
    requires Inv(s) && i < |s.held| && (fd == -1 || fd in s.caller)
    ensures |s.out| == |s.held|
    ensures Inv(Cancel(s, i, fd)) && s.held[i] !in Cancel(s, i, fd).held && s.held[i] in s.fence
  {
    HeldStoresNoFence(s, i);
    CancelKeepsRing(s, i, fd);
    StoreKeepsLedger(s, s.held[i], fd);
    hide Ring, Holding, Ledger;
    SameLedger(s.(fence := s.fence[s.held[i] := fd], caller := s.caller - {fd}), Cancel(s, i, fd));
    Combine(Cancel(s, i, fd));
  }

  lemma PresentKeepsInv(s: State, b: Buffer, p: Present)
    requires Inv(s) && b in s.fence && b !in s.held
    ensures Inv(PresentBuffer(s, b, p))
  {
    var t := PresentBuffer(s, b, p);
    if p.Replace? {
      FenceKeepsRing(s, b, t);
      PresentKeepsLedger(s, b, p);
      hide Ring, Holding, Ledger;
      Combine(t);
    }
  }

  lemma PresentKeepsLedger(s: State, b: Buffer, p: Present)
    requires Ledger(s) && b in s.fence && p.Replace?
    ensures Ledger(PresentBuffer(s, b, p))
  {
    var k := if s.fence[b] != -1 then Close(s.fds, s.fence[b]) else s.fds;
    var u := s.(fds := k, fence := s.fence[b := -1]);
    if s.fence[b] != -1 {
      CloseKeepsLedger(s, b);
    }
    assert s.fence[b] == -1 ==> u.fence == s.fence;
    hide Ledger;
    if s.fence[b] == -1 {
      SameLedger(s, u);
    }
    if p.release.Some? {
      var f := p.release.value;
      InstallKeepsLedger(u, f);
      var v := u.(fds := Install(k, f).0, caller := s.caller + {k.next});
      StoreKeepsLedger(v, b, k.next);
      NotCallers(u);
      assert s.caller + {k.next} - {k.next} == s.caller;
      SameLedger(v.(fence := v.fence[b := k.next], caller := v.caller - {k.next}), PresentBuffer(s, b, p));
    }
  }

  lemma NotCallers(s: State)
    requires Ledger(s)
    ensures s.fds.next !in s.caller
  {
  }

  /** destroyBuffers keeps the invariant exactly when nothing is out and no buffer stores a fence: a
      buffer still out would be none of the ring's, and a stored fence is never closed and belongs to
      nobody any more. */
  lemma DestroyKeepsInvIff(s: State)
    requires Inv(s)
    ensures Inv(Destroy(s)) <==> s.held == [] && forall b | b in s.bufs :: FenceOf(s, b) == -1
    ensures Destroy(s).fds.open.Keys - Destroy(s).caller == Stored(s)
  {
    var t := Destroy(s);
    assert Stored(t) == {};
    if s.held != [] {
      assert !Holding(t);
    } else if forall b | b in s.bufs :: FenceOf(s, b) == -1 {
      forall b | b in s.fence ensures s.fence[b] == -1 {
        assert b in Elems(s.bufs);
      }
      assert Stored(s) == {};
      Combine(t);
    } else {
      var b :| b in s.bufs && FenceOf(s, b) != -1;
      assert b in Elems(s.bufs);
      assert s.fence[b] in Stored(s);
      assert s.fence[b] in t.fds.open && s.fence[b] !in t.caller;
    }
  }

  // ---- Runs ------------------------------------------------------------------------------

  datatype Op =
    | DequeueOp(wantFence: bool, made: seq<Buffer>)
    | QueueOp(queued: nat, queueFd: int, present: Present)
    | CancelOp(cancelled: nat, cancelFd: int)
    | SettingOp(count: nat, usage: int, format: int)
    | ObtainFence(fence: Fence)
    | CloseOwn(ownFd: int)

  /** What every client owes: it returns only what it holds, in any order; a descriptor given away
      was its own; a setting changes only while nothing is out and no buffer stores a fence. And what
      allocateBuffers makes is new, and no more than was asked for. */
  ghost predicate Owed(s: State, op: Op) {
    match op
    case DequeueOp(_, made) => s.bufs == [] ==> NoDup(made) && |made| <= s.count
    case QueueOp(i, fd, _) => i < |s.held| && (fd == -1 || fd in s.caller)
    case CancelOp(i, fd) => i < |s.held| && (fd == -1 || fd in s.caller)
    case SettingOp(count, usage, format) =>
      Changes(s, count, usage, format) ==>
        s.held == [] && forall b | b in s.bufs :: FenceOf(s, b) == -1
    case ObtainFence(_) => true
    case CloseOwn(fd) => fd in s.caller
  }

  /** What the ring asks besides: no dequeue while overdue. */
  ghost predicate Permitted(s: State, op: Op) {
    Owed(s, op) && (op.DequeueOp? ==> !Overdue(s))
  }

  predicate Changes(s: State, count: nat, usage: int, format: int) {
    count != s.count || usage != s.usage || format != s.format
  }

  /** setBufferCount, setUsage and setBuffersFormat: destroy the buffers on a change, then store. */
  function Set(s: State, count: nat, usage: int, format: int): State {
    (if Changes(s, count, usage, format) then Destroy(s) else s)
      .(count := count, usage := usage, format := format)
  }

  function Step(s: State, op: Op): State {
    match op
    case DequeueOp(wantFence, made) => Dequeue(s, wantFence, made).0
    case QueueOp(i, fd, p) => if i < |s.held| == |s.out| then Queue(s, i, fd, p) else s
    case CancelOp(i, fd) => if i < |s.held| == |s.out| then Cancel(s, i, fd) else s
    case SettingOp(count, usage, format) => Set(s, count, usage, format)
    case ObtainFence(f) => s.(fds := Install(s.fds, f).0, caller := s.caller + {s.fds.next})
    case CloseOwn(fd) => s.(fds := Close(s.fds, fd), caller := s.caller - {fd})
  }

  lemma QueueKeepsInv(s: State, i: nat, fd: int, p: Present)
    requires Inv(s) && i < |s.held| && (fd == -1 || fd in s.caller)
    ensures |s.out| == |s.held| && Inv(Queue(s, i, fd, p))
  {
    hide Inv;
    CancelKeepsInv(s, i, fd);
    PresentKeepsInv(Cancel(s, i, fd), s.held[i], p);
  }

  lemma SettingsAside(s: State, count: nat, usage: int, format: int)
    ensures Inv(s.(count := count, usage := usage, format := format)) <==> Inv(s)
  {
    assert Stored(s.(count := count, usage := usage, format := format)) == Stored(s);
  }

  lemma SetKeepsInvIff(s: State, count: nat, usage: int, format: int)
    requires Inv(s)
    ensures Inv(Set(s, count, usage, format)) <==> Permitted(s, SettingOp(count, usage, format))
  {
    DestroyKeepsInvIff(s);
    SettingsAside(if Changes(s, count, usage, format) then Destroy(s) else s, count, usage, format);
    hide Inv;
  }

  lemma CloseOwnKeepsLedger(s: State, fd: int)
    requires Ledger(s) && fd in s.caller
    ensures Ledger(s.(fds := Close(s.fds, fd), caller := s.caller - {fd}))
  {
    assert Stored(s.(fds := Close(s.fds, fd), caller := s.caller - {fd})) == Stored(s);
  }

  lemma FdsKeepInv(s: State, op: Op)
    requires Inv(s) && Permitted(s, op) && (op.ObtainFence? || op.CloseOwn?)
    ensures Inv(Step(s, op))
  {
    if op.ObtainFence? {
      InstallKeepsLedger(s, op.fence);
    } else {
      CloseOwnKeepsLedger(s, op.ownFd);
    }
    hide Ledger, NoDup;
    Combine(Step(s, op));
  }

  lemma StepKeepsInv(s: State, op: Op)
    requires Inv(s) && Permitted(s, op)
    ensures Inv(Step(s, op))
  {
    hide Inv;
    match op
    case DequeueOp(wantFence, made) => DequeueIsSafeIff(s, wantFence, made);
    case QueueOp(i, fd, p) => QueueKeepsInv(s, i, fd, p);
    case CancelOp(i, fd) => CancelKeepsInv(s, i, fd);
    case SettingOp(count, usage, format) => SetKeepsInvIff(s, count, usage, format);
    case ObtainFence(_) => FdsKeepInv(s, op);
    case CloseOwn(_) => FdsKeepInv(s, op);
  }

  ghost function Run(s: State, ops: seq<Op>): State
    decreases |ops|
  {
    if ops == [] || !Permitted(s, ops[0]) then s else Run(Step(s, ops[0]), ops[1..])
  }

  lemma {:induction false} RunKeepsInv(s: State, ops: seq<Op>)
    requires Inv(s)
    ensures Inv(Run(s, ops))
    decreases |ops|
  {
    hide Inv;
    if ops != [] && Permitted(s, ops[0]) {
      StepKeepsInv(s, ops[0]);
      RunKeepsInv(Step(s, ops[0]), ops[1..]);
    }
  }

  function Start(count: nat, usage: int, format: int): State {
    State([], map[], 0, count, usage, format, [], [], 0, Fds(map[], 0, 0), {})
  }

  ghost function Reached(count: nat, usage: int, format: int, ops: seq<Op>): (s: State)
    ensures Inv(s)
  {
    StartInv(count, usage, format);
    RunKeepsInv(Start(count, usage, format), ops);
    Run(Start(count, usage, format), ops)
  }

  lemma StartInv(count: nat, usage: int, format: int)
    ensures Inv(Start(count, usage, format))
  {
    var s := Start(count, usage, format);
    assert Elems(s.bufs) == {} && Stored(s) == {};
    Combine(s);
  }

  // ---- What holds in every run -----------------------------------------------------------

  /** Ring safety: no buffer is held twice, the index stays in range, and queueBuffer's assert
      holds of every buffer the client could return. */
  lemma RingIsSafe(count: nat, usage: int, format: int, ops: seq<Op>)
    ensures var s := Reached(count, usage, format, ops);
            && Pairwise(s.held)
            && (s.bufs != [] ==> s.next < |s.bufs|)
            && (forall b | b in s.held :: b in s.bufs && QueueAssert(s, b))
  {
    var s := Reached(count, usage, format, ops);
    HeldIsDistinct(s);
    forall b | b in s.held ensures b in s.bufs && QueueAssert(s, b) {
      var i :| 0 <= i < |s.held| && s.held[i] == b;
      HeldStoresNoFence(s, i);
      assert b in Elems(s.bufs);
    }
  }

  /** Descriptors: each open one belongs to the client or to exactly one buffer, and no close ever
      failed. */
  lemma FencesAreConserved(count: nat, usage: int, format: int, ops: seq<Op>, fd: int)
    ensures var s := Reached(count, usage, format, ops);
            && s.fds.bad == 0
            && (fd in s.fds.open <==> fd in s.caller || exists b :: b in s.fence && s.fence[b] == fd != -1)
            && (forall b, c | b in s.fence && c in s.fence :: s.fence[b] == s.fence[c] == fd != -1 ==> b == c)
            && (fd in s.caller ==> forall b | b in s.fence :: s.fence[b] == -1 || s.fence[b] != fd)
  {
    var s := Reached(count, usage, format, ops);
    assert fd in Stored(s) <==> exists b :: b in s.fence && s.fence[b] == fd != -1;
    forall b | b in s.fence && s.fence[b] != -1 ensures s.fence[b] in Stored(s) {
    }
  }

  /** Between reallocations the i-th dequeue returns buffer i mod n; it is new to the client; and
      the fence stored in it goes to the caller as one duplicate, the original being closed. */
  lemma DequeueReturnsSlot(s: State, wantFence: bool, made: seq<Buffer>)
    requires Inv(s) && Permitted(s, DequeueOp(wantFence, made)) && (s.bufs != [] || made != [])
    ensures var (t, r) := Dequeue(s, wantFence, made);
            r.Got? && t.bufs != [] && t.bufs == if s.bufs == [] then made else s.bufs
    ensures var (t, r) := Dequeue(s, wantFence, made);
            && t.taken == 1 + (if s.bufs == [] then 0 else s.taken)
            && r.buffer == t.bufs[(t.taken - 1) % |t.bufs|]
            && r.buffer !in s.held && t.held == s.held + [r.buffer]
    ensures var (t, r) := Dequeue(s, wantFence, made);
            var stored := FenceOf(s, r.buffer);
            && FenceOf(t, r.buffer) == -1 && stored !in t.fds.open
            && (stored == -1 ==> r.fenceFd == -1)
            && (stored != -1 && wantFence ==>
                  && r.fenceFd !in s.fds.open && r.fenceFd in t.caller
                  && stored in s.fds.open && r.fenceFd in t.fds.open
                  && t.fds.open[r.fenceFd] == s.fds.open[stored])
  {
    var u := if s.bufs == [] then Allocate(s, made) else s;
    if s.bufs == [] {
      AllocateKeepsInv(s, made);
    }
    NextIsHeldIff(u);
    hide Holding, Overdue, NoDup;
    var b := u.bufs[u.next];
    assert b in Elems(u.bufs);
    if FenceOf(u, b) != -1 {
      assert u.fence[b] in Stored(u);
    }
  }

  /** The step that takes buffer b. */
  predicate Takes(s: State, op: Op, b: Buffer) {
    op.DequeueOp? && Dequeue(s, op.wantFence, op.made).1.Got? && Dequeue(s, op.wantFence, op.made).1.buffer == b
  }

  ghost predicate Keeps(s: State, t: State, b: Buffer) {
    && b in s.fence && b in t.fence && t.fence[b] == s.fence[b] && s.fence[b] in s.fds.open
    && s.fence[b] in t.fds.open && t.fds.open[s.fence[b]] == s.fds.open[s.fence[b]]
  }

  lemma DequeueKeepsOthers(s: State, wantFence: bool, made: seq<Buffer>, b: Buffer)
    requires Inv(s) && !Overdue(s) && b in s.fence && s.fence[b] != -1
    ensures var (t, r) := Dequeue(s, wantFence, made);
            if r.Got? && r.buffer == b then s.fence[b] !in t.fds.open else Keeps(s, t, b)
  {
    assert s.fence[b] in Stored(s) && b in Elems(s.bufs);
    NextIsHeldIff(s);
    assert s.bufs[s.next] in Elems(s.bufs);
    assert s.bufs[s.next] != b ==> s.fence[s.bufs[s.next]] != s.fence[b];
    hide Ring, Holding, Overdue, NoDup, Elems, Stored;
  }

  lemma ReturnKeepsOthers(s: State, i: nat, fd: int, p: Present, b: Buffer)
    requires Inv(s) && i < |s.held| && b in s.fence && s.fence[b] != -1 && (fd == -1 || fd in s.caller)
    ensures |s.out| == |s.held| && Keeps(s, Cancel(s, i, fd), b) && Keeps(s, Queue(s, i, fd, p), b)
  {
    HeldStoresNoFence(s, i);
    assert s.fence[b] in Stored(s);
    assert fd in s.caller ==> fd != s.fence[b];
    hide Ring, Holding, NoDup, Elems, Stored;
  }

  lemma OneStepKeeps(s: State, op: Op, b: Buffer)
    requires Inv(s) && Permitted(s, op) && b in s.fence && s.fence[b] != -1
    ensures if Takes(s, op, b) then s.fence[b] !in Step(s, op).fds.open else Keeps(s, Step(s, op), b)
  {
    assert s.fence[b] in Stored(s) && b in Elems(s.bufs);
    if op.DequeueOp? {
      hide Inv, Overdue, Dequeue;
      DequeueKeepsOthers(s, op.wantFence, op.made, b);
    } else if op.QueueOp? {
      hide Inv, Queue;
      ReturnKeepsOthers(s, op.queued, op.queueFd, op.present, b);
    } else if op.CancelOp? {
      hide Inv, Cancel;
      ReturnKeepsOthers(s, op.cancelled, op.cancelFd, Keep, b);
    } else {
      hide Ring, Holding, NoDup, Elems, Stored;
    }
  }

  /** No step of the run takes buffer b. */
  ghost predicate NeverTakes(s: State, ops: seq<Op>, b: Buffer)
    decreases |ops|
  {
    ops == [] || !Permitted(s, ops[0]) || (!Takes(s, ops[0], b) && NeverTakes(Step(s, ops[0]), ops[1..], b))
  }

  /** A stored fence stays in its buffer, under its descriptor, over every run that does not
      dequeue that buffer; the dequeue that does closes it. */
  lemma {:induction false} StoredFenceStays(s: State, ops: seq<Op>, b: Buffer)
    requires Inv(s) && b in s.fence && s.fence[b] != -1 && NeverTakes(s, ops, b)
    ensures Keeps(s, Run(s, ops), b)
    ensures forall op :: Permitted(Run(s, ops), op) && Takes(Run(s, ops), op, b) ==>
              s.fence[b] !in Step(Run(s, ops), op).fds.open
    decreases |ops|
  {
    if ops == [] || !Permitted(s, ops[0]) {
      assert s.fence[b] in Stored(s);
      forall op | Permitted(s, op) && Takes(s, op, b) ensures s.fence[b] !in Step(s, op).fds.open {
        OneStepKeeps(s, op, b);
      }
    } else {
      OneStepKeeps(s, ops[0], b);
      StepKeepsInv(s, ops[0]);
      hide Inv, Step, Permitted, Takes;
      StoredFenceStays(Step(s, ops[0]), ops[1..], b);
    }
  }

  // ---- Which clients are safe --------------------------------------------------------------

  /** Every dequeue of the run, made by a client that keeps to `Owed`, hands out a buffer that is
      not held. */
  ghost predicate NeverTwice(s: State, ops: seq<Op>)
    decreases |ops|
  {
    ops == [] || !Owed(s, ops[0]) ||
    (&& (ops[0].DequeueOp? ==>
           var r := Dequeue(s, ops[0].wantFence, ops[0].made).1; r.Got? ==> r.buffer !in s.held)
     && NeverTwice(Step(s, ops[0]), ops[1..]))
  }

  /** No dequeue of the run is made while overdue. */
  ghost predicate NeverOverdue(s: State, ops: seq<Op>)
    decreases |ops|
  {
    ops == [] || !Owed(s, ops[0]) ||
    ((ops[0].DequeueOp? ==> !Overdue(s)) && NeverOverdue(Step(s, ops[0]), ops[1..]))
  }

  lemma OverdueHasBuffers(s: State)
    requires Inv(s) && Overdue(s)
    ensures s.bufs != []
  {
  }

  /** Exactly which clients the ring is safe for, over every run and every order of returns: those
      that never dequeue before they have returned what they got n dequeues earlier. */
  lemma {:induction false} SafeRunIff(s: State, ops: seq<Op>)
    requires Inv(s)
    ensures NeverTwice(s, ops) <==> NeverOverdue(s, ops)
    decreases |ops|
  {
    if ops != [] && Owed(s, ops[0]) {
      var op := ops[0];
      if op.DequeueOp? {
        DequeueIsSafeIff(s, op.wantFence, op.made);
      }
      if op.DequeueOp? && Overdue(s) {
        OverdueHasBuffers(s);
        hide Inv;
      } else {
        StepKeepsInv(s, op);
        hide Inv, Overdue, Owed;
        SafeRunIff(Step(s, op), ops[1..]);
      }
    }
  }

  /** The client holds what it took last, as one that returns the oldest first does. */
  predicate OldestFirst(s: State) {
    |s.out| == |s.held| <= s.taken && forall i :: 0 <= i < |s.out| ==> s.out[i] == s.taken - |s.held| + i
  }

  /** A return of the oldest, or a dequeue with fewer than all buffers out. */
  predicate InOrder(s: State, op: Op) {
    match op
    case DequeueOp(_, _) => s.bufs == [] || |s.held| < |s.bufs|
    case QueueOp(i, _, _) => i == 0
    case CancelOp(i, _) => i == 0
    case _ => true
  }

  /** For a client that returns the oldest first, being overdue is holding all the buffers. */
  lemma OverdueInOrderIff(s: State)
    requires Inv(s) && OldestFirst(s) && s.bufs != []
    ensures Overdue(s) <==> |s.held| == |s.bufs|
    ensures |s.held| <= |s.bufs|
  {
    if s.out != [] {
      assert s.out[0] == s.taken - |s.held|;
    }
  }

  lemma HandOutKeepsOrder(s: State, wantFence: bool)
    requires OldestFirst(s) && s.next < |s.bufs|
    ensures OldestFirst(HandOut(s, wantFence).0)
  {
    hide PassFence, FenceOf;
  }

  lemma OldestBack(s: State, fd: int, p: Present)
    requires OldestFirst(s) && s.held != []
    ensures OldestFirst(Cancel(s, 0, fd)) && OldestFirst(Queue(s, 0, fd, p))
  {
    hide Close, Install, FenceOf;
  }

  lemma SetKeepsOrder(s: State, count: nat, usage: int, format: int)
    requires OldestFirst(s) && Owed(s, SettingOp(count, usage, format))
    ensures OldestFirst(Set(s, count, usage, format))
  {
  }

  lemma DequeueKeepsOrder(s: State, wantFence: bool, made: seq<Buffer>)
    requires Inv(s) && OldestFirst(s)
    ensures OldestFirst(Dequeue(s, wantFence, made).0)
  {
    var u := if s.bufs == [] then Allocate(s, made) else s;
    assert s.bufs == [] ==> s.held == [];
    if u.bufs != [] && u.next < |u.bufs| {
      hide HandOut, Inv;
      HandOutKeepsOrder(u, wantFence);
    }
  }

  /** So such a client is safe as long as it never asks for more than there are. */
  lemma InOrderIsPermitted(s: State, op: Op)
    requires Inv(s) && OldestFirst(s) && Owed(s, op) && InOrder(s, op)
    ensures Permitted(s, op) && Inv(Step(s, op)) && OldestFirst(Step(s, op))
  {
    assert Permitted(s, op) by {
      if s.bufs != [] {
        OverdueInOrderIff(s);
      } else if Overdue(s) {
        OverdueHasBuffers(s);
      }
    }
    hide Inv, Overdue;
    StepKeepsInv(s, op);
    hide OldestFirst, Dequeue, Queue, Cancel, Set;
    match op
    case DequeueOp(wantFence, made) => DequeueKeepsOrder(s, wantFence, made);
    case QueueOp(_, fd, p) => OldestBack(s, fd, p);
    case CancelOp(_, fd) => OldestBack(s, fd, Keep);
    case SettingOp(count, usage, format) => SetKeepsOrder(s, count, usage, format);
    case ObtainFence(f) => SameHeld(s, Step(s, op));
    case CloseOwn(fd) => SameHeld(s, Step(s, op));
  }

  lemma SameHeld(s: State, t: State)
    requires OldestFirst(s) && t.held == s.held && t.out == s.out && t.taken == s.taken
    ensures OldestFirst(t)
  {
  }

  ghost predicate AllInOrder(s: State, ops: seq<Op>)
    decreases |ops|
  {
    ops == [] || !Owed(s, ops[0]) || (InOrder(s, ops[0]) && AllInOrder(Step(s, ops[0]), ops[1..]))
  }

  lemma {:induction false} InOrderRunIsSafe(s: State, ops: seq<Op>)
    requires Inv(s) && OldestFirst(s) && AllInOrder(s, ops)
    ensures NeverOverdue(s, ops) && NeverTwice(s, ops)
    decreases |ops|
  {
    hide Inv, OldestFirst, InOrder, Owed, Step;
    if ops != [] && Owed(s, ops[0]) {
      InOrderIsPermitted(s, ops[0]);
      InOrderRunIsSafe(Step(s, ops[0]), ops[1..]);
    }
    SafeRunIff(s, ops);
  }

  /** What a client may do with a new window of two buffers: take both and return the younger. */
  function YoungerFirst(a: Buffer, b: Buffer, f: Fence): seq<Op> {
    [ObtainFence(f), DequeueOp(true, [a, b]), DequeueOp(true, []), QueueOp(1, -1, Keep)]
  }

  /** After that run, in which it never holds more than the two buffers there are, the client is
      overdue: the next dequeue hands it the buffer it still holds, and returning that twice, the
      first time with its fence, fires queueBuffer's assert. */
  lemma OutOfOrderHoldsTwice(count: nat, usage: int, format: int, a: Buffer, b: Buffer, f: Fence)
    requires a != b && count >= 2
    ensures var s := Reached(count, usage, format, YoungerFirst(a, b, f));
            var t := Dequeue(s, true, []).0;
            && s.bufs == [a, b] && s.held == [a] && Overdue(s) && t.held == [a, a] && |t.out| == 2
            && 0 in t.caller && !QueueAssert(Queue(t, 0, 0, Keep), t.held[1])
  {
    var s0 := Start(count, usage, format);
    var s1 := Step(s0, ObtainFence(f));
    var s2 := Step(s1, DequeueOp(true, [a, b]));
    var s3 := Step(s2, DequeueOp(true, []));
    FirstTwo(s1, a, b);
    YoungerBack(s3, a, b, 0);
    YoungerRun(s0, s1, s2, s3, a, b, f);
    hide Run, Step, Dequeue, Queue, Permitted;
  }

  /** The run is permitted throughout. */
  lemma YoungerRun(s0: State, s1: State, s2: State, s3: State, a: Buffer, b: Buffer, f: Fence)
    requires s1 == Step(s0, ObtainFence(f)) && s1.bufs == [] && s1.out == [] && a != b && s1.count >= 2
    requires s2 == Step(s1, DequeueOp(true, [a, b])) && s2.bufs == [a, b] && s2.out == [0] && s2.taken == 1
    requires s3 == Step(s2, DequeueOp(true, [])) && s3.held == [a, b] && |s3.out| == 2
    ensures Run(s0, YoungerFirst(a, b, f)) == Queue(s3, 1, -1, Keep)
  {
    hide Dequeue, Queue;
    var ops := YoungerFirst(a, b, f);
    assert ops[1..] == [DequeueOp(true, [a, b]), DequeueOp(true, []), QueueOp(1, -1, Keep)];
    assert ops[1..][1..] == [DequeueOp(true, []), QueueOp(1, -1, Keep)];
    assert ops[1..][1..][1..] == [QueueOp(1, -1, Keep)];
    assert ops[1..][1..][1..][1..] == [];
    assert NoDup([a, b]) by { Distinct([a, b]); }
    var s4 := Queue(s3, 1, -1, Keep);
    assert Run(s4, []) == s4;
    assert Run(s3, [QueueOp(1, -1, Keep)]) == Run(s4, []);
    assert Permitted(s2, DequeueOp(true, []));
    assert Run(s2, ops[1..][1..]) == Run(s3, ops[1..][1..][1..]);
    assert Run(s1, ops[1..]) == Run(s2, ops[1..][1..]);
  }

  lemma FirstTwo(s: State, a: Buffer, b: Buffer)
    requires s.bufs == [] && s.held == [] && s.out == [] && -1 !in s.fds.open && a != b
    ensures var t := Dequeue(s, true, [a, b]).0;
            && t.bufs == [a, b] && t.out == [0] && t.taken == 1
            && var u := Dequeue(t, true, []).0;
            && u.bufs == [a, b] && u.held == [a, b] && u.out == [0, 1] && u.taken == 2 && u.next == 0
            && FenceOf(u, a) == -1 == FenceOf(u, b) && u.fds == s.fds && u.caller == s.caller
  {
    var v := Allocate(s, [a, b]);
    DequeueEffect(v, true);
    BothOut(v, a, b);
  }

  lemma BothOut(s: State, a: Buffer, b: Buffer)
    requires s.bufs == [a, b] && s.held == [] && s.out == [] && s.taken == 0 == s.next && -1 !in s.fds.open
    requires FenceOf(s, a) == -1 == FenceOf(s, b)
    ensures var t := Dequeue(Dequeue(s, true, []).0, true, []).0;
            && t.bufs == s.bufs && t.held == [a, b] && t.out == [0, 1] && t.taken == 2 && t.next == 0
            && FenceOf(t, a) == -1 == FenceOf(t, b) && t.fds == s.fds && t.caller == s.caller
  {
    DequeueEffect(s, true);
    var u := Dequeue(s, true, []).0;
    hide Dequeue;
    DequeueEffect(u, true);
  }

  lemma YoungerBack(s: State, a: Buffer, b: Buffer, fd: int)
    requires s.bufs == s.held == [a, b] && s.out == [0, 1] && s.taken == 2 && s.next == 0
    requires FenceOf(s, a) == -1 == FenceOf(s, b) && -1 !in s.fds.open && fd in s.fds.open
    ensures var t := Queue(s, 1, -1, Keep);
            var u := Dequeue(t, true, []).0;
            && t.held == [a] && Overdue(t) && u.held == [a, a] && |u.out| == 2
            && !QueueAssert(Queue(u, 0, fd, Keep), u.held[1])
  {
    var t := Queue(s, 1, -1, Keep);
    assert t.held == [a] && t.out == [0] && t.out[0] + |t.bufs| == t.taken;
    DequeueEffect(t, true);
    var u := Dequeue(t, true, []).0;
    hide Dequeue;
    assert u.held == [a, a] && u.out == [0, 2];
    assert Queue(u, 0, fd, Keep).fence[a] == fd;
  }

  /** A dequeue of a buffer without a fence, in full. */
  lemma DequeueEffect(s: State, wantFence: bool)
    requires s.next < |s.bufs| && FenceOf(s, s.bufs[s.next]) == -1 && -1 !in s.fds.open
    ensures var b := s.bufs[s.next];
            Dequeue(s, wantFence, []) ==
            (s.(next := if s.next + 1 >= |s.bufs| then 0 else s.next + 1, held := s.held + [b],
                out := s.out + [s.taken], taken := s.taken + 1, fence := s.fence[b := -1]), Got(b, -1))
  {
  }

  /** Returning out of order is no harm as such: of three buffers out, the second goes back and
      then the first, and the next dequeue is safe. */
  lemma OutOfOrderCanBeSafe(s: State, a: Buffer, b: Buffer, c: Buffer)
    requires Inv(s) && s.bufs == [a, b, c] && s.held == [a, b, c] && s.out == [0, 1, 2] && s.taken == 3
    ensures Overdue(s) && Overdue(Cancel(s, 1, -1))
    ensures |Cancel(s, 1, -1).out| == 2 && !Overdue(Cancel(Cancel(s, 1, -1), 0, -1))
  {
    assert s.out[0] + |s.bufs| == s.taken;
    var t := Cancel(s, 1, -1);
    assert t.out == [0, 2] && t.out[0] + |t.bufs| == t.taken;
    assert Cancel(t, 0, -1).out == [2];
  }
}
