/** What the calls of HwcQueue store, and what comes back of it later. */
module HwcCalls {
  import opened Lists
  import opened HwcQueue

  // ---- Settings --------------------------------------------------------------------------

  /** A setter stores what it is given; it destroys the buffers exactly when that differs from what was
      stored. */
  lemma SetStores(s: State, count: nat, usage: int, format: int)
    ensures var t := Set(s, count, usage, format);
            && t.count == count && t.usage == usage && t.format == format
            && t.held == s.held && t.fds == s.fds && t.caller == s.caller
            && (if (count, usage, format) == (s.count, s.usage, s.format)
                then t == s else t.bufs == [] && t.next == 0)
  {
  }

  lemma DequeueBufs(s: State, wantFence: bool, made: seq<Buffer>)
    ensures var t := Dequeue(s, wantFence, made).0;
            t.bufs == (if s.bufs == [] then made else s.bufs) && t.count == s.count
  {
    hide PassFence, FenceOf;
  }

  /** After a setter names `n` buffers, a dequeue for which the allocator can provide `n` leaves `n`
      exactly when the setter changed something, or there were no buffers, or there were `n`. */
  lemma CountIsHonouredIff(s: State, n: nat, usage: int, format: int, wantFence: bool, made: seq<Buffer>)
    requires |made| == n
    ensures |Dequeue(Set(s, n, usage, format), wantFence, made).0.bufs| == n
            <==> (n, usage, format) != (s.count, s.usage, s.format) || s.bufs == [] || |s.bufs| == n
  {
    DequeueBufs(Set(s, n, usage, format), wantFence, made);
    SetStores(s, n, usage, format);
    hide Dequeue, Set;
  }

  /** The window has no buffers or as many as it asked for. */
  predicate Complete(s: State) {
    s.bufs == [] || |s.bufs| == s.count
  }

  /** Every allocation of the run gets all it asks for. */
  ghost predicate Plentiful(s: State, ops: seq<Op>)
    decreases |ops|
  {
    ops == [] || !Permitted(s, ops[0]) ||
    ((ops[0].DequeueOp? && s.bufs == [] ==> |ops[0].made| == s.count) && Plentiful(Step(s, ops[0]), ops[1..]))
  }

  lemma StepKeepsComplete(s: State, op: Op)
    requires Complete(s) && (op.DequeueOp? && s.bufs == [] ==> |op.made| == s.count)
    ensures Complete(Step(s, op))
  {
    match op
    case DequeueOp(wantFence, made) =>
      DequeueBufs(s, wantFence, made);
      hide Dequeue;
    case SettingOp(count, usage, format) =>
      SetStores(s, count, usage, format);
      hide Set;
    case QueueOp(i, fd, p) => hide Close, Install, FenceOf;
    case CancelOp(i, fd) =>
    case ObtainFence(_) =>
    case CloseOwn(_) =>
  }

  lemma {:induction false} RunKeepsComplete(s: State, ops: seq<Op>)
    requires Complete(s) && Plentiful(s, ops)
    ensures Complete(Run(s, ops))
    decreases |ops|
  {
    hide Complete, Step, Permitted;
    if ops != [] && Permitted(s, ops[0]) {
      StepKeepsComplete(s, ops[0]);
      RunKeepsComplete(Step(s, ops[0]), ops[1..]);
    }
  }

  /** Over every run in which the allocator never fails, the count set last is the count there is: after
      a setter names `n`, the next dequeue leaves `n` buffers. */
  lemma CountIsHonoured(
      count: nat, usage: int, format: int, ops: seq<Op>, n: nat, usage': int, format': int,
      wantFence: bool, made: seq<Buffer>)
    requires Plentiful(Start(count, usage, format), ops) && |made| == n
    ensures var s := Reached(count, usage, format, ops);
            |Dequeue(Set(s, n, usage', format'), wantFence, made).0.bufs| == n
  {
    RunKeepsComplete(Start(count, usage, format), ops);
    CountIsHonouredIff(Reached(count, usage, format, ops), n, usage', format', wantFence, made);
    hide Dequeue, Set, Run;
  }

  /** In no run are there more buffers than were asked for. */
  lemma {:induction false} NeverMoreThanAsked(s: State, ops: seq<Op>)
    requires |s.bufs| <= s.count
    ensures |Run(s, ops).bufs| <= Run(s, ops).count
    decreases |ops|
  {
    if ops != [] && Permitted(s, ops[0]) {
      StepAddsNoMore(s, ops[0]);
      hide Step, Permitted;
      NeverMoreThanAsked(Step(s, ops[0]), ops[1..]);
    }
  }

  lemma StepAddsNoMore(s: State, op: Op)
    requires |s.bufs| <= s.count && Permitted(s, op)
    ensures |Step(s, op).bufs| <= Step(s, op).count
  {
    match op
    case DequeueOp(wantFence, made) =>
      DequeueBufs(s, wantFence, made);
      hide Dequeue, Overdue;
    case SettingOp(count, usage, format) =>
      SetStores(s, count, usage, format);
      hide Set;
    case QueueOp(i, fd, p) => hide Close, Install, FenceOf;
    case CancelOp(i, fd) =>
    case ObtainFence(_) =>
    case CloseOwn(_) =>
  }

  // ---- Returning a buffer ------------------------------------------------------------------

  /** What the return of buffer `b` leaves alone. */
  ghost predicate OthersSame(s: State, t: State, b: Buffer) {
    && t.bufs == s.bufs && t.next == s.next && t.taken == s.taken
    && t.count == s.count && t.usage == s.usage && t.format == s.format
    && (forall c | c in s.bufs :: c != b ==> FenceOf(t, c) == FenceOf(s, c))
  }

  /** A cancelled buffer leaves the client and stores the descriptor given with it, which is the
      client's no more; nothing is closed. */
  lemma CancelStores(s: State, i: nat, fd: int)
    requires Inv(s) && i < |s.held| && (fd == -1 || fd in s.caller)
    ensures |s.out| == |s.held|
    ensures var b, t := s.held[i], Cancel(s, i, fd);
            && OthersSame(s, t, b) && FenceOf(t, b) == fd && t.caller == s.caller - {fd} && t.fds == s.fds
            && t.held == s.held[..i] + s.held[i + 1..] && t.out == s.out[..i] + s.out[i + 1..]
  {
    HeldStoresNoFence(s, i);
    hide Ring, Holding, Ledger;
  }

  /** A queued buffer stores that descriptor if the presenter leaves it; else the descriptor is closed,
      and the buffer stores a new one for the release fence, or none. */
  lemma QueueStores(s: State, i: nat, fd: int, p: Present)
    requires Inv(s) && i < |s.held| && (fd == -1 || fd in s.caller)
    ensures |s.out| == |s.held|
    ensures var b, t := s.held[i], Queue(s, i, fd, p);
            && OthersSame(s, t, b) && t.caller == s.caller - {fd}
            && t.held == s.held[..i] + s.held[i + 1..] && t.out == s.out[..i] + s.out[i + 1..]
            && (p == Keep ==> FenceOf(t, b) == fd && t.fds == s.fds)
            && (p.Replace? ==> fd !in t.fds.open)
            && (p == Replace(None) ==> FenceOf(t, b) == -1)
            && (p.Replace? && p.release.Some? ==>
                  var r := FenceOf(t, b);
                  r !in s.fds.open && r in t.fds.open && t.fds.open[r] == p.release.value && r !in t.caller)
  {
    CancelStores(s, i, fd);
    OpenNames(s);
    hide Inv, Cancel, OthersSame;
    var u := Cancel(s, i, fd);
    PresentStores(u, s.held[i], p);
    SameTwice(s, u, Queue(s, i, fd, p), s.held[i]);
  }

  lemma OpenNames(s: State)
    requires Inv(s)
    ensures -1 !in s.fds.open && s.fds.next !in s.fds.open && s.fds.next !in s.caller && s.fds.next != -1
    ensures s.caller <= s.fds.open.Keys && forall fd | fd in s.fds.open :: fd != s.fds.next
  {
  }

  lemma PresentStores(s: State, b: Buffer, p: Present)
    requires s.fds.next !in s.fds.open && -1 !in s.fds.open && s.fds.next != -1
    ensures var t := PresentBuffer(s, b, p);
            && OthersSame(s, t, b) && t.held == s.held && t.out == s.out && t.caller == s.caller
            && (p == Keep ==> t == s)
            && (p.Replace? ==> FenceOf(s, b) == s.fds.next || FenceOf(s, b) !in t.fds.open)
            && (p == Replace(None) ==> FenceOf(t, b) == -1)
            && (p.Replace? && p.release.Some? ==>
                  FenceOf(t, b) == s.fds.next && s.fds.next in t.fds.open
                  && t.fds.open[s.fds.next] == p.release.value)
  {
  }

  lemma SameTwice(s: State, t: State, u: State, b: Buffer)
    requires OthersSame(s, t, b) && OthersSame(t, u, b)
    ensures OthersSame(s, u, b)
  {
    hide FenceOf;
  }

  // ---- Dequeueing --------------------------------------------------------------------------

  /** A caller that does not want the fence gets none, and the descriptor is closed all the same. */
  lemma UnwantedFenceIsClosed(s: State, made: seq<Buffer>)
    requires Inv(s) && Permitted(s, DequeueOp(false, made)) && (s.bufs != [] || made != [])
    ensures var (t, r) := Dequeue(s, false, made);
            && r.Got? && r.fenceFd == -1 && t.caller == s.caller
            && FenceOf(s, r.buffer) !in t.fds.open && t.fds.open.Keys <= s.fds.open.Keys
  {
    DequeueReturnsSlot(s, false, made);
    hide Inv, Permitted, FenceOf;
  }

  /** The fence given back with a buffer is the fence that comes with it the next time: whatever happens
      in between, the dequeue that hands this buffer out again returns a new descriptor, the caller's
      own, for the very fence, and closes the old one. */
  lemma FenceComesBack(s: State, i: nat, fd: int, ops: seq<Op>, made: seq<Buffer>)
    requires Inv(s) && i < |s.held| && fd in s.caller && |s.out| == |s.held|
    requires NeverTakes(Cancel(s, i, fd), ops, s.held[i])
    requires var v := Run(Cancel(s, i, fd), ops);
             Permitted(v, DequeueOp(true, made)) && Takes(v, DequeueOp(true, made), s.held[i])
    ensures fd in s.fds.open
    ensures var v := Run(Cancel(s, i, fd), ops);
            var (t, r) := Dequeue(v, true, made);
            && r.Got? && r.buffer == s.held[i] && r.fenceFd in t.caller && r.fenceFd in t.fds.open
            && t.fds.open[r.fenceFd] == s.fds.open[fd] && fd !in t.fds.open
  {
    OpenNames(s);
    var u, b := Cancel(s, i, fd), s.held[i];
    CancelStores(s, i, fd);
    CancelKeepsInv(s, i, fd);
    FenceIsStored(u, b);
    hide Inv, Cancel, Permitted, Dequeue, NeverTakes, Run;
    StoredFenceStays(u, ops, b);
    RunKeepsInv(u, ops);
    var v := Run(u, ops);
    HasBuffers(v, b);
    DequeueReturnsSlot(v, true, made);
  }

  lemma FenceIsStored(s: State, b: Buffer)
    requires FenceOf(s, b) != -1
    ensures b in s.fence && s.fence[b] == FenceOf(s, b)
  {
  }

  lemma HasBuffers(s: State, b: Buffer)
    requires Inv(s) && b in s.fence
    ensures s.bufs != []
  {
    assert b in Elems(s.bufs);
  }
}
