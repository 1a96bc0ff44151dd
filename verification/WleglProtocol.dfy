/** The android_wlegl protocol: handles arrive one descriptor at a time, become native handles, and
    every descriptor the server receives has one owner until it is closed. */
module WleglProtocol {
  import opened Lists
  import opened NativeHandle

  datatype Error = NegativeFds | TooManyFds | BadSize | FdCountMismatch | InvalidHandle

  /** server_wlegl_handle, as the client has filled it so far. */
  datatype Pending = Pending(numFds: nat, ints: seq<int>, fds: seq<int>)

  /** Who may close a descriptor: the pending handle, the buffer's native handle, or nobody. */
  datatype Place = InHandle(id: nat) | InNative(buffer: nat) | Closed

  /** `owner` records for every descriptor received so far where it is; it exists for the proof. */
  datatype State = State(
    handles: map<nat, Pending>, natives: map<nat, Native>, closed: seq<int>,
    errors: seq<Error>, owner: map<int, Place>)

  datatype Request =
    | CreateHandle(id: nat, numFds: int, ints: seq<int>)
    | AddFd(handle: nat, fd: int)
    | DestroyHandle(handle: nat)
    | CreateBuffer(buffer: nat, width: int, height: int, handle: nat, registers: bool)
    | ReleaseBuffer(buffer: nat)

  // ---- Handlers --------------------------------------------------------------------------

  const SIZE_T: int := 0x1_0000_0000

  /** add_fd's limit in bytes, as a 32-bit size_t. */
  function ByteLimit(numFds: nat): nat {
    numFds * 4 % SIZE_T
  }

  predicate IsFull(h: Pending) {
    |h.fds| * 4 >= ByteLimit(h.numFds)
  }

  /** server_wlegl_handle_to_native: None on a count mismatch; else the handle gives up its
      descriptors but keeps its ints. */
  function ToNative(h: Pending): (Pending, Option<Native>) {
    if |h.fds| != h.numFds then (h, None)
    else (h.(fds := []), Some(Assemble(h.fds, h.ints)))
  }

  /** Everything in place p goes to place q. */
  function Retag(owner: map<int, Place>, p: Place, q: Place): map<int, Place> {
    map fd | fd in owner :: if owner[fd] == p then q else owner[fd]
  }

  function Step(s: State, r: Request): State {
    match r
    case CreateHandle(id, numFds, ints) =>
      if numFds < 0 then s.(errors := s.errors + [NegativeFds])
      else s.(handles := s.handles[id := Pending(numFds, ints, [])])
    case AddFd(id, fd) =>
      if id !in s.handles then s
      else
        var h := s.handles[id];
        if IsFull(h) then
          s.(closed := s.closed + [fd], errors := s.errors + [TooManyFds],
             owner := s.owner[fd := Closed])
        else
          s.(handles := s.handles[id := h.(fds := h.fds + [fd])],
             owner := s.owner[fd := InHandle(id)])
    case DestroyHandle(id) =>
      if id !in s.handles then s
      else
        s.(handles := s.handles - {id}, closed := s.closed + s.handles[id].fds,
           owner := Retag(s.owner, InHandle(id), Closed))
    case CreateBuffer(b, width, height, id, registers) =>
      if id !in s.handles then s
      else if width < 1 || height < 1 then s.(errors := s.errors + [BadSize])
      else
        var (h, native) := ToNative(s.handles[id]);
        if native == None then s.(errors := s.errors + [FdCountMismatch])
        else if registers then
          s.(handles := s.handles[id := h], natives := s.natives[b := native.value],
             owner := Retag(s.owner, InHandle(id), InNative(b)))
        else
          s.(handles := s.handles[id := h], closed := s.closed + FdsOf(native.value),
             errors := s.errors + [InvalidHandle],
             owner := Retag(s.owner, InHandle(id), Closed))
    case ReleaseBuffer(b) =>
      if b !in s.natives || !WellFormed(s.natives[b]) then s
      else
        s.(natives := s.natives - {b}, closed := s.closed + FdsOf(s.natives[b]),
           owner := Retag(s.owner, InNative(b), Closed))
  }

  /** What libwayland and the kernel guarantee: new object ids and new descriptors are new, and
      requests name live objects. */
  ghost predicate Permitted(s: State, r: Request) {
    match r
    case CreateHandle(id, _, _) => id !in s.handles
    case AddFd(id, fd) => id in s.handles && fd !in s.owner
    case DestroyHandle(id) => id in s.handles
    case CreateBuffer(b, _, _, id, _) => id in s.handles && b !in s.natives
    case ReleaseBuffer(b) => b in s.natives
  }

  // ---- The ledger ------------------------------------------------------------------------

  ghost function Owned(owner: map<int, Place>, p: Place): set<int> {
    set fd | fd in owner && owner[fd] == p
  }

  /** These descriptors, each once, are all that this place owns. */
  ghost predicate Holds(owner: map<int, Place>, fds: seq<int>, p: Place) {
    NoDup(fds) && Elems(fds) == Owned(owner, p)
  }

  ghost predicate InHandles(s: State) {
    forall id | id in s.handles :: Holds(s.owner, s.handles[id].fds, InHandle(id))
  }

  ghost predicate InNatives(s: State) {
    forall b | b in s.natives ::
      WellFormed(s.natives[b]) && Holds(s.owner, FdsOf(s.natives[b]), InNative(b))
  }

  ghost predicate Exists(s: State, p: Place) {
    match p
    case InHandle(id) => id in s.handles
    case InNative(b) => b in s.natives
    case Closed => true
  }

  ghost predicate Located(s: State) {
    forall fd | fd in s.owner :: Exists(s, s.owner[fd])
  }

  ghost predicate Inv(s: State) {
    InHandles(s) && InNatives(s) && Holds(s.owner, s.closed, Closed) && Located(s)
  }

  lemma Combine(s: State)
    requires InHandles(s)
    requires InNatives(s)
    requires Holds(s.owner, s.closed, Closed)
    requires Located(s)
    ensures Inv(s)
  {
  }

  lemma RetagOwned(owner: map<int, Place>, p: Place, q: Place, r: Place)
    requires p != q
    ensures Owned(Retag(owner, p, q), r)
         == if r == p then {} else if r == q then Owned(owner, q) + Owned(owner, p) else Owned(owner, r)
    ensures Owned(owner, p) !! Owned(owner, q)
  {
  }

  /** The descriptors of one place move to another; every third place is undisturbed. */
  lemma Move(owner: map<int, Place>, fds: seq<int>, p: Place, q: Place)
    requires Holds(owner, fds, p) && p != q
    ensures var o := Retag(owner, p, q);
            && Owned(o, p) == {} && Owned(o, q) == Owned(owner, q) + Elems(fds)
            && Elems(fds) !! Owned(owner, q)
            && (forall r :: r != p && r != q ==> Owned(o, r) == Owned(owner, r))
            && (forall fd | fd in o :: o[fd] == q || (o[fd] != p && fd in owner && o[fd] == owner[fd]))
  {
    hide NoDup, Elems, Owned;
    RetagOwned(owner, p, q, p);
    RetagOwned(owner, p, q, q);
    forall r | r != p && r != q ensures Owned(Retag(owner, p, q), r) == Owned(owner, r) {
      RetagOwned(owner, p, q, r);
    }
  }

  /** A descriptor the process has not had before. */
  lemma Arrive(owner: map<int, Place>, fd: int, q: Place)
    requires fd !in owner
    ensures var o := owner[fd := q];
            && Owned(o, q) == Owned(owner, q) + {fd} && fd !in Owned(owner, q)
            && (forall r :: r != q ==> Owned(o, r) == Owned(owner, r))
  {
    var o := owner[fd := q];
    forall r | r != q ensures Owned(o, r) == Owned(owner, r) {
    }
  }

  lemma Join(a: seq<int>, b: seq<int>)
    requires NoDup(a) && NoDup(b) && Elems(a) !! Elems(b)
    ensures NoDup(a + b) && Elems(a + b) == Elems(a) + Elems(b)
  {
    assert Elems(a + b) == Elems(a) + Elems(b);
  }

  lemma NothingHeld()
    ensures NoDup<int>([]) && Elems<int>([]) == {}
  {
    NoDupEmpty<int>();
  }

  /** An id that names no handle owns nothing. */
  lemma NothingOwned(s: State, p: Place)
    requires Located(s) && !Exists(s, p)
    ensures Owned(s.owner, p) == {}
  {
    forall fd | fd in s.owner ensures s.owner[fd] != p {
      assert Exists(s, s.owner[fd]);
    }
  }

  lemma CreateHandleKeepsInv(s: State, id: nat, numFds: nat, ints: seq<int>)
    requires Inv(s) && id !in s.handles
    ensures Inv(Step(s, CreateHandle(id, numFds, ints)))
  {
    NothingHeld();
    NothingOwned(s, InHandle(id));
    hide NoDup, Elems, Owned, FdsOf;
    Combine(Step(s, CreateHandle(id, numFds, ints)));
  }

  lemma AddFdKeepsInv(s: State, id: nat, fd: int)
    requires Inv(s) && id in s.handles && fd !in s.owner
    ensures Inv(Step(s, AddFd(id, fd)))
  {
    hide NoDup, Elems, Owned, FdsOf;
    hide IsFull;
    var h := s.handles[id];
    var t := Step(s, AddFd(id, fd));
    if IsFull(h) {
      Arrive(s.owner, fd, Closed);
      ElemsIn(s.closed, fd);
      AppendNoDup(s.closed, fd);
    } else {
      Arrive(s.owner, fd, InHandle(id));
      ElemsIn(h.fds, fd);
      AppendNoDup(h.fds, fd);
    }
    hide Step;
    Combine(t);
  }

  lemma ElemsIn(s: seq<int>, fd: int)
    ensures fd in Elems(s) <==> fd in s
  {
  }

  lemma DestroyHandleKeepsInv(s: State, id: nat)
    requires Inv(s) && id in s.handles
    ensures Inv(Step(s, DestroyHandle(id)))
  {
    hide NoDup, Elems, Owned, FdsOf;
    Move(s.owner, s.handles[id].fds, InHandle(id), Closed);
    Join(s.closed, s.handles[id].fds);
    Combine(Step(s, DestroyHandle(id)));
  }

  lemma ReleaseKeepsInv(s: State, b: nat)
    requires Inv(s) && b in s.natives
    ensures Inv(Step(s, ReleaseBuffer(b)))
  {
    hide NoDup, Elems, Owned, FdsOf;
    Move(s.owner, FdsOf(s.natives[b]), InNative(b), Closed);
    Join(s.closed, FdsOf(s.natives[b]));
    Combine(Step(s, ReleaseBuffer(b)));
  }

  lemma MovedParts(s: State, t: State, b: nat, id: nat)
    requires Inv(s) && id in s.handles && b !in s.natives && |s.handles[id].fds| == s.handles[id].numFds
    requires t == Step(s, CreateBuffer(b, 1, 1, id, true))
    ensures t.handles == s.handles[id := s.handles[id].(fds := [])] && t.closed == s.closed
    ensures t.natives.Keys == s.natives.Keys + {b} && t.owner == Retag(s.owner, InHandle(id), InNative(b))
    ensures WellFormed(t.natives[b]) && FdsOf(t.natives[b]) == s.handles[id].fds
    ensures forall c | c in s.natives :: t.natives[c] == s.natives[c]
  {
    hide Inv, Retag;
  }

  lemma BufferMadeKeepsInv(s: State, b: nat, id: nat)
    requires Inv(s) && id in s.handles && b !in s.natives && |s.handles[id].fds| == s.handles[id].numFds
    ensures Inv(Step(s, CreateBuffer(b, 1, 1, id, true)))
  {
    hide NoDup, Elems, Owned, FdsOf, WellFormed, Step, Retag;
    var fds := s.handles[id].fds;
    var t := Step(s, CreateBuffer(b, 1, 1, id, true));
    NothingHeld();
    Move(s.owner, fds, InHandle(id), InNative(b));
    NothingOwned(s, InNative(b));
    MovedParts(s, t, b, id);
    assert Located(t) by { MovedLocated(s, t, InHandle(id), InNative(b)); }
    hide Located, Exists;
    assert InHandles(t);
    assert InNatives(t);
    Combine(t);
  }

  /** Everything moved to a place that exists, and nothing left for the old one to lose. */
  lemma MovedLocated(s: State, t: State, p: Place, q: Place)
    requires Located(s) && t.owner == Retag(s.owner, p, q) && Exists(t, q)
    requires s.handles.Keys <= t.handles.Keys && s.natives.Keys <= t.natives.Keys
    ensures Located(t)
  {
  }

  lemma RefusedParts(s: State, t: State, b: nat, id: nat)
    requires Inv(s) && id in s.handles && |s.handles[id].fds| == s.handles[id].numFds
    requires t == Step(s, CreateBuffer(b, 1, 1, id, false))
    ensures t.handles == s.handles[id := s.handles[id].(fds := [])] && t.natives == s.natives
    ensures t.closed == s.closed + s.handles[id].fds && t.owner == Retag(s.owner, InHandle(id), Closed)
  {
    hide Inv, Retag;
  }

  lemma BufferRefusedKeepsInv(s: State, b: nat, id: nat)
    requires Inv(s) && id in s.handles && |s.handles[id].fds| == s.handles[id].numFds
    ensures Inv(Step(s, CreateBuffer(b, 1, 1, id, false)))
  {
    hide NoDup, Elems, Owned, FdsOf, WellFormed, Step, Retag;
    var fds := s.handles[id].fds;
    var t := Step(s, CreateBuffer(b, 1, 1, id, false));
    NothingHeld();
    Move(s.owner, fds, InHandle(id), Closed);
    Join(s.closed, fds);
    RefusedParts(s, t, b, id);
    assert Located(t) by { MovedLocated(s, t, InHandle(id), Closed); }
    Combine(t);
  }

  lemma ErrorKeepsInv(s: State, e: Error)
    requires Inv(s)
    ensures Inv(s.(errors := s.errors + [e]))
  {
    Combine(s.(errors := s.errors + [e]));
  }

  lemma StepKeepsInv(s: State, r: Request)
    requires Inv(s) && Permitted(s, r)
    ensures Inv(Step(s, r))
  {
    hide Inv;
    match r
    case CreateHandle(id, numFds, ints) =>
      if numFds < 0 {
        ErrorKeepsInv(s, NegativeFds);
      } else {
        CreateHandleKeepsInv(s, id, numFds, ints);
      }
    case AddFd(id, fd) => AddFdKeepsInv(s, id, fd);
    case DestroyHandle(id) => DestroyHandleKeepsInv(s, id);
    case CreateBuffer(b, width, height, id, registers) =>
      if width < 1 || height < 1 {
        ErrorKeepsInv(s, BadSize);
      } else if |s.handles[id].fds| != s.handles[id].numFds {
        ErrorKeepsInv(s, FdCountMismatch);
      } else if registers {
        BufferMadeKeepsInv(s, b, id);
      } else {
        BufferRefusedKeepsInv(s, b, id);
      }
    case ReleaseBuffer(b) => ReleaseKeepsInv(s, b);
  }

  // ---- Runs ------------------------------------------------------------------------------

  ghost function Run(s: State, requests: seq<Request>): State
    decreases |requests|
  {
    if requests == [] || !Permitted(s, requests[0]) then s
    else Run(Step(s, requests[0]), requests[1..])
  }

  lemma {:induction false} RunKeepsInv(s: State, requests: seq<Request>)
    requires Inv(s)
    ensures Inv(Run(s, requests))
    decreases |requests|
  {
    hide Inv;
    if requests != [] && Permitted(s, requests[0]) {
      StepKeepsInv(s, requests[0]);
      RunKeepsInv(Step(s, requests[0]), requests[1..]);
    }
  }

  const IDLE: State := State(map[], map[], [], [], map[])

  ghost function Reached(requests: seq<Request>): (s: State)
    ensures Inv(s)
  {
    IdleInv();
    RunKeepsInv(IDLE, requests);
    Run(IDLE, requests)
  }

  lemma IdleInv()
    ensures Inv(IDLE)
  {
    NothingHeld();
    assert Owned(IDLE.owner, Closed) == {};
    Combine(IDLE);
  }

  /** The descriptors that arrive during a run. */
  ghost function Received(s: State, requests: seq<Request>): set<int>
    decreases |requests|
  {
    if requests == [] || !Permitted(s, requests[0]) then {}
    else (if requests[0].AddFd? then {requests[0].fd} else {}) + Received(Step(s, requests[0]), requests[1..])
  }

  lemma StepOwns(s: State, r: Request)
    requires Permitted(s, r)
    ensures Step(s, r).owner.Keys == s.owner.Keys + if r.AddFd? then {r.fd} else {}
  {
    hide Assemble, FdsOf, WellFormed;
  }

  /** Every descriptor received, and no other, is accounted for. */
  lemma {:induction false} ReceivedAreOwned(s: State, requests: seq<Request>)
    ensures Run(s, requests).owner.Keys == s.owner.Keys + Received(s, requests)
    decreases |requests|
  {
    hide Step, Permitted;
    if requests != [] && Permitted(s, requests[0]) {
      StepOwns(s, requests[0]);
      ReceivedAreOwned(Step(s, requests[0]), requests[1..]);
    }
  }

  /** The descriptor ledger: whatever the client sends, a descriptor the server has received is at
      each moment in exactly one pending handle, or in exactly one native handle, or closed, and it
      occurs there exactly once. */
  lemma EveryFdHasOneOwner(requests: seq<Request>, fd: int)
    requires fd in Received(IDLE, requests)
    ensures fd in Reached(requests).owner
    ensures var s := Reached(requests);
            match s.owner[fd]
            case InHandle(id) =>
              && id in s.handles && multiset(s.handles[id].fds)[fd] == 1 && fd !in s.closed
              && (forall j | j in s.handles :: fd in s.handles[j].fds ==> j == id)
              && (forall b | b in s.natives :: fd !in FdsOf(s.natives[b]))
            case InNative(b) =>
              && b in s.natives && multiset(FdsOf(s.natives[b]))[fd] == 1 && fd !in s.closed
              && (forall id | id in s.handles :: fd !in s.handles[id].fds)
              && (forall c | c in s.natives :: fd in FdsOf(s.natives[c]) ==> c == b)
            case Closed =>
              && multiset(s.closed)[fd] == 1
              && (forall id | id in s.handles :: fd !in s.handles[id].fds)
              && (forall b | b in s.natives :: fd !in FdsOf(s.natives[b]))
  {
    var s := Reached(requests);
    ReceivedAreOwned(IDLE, requests);
    var p := s.owner[fd];
    assert fd in Owned(s.owner, p);
    assert Exists(s, p);
    forall q, fds | Holds(s.owner, fds, q) ensures fd in fds <==> p == q {
      HeldByOwner(s.owner, fds, q, fd);
    }
    match p
    case InHandle(id) => OnceIn(s.handles[id].fds, fd);
    case InNative(b) => OnceIn(FdsOf(s.natives[b]), fd);
    case Closed => OnceIn(s.closed, fd);
  }

  lemma HeldByOwner(owner: map<int, Place>, fds: seq<int>, q: Place, fd: int)
    requires Holds(owner, fds, q) && fd in owner
    ensures fd in fds <==> owner[fd] == q
  {
    assert fd in Elems(fds) <==> fd in Owned(owner, q);
  }

  lemma {:induction false} OnceIn(s: seq<int>, x: int)
    requires NoDup(s) && x in s
    ensures multiset(s)[x] == 1
  {
    Distinct(s);
    var i :| 0 <= i < |s| && s[i] == x;
    assert s == s[..i] + [x] + s[i + 1..];
    assert x !in s[..i] && x !in s[i + 1..];
  }

  // ---- The round trip --------------------------------------------------------------------

  /** wlbuffer_from_native_handle: the requests that take a handle apart, with `received[i]` the
      descriptor the server gets for the i-th one sent. */
  function AddFds(id: nat, received: seq<int>): seq<Request> {
    if received == [] then [] else [AddFd(id, received[0])] + AddFds(id, received[1..])
  }

  function Transfer(n: Native, id: nat, buffer: nat, width: int, height: int, received: seq<int>): seq<Request>
    requires WellFormed(n)
  {
    [CreateHandle(id, n.numFds, IntsOf(n))] + AddFds(id, received)
    + [CreateBuffer(buffer, width, height, id, true), DestroyHandle(id)]
  }

  lemma {:induction false} RunAppend(s: State, a: seq<Request>, b: seq<Request>)
    requires AllPermitted(s, a)
    ensures Run(s, a + b) == Run(Run(s, a), b)
    decreases |a|
  {
    if a == [] {
      assert a + b == b;
    } else {
      assert (a + b)[0] == a[0] && (a + b)[1..] == a[1..] + b;
      RunAppend(Step(s, a[0]), a[1..], b);
    }
  }

  ghost predicate AllPermitted(s: State, a: seq<Request>)
    decreases |a|
  {
    a == [] || (Permitted(s, a[0]) && AllPermitted(Step(s, a[0]), a[1..]))
  }

  ghost predicate NewFds(s: State, received: seq<int>) {
    NoDup(received) && forall fd | fd in received :: fd !in s.owner
  }

  lemma AddFdEffect(s: State, id: nat, fd: int)
    requires id in s.handles && fd !in s.owner && !IsFull(s.handles[id])
    ensures Permitted(s, AddFd(id, fd))
    ensures var u := Step(s, AddFd(id, fd));
            && u.handles == s.handles[id := s.handles[id].(fds := s.handles[id].fds + [fd])]
            && u.natives == s.natives && u.errors == s.errors && u.closed == s.closed
            && u.owner.Keys == s.owner.Keys + {fd}
  {
  }

  lemma NewFdIsNew(s: State, received: seq<int>, fd: int)
    requires NewFds(s, received) && fd in received
    ensures fd !in s.owner
  {
  }

  lemma NewFdsTail(s: State, u: State, received: seq<int>)
    requires received != [] && NewFds(s, received) && u.owner.Keys == s.owner.Keys + {received[0]}
    ensures NewFds(u, received[1..]) && received[0] !in s.owner
  {
    NewFdIsNew(s, received, received[0]);
    NoDupTail(received);
    forall fd | fd in received[1..] ensures fd !in u.owner {
      assert fd in received;
    }
  }

  /** The descriptors arrive in order as long as the byte limit leaves room for them. */
  lemma {:induction false} FdsArrive(s: State, id: nat, received: seq<int>)
    requires id in s.handles && NewFds(s, received)
    requires |s.handles[id].fds| + |received| == s.handles[id].numFds
    requires s.handles[id].numFds * 4 < SIZE_T
    ensures AllPermitted(s, AddFds(id, received))
    ensures var t := Run(s, AddFds(id, received));
            && t.handles == s.handles[id := s.handles[id].(fds := s.handles[id].fds + received)]
            && t.natives == s.natives && t.errors == s.errors && t.closed == s.closed
    decreases |received|
  {
    if received == [] {
      assert s.handles[id].fds + [] == s.handles[id].fds;
    } else {
      assert !IsFull(s.handles[id]);
      AddFdEffect(s, id, received[0]);
      var u := Step(s, AddFd(id, received[0]));
      NewFdsTail(s, u, received);
      hide Step, Permitted, NewFds, IsFull, ByteLimit, Elems, NoDup;
      assert s.handles[id].fds + received == s.handles[id].fds + [received[0]] + received[1..];
      assert AddFds(id, received)[1..] == AddFds(id, received[1..]);
      FdsArrive(u, id, received[1..]);
    }
  }

  /** Taking a handle apart and sending it rebuilds it in the server: the same counts, the same
      ints, and the i-th descriptor the one received for the i-th one sent. The handle object that
      carried it is gone and no error was posted. */
  lemma TransferRebuilds(s: State, n: Native, id: nat, buffer: nat, width: int, height: int, received: seq<int>)
    requires WellFormed(n) && id !in s.handles && buffer !in s.natives
    requires width >= 1 && height >= 1 && |received| == n.numFds && NewFds(s, received)
    requires n.numFds * 4 < SIZE_T
    ensures var t := Run(s, Transfer(n, id, buffer, width, height, received));
            && t.natives == s.natives[buffer := Assemble(received, IntsOf(n))]
            && t.handles == s.handles && t.errors == s.errors && t.closed == s.closed
    ensures Assemble(received, IntsOf(n)).numFds == n.numFds
    ensures Assemble(received, IntsOf(n)).numInts == n.numInts
  {
    hide NewFds, NoDup, Elems, Owned;
    var first := CreateHandle(id, n.numFds, IntsOf(n));
    var adds := AddFds(id, received);
    var last := [CreateBuffer(buffer, width, height, id, true), DestroyHandle(id)];
    var all := Transfer(n, id, buffer, width, height, received);
    assert all[0] == first && all[1..] == adds + last;
    var s1 := Step(s, first);
    assert Run(s, all) == Run(s1, adds + last);
    assert s1.handles == s.handles[id := Pending(n.numFds, IntsOf(n), [])] && s1.natives == s.natives
           && s1.errors == s.errors && s1.closed == s.closed && s1.owner == s.owner;
    assert NewFds(s1, received) by { StillNew(s, s1, received); }
    hide Step, IntsOf, Transfer, WellFormed;
    FdsArrive(s1, id, received);
    RunAppend(s1, adds, last);
    var s2 := Run(s1, adds);
    assert s1.handles[id].fds + received == received;
    hide Run;
    LastTwo(s2, buffer, width, height, id);
    assert s2.handles[id := s2.handles[id].(fds := [])] - {id} == s.handles;
  }

  lemma StillNew(s: State, t: State, received: seq<int>)
    requires NewFds(s, received) && t.owner == s.owner
    ensures NewFds(t, received)
  {
  }

  lemma LastTwo(s: State, buffer: nat, width: int, height: int, id: nat)
    requires id in s.handles && buffer !in s.natives && width >= 1 && height >= 1
    requires |s.handles[id].fds| == s.handles[id].numFds
    ensures var h := s.handles[id];
            var t := Run(s, [CreateBuffer(buffer, width, height, id, true), DestroyHandle(id)]);
            && t.natives == s.natives[buffer := Assemble(h.fds, h.ints)]
            && t.handles == s.handles[id := h.(fds := [])] - {id}
            && t.errors == s.errors && t.closed == s.closed
  {
    var one := CreateBuffer(buffer, width, height, id, true);
    var two := DestroyHandle(id);
    assert [one, two][1..] == [two] && [two][1..] == [];
    var u := Step(s, one);
    assert Run(s, [one, two]) == Run(u, [two]) == Run(Step(u, two), []);
    assert u.closed + [] == u.closed;
  }

  /** A handle of 2^30 descriptors or more is held below its count: the byte limit wraps around in
      a 32-bit size_t, so add_fd refuses descriptors before the count is reached. */
  predicate HeldBelow(h: Pending) {
    h.numFds * 4 >= SIZE_T ==> |h.fds| < h.numFds && |h.fds| * 4 <= ByteLimit(h.numFds)
  }

  ghost predicate AllHeldBelow(s: State) {
    forall id | id in s.handles :: HeldBelow(s.handles[id])
  }

  lemma StepHoldsBelow(s: State, r: Request)
    requires AllHeldBelow(s)
    ensures AllHeldBelow(Step(s, r))
  {
    hide Assemble, Retag, FdsOf;
  }

  lemma {:induction false} RunHoldsBelow(s: State, requests: seq<Request>)
    requires AllHeldBelow(s)
    ensures AllHeldBelow(Run(s, requests))
    decreases |requests|
  {
    hide AllHeldBelow, Step, Permitted;
    if requests != [] && Permitted(s, requests[0]) {
      StepHoldsBelow(s, requests[0]);
      RunHoldsBelow(Step(s, requests[0]), requests[1..]);
    }
  }

  /** Whatever the client sends, such a handle never becomes a buffer. */
  lemma HugeHandlesNeverFill(requests: seq<Request>, id: nat)
    ensures var s := Run(IDLE, requests);
            id in s.handles && s.handles[id].numFds * 4 >= SIZE_T ==> ToNative(s.handles[id]).1 == None
  {
    RunHoldsBelow(IDLE, requests);
  }
}
