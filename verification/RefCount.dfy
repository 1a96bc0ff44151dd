/** Reference counting of a RemoteWindowBuffer under all interleavings. The atomic add and the
    atomic subtract are one step each; the delete that follows a subtract is a step of its own. */
module RefCount {
  import opened Lists

  /** One counted reference. Whoever made it drops it. */
  type Token = nat

  /** The four functions that make such a buffer: server_wlegl_buffer_create for a client's handle,
      server_wlegl_buffer_create_server, eglHybrisCreateRemoteBuffer and eglHybrisCreateNativeBuffer. */
  datatype Maker = ClientBuffer | ServerBuffer | RemoteBuffer | NativeBuffer

  /** How a maker obtains the gralloc handle, hence how it must be given back. */
  datatype Origin = Registered | FromAllocator

  function OriginOf(m: Maker): Origin {
    if m == ClientBuffer || m == RemoteBuffer then Registered else FromAllocator
  }

  /** What has been given back so far. */
  datatype Released = Released(unregistered: nat, closed: nat, freed: nat)

  const NOTHING: Released := Released(0, 0, 0)

  /** One handle given back once, the way it was obtained. */
  function Returned(o: Origin): Released {
    if o == Registered then Released(1, 1, 0) else Released(0, 0, 1)
  }

  /** `isAllocated` is m_allocated, `hasAlloc` whether m_alloc is set. */
  datatype State = State(
    maker: Maker, isAllocated: bool, hasAlloc: bool,
    count: int, refs: set<Token>, dying: nat, destroyed: nat, released: Released)

  /** A buffer as its maker leaves it, with the maker's reference, or None if it makes none: the two
      that allocate do not get past a missing allocator, and all but the server's stop when gralloc
      refuses. `allocator` says whether the process has one, `agrees` what gralloc answers. */
  function Made(m: Maker, allocator: bool, agrees: bool, creator: Token): Option<State> {
    match m
    case ClientBuffer =>
      if agrees then Some(State(m, false, false, 1, {creator}, 0, 0, NOTHING)) else None
    case ServerBuffer =>
      if allocator then Some(State(m, true, allocator, 1, {creator}, 0, 0, NOTHING)) else None
    case RemoteBuffer =>
      if agrees then Some(State(m, false, allocator, 1, {creator}, 0, 0, NOTHING)) else None
    case NativeBuffer =>
      if allocator && agrees then Some(State(m, true, allocator, 1, {creator}, 0, 0, NOTHING)) else None
  }

  datatype Action =
    | IncRef(via: Token, made: Token)
    | Acquire(via: Token, made: Token)
    | DecRef(dropped: Token)
    | Delete

  /** Holders add references only through one they hold, and drop each of theirs once; delete runs
      once for each subtract that found a count of one. */
  ghost predicate Permitted(s: State, a: Action) {
    match a
    case IncRef(via, made) => via in s.refs && made !in s.refs
    case Acquire(via, made) => via in s.refs && made !in s.refs
    case DecRef(t) => t in s.refs
    case Delete => s.dying > 0
  }

  /** ~RemoteWindowBuffer. */
  function Dispose(r: Released, isAllocated: bool, hasAlloc: bool): Released {
    if !isAllocated then r.(unregistered := r.unregistered + 1, closed := r.closed + 1)
    else if hasAlloc then r.(freed := r.freed + 1)
    else r
  }

  function Step(s: State, a: Action): State {
    match a
    case IncRef(_, t) => s.(count := s.count + 1, refs := s.refs + {t})
    // AcquireNativeBufferWL refuses buffers that a client allocated.
    case Acquire(_, t) =>
      if s.isAllocated then s.(count := s.count + 1, refs := s.refs + {t}) else s
    case DecRef(t) =>
      s.(count := s.count - 1, refs := s.refs - {t}, dying := s.dying + if s.count == 1 then 1 else 0)
    case Delete =>
      if s.dying == 0 then s
      else
        s.(dying := s.dying - 1, destroyed := s.destroyed + 1,
           released := Dispose(s.released, s.isAllocated, s.hasAlloc))
  }

  /** The flags say how the handle was obtained; in particular an allocated buffer always knows its
      allocator, so the destructor never falls through. */
  predicate Tagged(s: State) {
    && (s.isAllocated <==> OriginOf(s.maker) == FromAllocator)
    && (s.isAllocated ==> s.hasAlloc)
  }

  ghost predicate Inv(s: State) {
    && Tagged(s)
    && s.count == |s.refs|
    && s.dying + s.destroyed == (if s.refs == {} then 1 else 0)
    && s.released == if s.destroyed == 0 then NOTHING else Returned(OriginOf(s.maker))
  }

  lemma MadeKeepsInv(m: Maker, allocator: bool, agrees: bool, creator: Token)
    ensures var s := Made(m, allocator, agrees, creator);
            s.Some? ==> Inv(s.value) && s.value.maker == m && s.value.refs == {creator}
  {
  }

  lemma StepKeepsInv(s: State, a: Action)
    requires Inv(s) && Permitted(s, a)
    ensures Inv(Step(s, a)) && Step(s, a).maker == s.maker
  {
    if a.DecRef? {
      assert s.refs == s.refs - {a.dropped} + {a.dropped};
      assert s.refs - {a.dropped} == {} <==> |s.refs| == 1;
    }
  }

  ghost function Run(s: State, actions: seq<Action>): State
    decreases |actions|
  {
    if actions == [] || !Permitted(s, actions[0]) then s
    else Run(Step(s, actions[0]), actions[1..])
  }

  lemma {:induction false} RunKeepsInv(s: State, actions: seq<Action>)
    requires Inv(s)
    ensures Inv(Run(s, actions)) && Run(s, actions).maker == s.maker
    decreases |actions|
  {
    hide Inv;
    if actions != [] && Permitted(s, actions[0]) {
      StepKeepsInv(s, actions[0]);
      RunKeepsInv(Step(s, actions[0]), actions[1..]);
    }
  }

  /** For every maker and every interleaving: the count is the number of references held; the buffer
      is never destroyed while one is held; and once it has been destroyed, once, its handle has been
      given back exactly once, by the branch that matches how it was obtained. */
  lemma HandleIsReturnedOnce(
      m: Maker, allocator: bool, agrees: bool, creator: Token, actions: seq<Action>, s: State)
    requires var made := Made(m, allocator, agrees, creator); made.Some? && s == Run(made.value, actions)
    ensures s.count == |s.refs| && s.destroyed <= 1
    ensures s.refs != {} ==> s.destroyed == 0 && s.dying == 0
    ensures s.refs == {} ==> s.dying + s.destroyed == 1
    ensures s.released == if s.destroyed == 0 then NOTHING else Returned(OriginOf(m))
  {
    MadeKeepsInv(m, allocator, agrees, creator);
    RunKeepsInv(Made(m, allocator, agrees, creator).value, actions);
  }

  /** No maker produces, and no run reaches, an allocated buffer without an allocator. */
  lemma AllocatedKnowsItsAllocator(
      m: Maker, allocator: bool, agrees: bool, creator: Token, actions: seq<Action>)
    requires Made(m, allocator, agrees, creator).Some?
    ensures var s := Run(Made(m, allocator, agrees, creator).value, actions);
            && (s.isAllocated <==> m == ServerBuffer || m == NativeBuffer)
            && (s.isAllocated ==> s.hasAlloc)
  {
    MadeKeepsInv(m, allocator, agrees, creator);
    RunKeepsInv(Made(m, allocator, agrees, creator).value, actions);
  }

  /** Which maker makes a buffer, and what it leaves: gralloc must have agreed to the handles that are
      registered, an allocator must exist for those that are allocated. */
  lemma MadeIff(m: Maker, allocator: bool, agrees: bool, creator: Token)
    ensures var s := Made(m, allocator, agrees, creator);
            && (s.Some? <==> (m != ServerBuffer ==> agrees) && (m == ServerBuffer || m == NativeBuffer ==> allocator))
            && (s.Some? ==>
                  && s.value.count == 1 && s.value.refs == {creator} && s.value.dying == 0 == s.value.destroyed
                  && (s.value.isAllocated <==> m == ServerBuffer || m == NativeBuffer)
                  && (s.value.hasAlloc <==> allocator && m != ClientBuffer)
                  && s.value.released == Released(0, 0, 0))
  {
  }

  /** A reference taken is held until it is dropped, which puts everything back and destroys nothing. */
  lemma DropUndoesTake(s: State, via: Token, made: Token)
    requires Inv(s) && via in s.refs && made !in s.refs
    ensures var t := Step(s, IncRef(via, made));
            && t.refs == s.refs + {made} && t.count == s.count + 1 && Permitted(t, DecRef(made))
            && Step(t, DecRef(made)) == s
  {
    assert s.refs + {made} - {made} == s.refs;
  }

  /** eglHybrisAcquireNativeBufferWL takes a reference exactly of a buffer that was allocated, and of any
      other changes nothing. */
  lemma AcquireTakesIff(s: State, via: Token, made: Token)
    requires Inv(s) && via in s.refs && made !in s.refs
    ensures var t := Step(s, Acquire(via, made));
            && (made in t.refs <==> s.maker == ServerBuffer || s.maker == NativeBuffer)
            && (made in t.refs ==> t.refs == s.refs + {made} && t.count == s.count + 1 && Step(t, DecRef(made)) == s)
            && (made !in t.refs ==> t == s)
  {
    assert s.refs + {made} - {made} == s.refs;
  }

  /** The step that drops the last reference, and no other, starts the one destruction. */
  lemma LastDropDestroys(s: State, a: Action)
    requires Inv(s) && Permitted(s, a)
    ensures Step(s, a).dying > s.dying <==> a.DecRef? && s.refs == {a.dropped}
  {
    if a.DecRef? {
      assert s.refs == s.refs - {a.dropped} + {a.dropped};
    }
  }

  // ---- The object itself -----------------------------------------------------------------

  class RemoteWindowBuffer {
    const maker: Maker
    const hasAlloc: bool
    var isAllocated: bool
    var refcount: int
    var released: Released
    ghost var refs: set<Token>
    ghost var dying: nat
    ghost var destroyed: nat

    ghost function View(): State
      reads this
    {
      State(maker, isAllocated, hasAlloc, refcount, refs, dying, destroyed, released)
    }

    ghost predicate Valid()
      reads this
    {
      Inv(View())
    }

    /** The constructor leaves the count at zero and the buffer not allocated. */
    constructor (maker: Maker, hasAlloc: bool)
      ensures View() == State(maker, false, hasAlloc, 0, {}, 0, 0, NOTHING)
    {
      this.maker, this.hasAlloc, isAllocated := maker, hasAlloc, false;
      refcount, released := 0, NOTHING;
      refs, dying, destroyed := {}, 0, 0;
    }

    method SetAllocated(value: bool)
      modifies this`isAllocated
      ensures View() == old(View()).(isAllocated := value)
    {
      isAllocated := value;
    }

    /** _incRef: __sync_fetch_and_add. */
    method FetchAndAdd(ghost made: Token)
      modifies this`refcount, this`refs
      ensures View() == old(View()).(count := old(refcount) + 1, refs := old(refs) + {made})
    {
      refcount := refcount + 1;
      refs := refs + {made};
    }

    method AddRef(ghost via: Token, ghost made: Token)
      requires Valid() && Permitted(View(), IncRef(via, made))
      modifies this
      ensures Valid() && View() == Step(old(View()), IncRef(via, made))
    {
      StepKeepsInv(View(), IncRef(via, made));
      FetchAndAdd(made);
    }

    /** eglHybrisAcquireNativeBufferWL. */
    method AcquireNative(ghost via: Token, ghost made: Token) returns (ok: bool)
      requires Valid() && Permitted(View(), Acquire(via, made))
      modifies this
      ensures Valid() && View() == Step(old(View()), Acquire(via, made)) && ok == isAllocated
    {
      if !isAllocated {
        return false;
      }
      AddRef(via, made);
      return true;
    }

    /** The atomic half of _decRef. */
    method FetchAndSub(ghost t: Token) returns (previous: int)
      requires Valid() && Permitted(View(), DecRef(t))
      modifies this
      ensures Valid() && View() == Step(old(View()), DecRef(t))
      ensures previous == 1 <==> old(refs) == {t}
      ensures previous == 1 ==> dying == 1
    {
      StepKeepsInv(View(), DecRef(t));
      LastDropDestroys(View(), DecRef(t));
      previous := refcount;
      refcount := refcount - 1;
      refs := refs - {t};
      dying := dying + if previous == 1 then 1 else 0;
    }

    /** The delete, with the destructor of RemoteWindowBuffer. */
    method Destroy()
      requires Valid() && dying > 0
      modifies this
      ensures Valid() && View() == Step(old(View()), Delete)
      ensures released == Returned(OriginOf(maker))
    {
      StepKeepsInv(View(), Delete);
      if !isAllocated {
        released := released.(unregistered := released.unregistered + 1, closed := released.closed + 1);
      } else if hasAlloc {
        released := released.(freed := released.freed + 1);
      }
      dying, destroyed := dying - 1, destroyed + 1;
    }

    /** _decRef as a whole, when no other thread runs in between. */
    method Drop(ghost t: Token)
      requires Valid() && Permitted(View(), DecRef(t))
      modifies this
      ensures Valid() && refs == old(refs) - {t}
      ensures destroyed == old(destroyed) + if old(refs) == {t} then 1 else 0
    {
      var previous := FetchAndSub(t);
      if previous == 1 {
        Destroy();
      }
    }
  }

  // ---- The makers ------------------------------------------------------------------------

  /** server_wlegl_buffer_create, from the registration on. */
  method CreateClientBuffer(agrees: bool, ghost creator: Token) returns (buf: RemoteWindowBuffer?)
    ensures buf != null ==> fresh(buf) && buf.Valid()
    ensures forall allocator :: Made(ClientBuffer, allocator, agrees, creator) ==
                                if buf == null then None else Some(buf.View())
  {
    if !agrees {
      return null;
    }
    buf := new RemoteWindowBuffer(ClientBuffer, false);
    buf.FetchAndAdd(creator);
  }

  /** server_wlegl_buffer_create_server, with the allocation before it, which needs an allocator. */
  method CreateServerBuffer(allocator: bool, ghost creator: Token) returns (buf: RemoteWindowBuffer?)
    ensures buf != null ==> fresh(buf) && buf.Valid()
    ensures forall agrees :: Made(ServerBuffer, allocator, agrees, creator) ==
                             if buf == null then None else Some(buf.View())
  {
    if !allocator {
      return null;
    }
    buf := new RemoteWindowBuffer(ServerBuffer, allocator);
    buf.SetAllocated(true);
    buf.FetchAndAdd(creator);
  }

  /** eglHybrisCreateRemoteBuffer, from the registration on. */
  method CreateRemoteBuffer(allocator: bool, agrees: bool, ghost creator: Token)
    returns (buf: RemoteWindowBuffer?)
    ensures buf != null ==> fresh(buf) && buf.Valid()
    ensures Made(RemoteBuffer, allocator, agrees, creator) ==
            if buf == null then None else Some(buf.View())
  {
    if !agrees {
      return null;
    }
    buf := new RemoteWindowBuffer(RemoteBuffer, allocator);
    buf.FetchAndAdd(creator);
  }

  /** eglHybrisCreateNativeBuffer, which asserts that there is an allocator. */
  method CreateNativeBuffer(allocator: bool, agrees: bool, ghost creator: Token)
    returns (buf: RemoteWindowBuffer?)
    ensures buf != null ==> fresh(buf) && buf.Valid()
    ensures Made(NativeBuffer, allocator, agrees, creator) ==
            if buf == null then None else Some(buf.View())
  {
    if !allocator || !agrees {
      return null;
    }
    buf := new RemoteWindowBuffer(NativeBuffer, allocator);
    buf.FetchAndAdd(creator);
    buf.SetAllocated(true);
  }
}
