/** A client's buffers in the server: the descriptor ledger and the reference counts together, over
    all interleavings of requests and of references taken and dropped by any thread. */
module BufferLife {
  import opened Lists
  import N = NativeHandle
  import R = RefCount
  import W = WleglProtocol

  /** `bufs` are the buffers ever made, `made` the native handle each was made around. */
  datatype State = State(server: W.State, bufs: map<nat, R.State>, made: map<nat, N.Native>)

  datatype Action =
    | Request(r: W.Request, creator: R.Token)
    | Use(b: nat, a: R.Action)

  /** Requests come from the client; a buffer's end is no request but the deletion of its object.
      Buffer objects are new. */
  ghost predicate Permitted(s: State, a: Action) {
    match a
    case Request(r, _) =>
      !r.ReleaseBuffer? && W.Permitted(s.server, r) && (r.CreateBuffer? ==> r.buffer !in s.bufs)
    case Use(b, act) => b in s.bufs && R.Permitted(s.bufs[b], act)
  }

  function RequestStep(s: State, r: W.Request, creator: R.Token): State {
    var t := W.Step(s.server, r);
    if r.CreateBuffer? && r.buffer in t.natives && r.buffer !in s.server.natives then
      State(t, s.bufs[r.buffer := R.Made(R.ClientBuffer, false, true, creator).value],
            s.made[r.buffer := t.natives[r.buffer]])
    else s.(server := t)
  }

  /** The destructor gives the native handle back. */
  function Step(s: State, a: Action): State {
    match a
    case Request(r, creator) => RequestStep(s, r, creator)
    case Use(b, act) =>
      if b !in s.bufs then s
      else
        s.(bufs := s.bufs[b := R.Step(s.bufs[b], act)],
           server := if act == R.Delete then W.Step(s.server, W.ReleaseBuffer(b)) else s.server)
  }

  /** The server keeps the native handle of a buffer until the buffer is destroyed. */
  ghost predicate Linked(s: State, b: nat)
    requires b in s.bufs
  {
    && R.Inv(s.bufs[b]) && s.bufs[b].maker == R.ClientBuffer && b in s.made && N.WellFormed(s.made[b])
    && (b in s.server.natives <==> s.bufs[b].destroyed == 0)
    && (b in s.server.natives ==> s.server.natives[b] == s.made[b])
  }

  /** What a destroyed buffer held has been closed. */
  ghost predicate Buried(s: State, b: nat)
    requires b in s.bufs && Linked(s, b)
  {
    s.bufs[b].destroyed > 0 ==> Elems(N.FdsOf(s.made[b])) <= Elems(s.server.closed)
  }

  ghost predicate Inv(s: State) {
    && W.Inv(s.server)
    && s.server.natives.Keys <= s.bufs.Keys == s.made.Keys
    && (forall b | b in s.bufs :: Linked(s, b))
    && (forall b | b in s.bufs :: Buried(s, b))
  }

  const START: State := State(W.IDLE, map[], map[])

  lemma StartInv()
    ensures Inv(START)
  {
    W.IdleInv();
  }

  // ---- Every step keeps the invariant ------------------------------------------------------

  /** No request but a release takes a native handle from the server, and what is closed stays so. */
  lemma RequestKeepsNatives(s: W.State, r: W.Request)
    requires W.Permitted(s, r) && !r.ReleaseBuffer?
    ensures var t := W.Step(s, r);
            && (forall c | c in s.natives :: c in t.natives && t.natives[c] == s.natives[c])
            && t.natives.Keys <= s.natives.Keys + (if r.CreateBuffer? then {r.buffer} else {})
            && Elems(s.closed) <= Elems(t.closed)
  {
    hide W.Retag, N.Assemble, N.FdsOf;
  }

  lemma ReleaseTakesOne(s: W.State, b: nat)
    requires W.Inv(s) && b in s.natives
    ensures var t := W.Step(s, W.ReleaseBuffer(b));
            && N.WellFormed(s.natives[b])
            && t.natives == s.natives - {b} && t.closed == s.closed + N.FdsOf(s.natives[b])
            && Elems(s.closed) <= Elems(t.closed)
            && Elems(N.FdsOf(s.natives[b])) <= Elems(t.closed)
  {
  }

  lemma RequestKeepsInv(s: State, r: W.Request, creator: R.Token)
    requires Inv(s) && Permitted(s, Request(r, creator))
    ensures Inv(Step(s, Request(r, creator)))
  {
    hide W.Inv, W.Step, W.Permitted, N.FdsOf, N.WellFormed, Elems, R.Inv;
    var t := Step(s, Request(r, creator));
    W.StepKeepsInv(s.server, r);
    RequestKeepsNatives(s.server, r);
    R.MadeKeepsInv(R.ClientBuffer, false, true, creator);
    FreshBuffer(creator);
    if r.CreateBuffer? && r.buffer in t.server.natives {
      NativeIsWellFormed(t.server, r.buffer);
    }
    forall b | b in t.bufs
      ensures Linked(t, b) && Buried(t, b)
    {
      if b in s.bufs {
        assert Linked(s, b) && Buried(s, b);
        assert t.bufs[b] == s.bufs[b] && t.made[b] == s.made[b];
      }
    }
  }

  lemma NativeIsWellFormed(s: W.State, b: nat)
    requires W.Inv(s) && b in s.natives
    ensures N.WellFormed(s.natives[b])
  {
  }

  lemma FreshBuffer(creator: R.Token)
    ensures var m := R.Made(R.ClientBuffer, false, true, creator);
            m.Some? && m.value.destroyed == 0 && m.value.maker == R.ClientBuffer
  {
  }

  lemma DeleteKeepsInv(s: State, b: nat)
    requires Inv(s) && Permitted(s, Use(b, R.Delete))
    ensures Inv(Step(s, Use(b, R.Delete)))
  {
    hide W.Inv, W.Step, N.FdsOf, N.WellFormed, Elems, R.Inv, R.Step;
    var t := Step(s, Use(b, R.Delete));
    assert Linked(s, b) && Buried(s, b);
    R.StepKeepsInv(s.bufs[b], R.Delete);
    UseDestroys(s.bufs[b], R.Delete);
    W.StepKeepsInv(s.server, W.ReleaseBuffer(b));
    ReleaseTakesOne(s.server, b);
    forall c | c in t.bufs
      ensures Linked(t, c) && Buried(t, c)
    {
      assert Linked(s, c) && Buried(s, c);
    }
  }

  lemma CountKeepsInv(s: State, b: nat, act: R.Action)
    requires Inv(s) && Permitted(s, Use(b, act)) && act != R.Delete
    ensures Inv(Step(s, Use(b, act)))
  {
    hide W.Inv, N.FdsOf, N.WellFormed, Elems, R.Inv, R.Step, R.Permitted;
    var t := Step(s, Use(b, act));
    assert Linked(s, b) && Buried(s, b);
    R.StepKeepsInv(s.bufs[b], act);
    UseDestroys(s.bufs[b], act);
    forall c | c in t.bufs
      ensures Linked(t, c) && Buried(t, c)
    {
      assert Linked(s, c) && Buried(s, c);
    }
  }

  lemma UseDestroys(r: R.State, act: R.Action)
    requires R.Inv(r) && R.Permitted(r, act)
    ensures R.Step(r, act).destroyed == r.destroyed + if act == R.Delete then 1 else 0
    ensures act == R.Delete ==> r.destroyed == 0
  {
  }

  lemma StepKeepsInv(s: State, a: Action)
    requires Inv(s) && Permitted(s, a)
    ensures Inv(Step(s, a))
  {
    hide Inv, Permitted, Step;
    match a
    case Request(r, creator) => RequestKeepsInv(s, r, creator);
    case Use(b, act) =>
      if act == R.Delete {
        DeleteKeepsInv(s, b);
      } else {
        CountKeepsInv(s, b, act);
      }
  }

  ghost function Run(s: State, actions: seq<Action>): State
    decreases |actions|
  {
    if actions == [] || !Permitted(s, actions[0]) then s else Run(Step(s, actions[0]), actions[1..])
  }

  lemma {:induction false} InvOverRun(s: State, actions: seq<Action>)
    requires Inv(s)
    ensures Inv(Run(s, actions))
    decreases |actions|
  {
    hide Inv, Permitted, Step;
    if actions != [] && Permitted(s, actions[0]) {
      StepKeepsInv(s, actions[0]);
      InvOverRun(Step(s, actions[0]), actions[1..]);
    }
  }

  // ---- What holds in every run -----------------------------------------------------------

  /** A request makes a buffer exactly when its size and its handle are good and gralloc agrees; the
      buffer is around the handle's own descriptors and ints and is held by one reference. */
  lemma CreatedIsHeld(s: State, b: nat, width: int, height: int, id: nat, registers: bool, creator: R.Token)
    requires Inv(s) && Permitted(s, Request(W.CreateBuffer(b, width, height, id, registers), creator))
    ensures id in s.server.handles
    ensures var h := s.server.handles[id];
            var t := Step(s, Request(W.CreateBuffer(b, width, height, id, registers), creator));
            && (b in t.bufs <==> width >= 1 && height >= 1 && |h.fds| == h.numFds && registers)
            && (b !in t.bufs ==> t.bufs == s.bufs && t.made == s.made)
            && (b in t.bufs ==>
                  && t.bufs.Keys == s.bufs.Keys + {b} && t.bufs[b].refs == {creator} && t.bufs[b].count == 1
                  && b in t.made && N.WellFormed(t.made[b])
                  && N.FdsOf(t.made[b]) == h.fds && N.IntsOf(t.made[b]) == h.ints)
  {
    R.MadeIff(R.ClientBuffer, false, true, creator);
    hide W.Inv, W.Retag, R.Made, R.Inv;
  }

  /** While anyone holds a reference to a buffer the server keeps its handle as it was made and none
      of its descriptors is closed; once the last reference is gone and the buffer deleted, every one
      of them has been closed, and the registration given back, exactly once. */
  lemma HandleLivesWithReferences(actions: seq<Action>, b: nat)
    ensures var s := Run(START, actions);
            b in s.bufs ==>
              && b in s.made && N.WellFormed(s.made[b])
              && (s.bufs[b].refs != {} ==>
                    && b in s.server.natives && s.server.natives[b] == s.made[b]
                    && s.bufs[b].released == R.NOTHING
                    && forall fd | fd in N.FdsOf(s.made[b]) :: fd !in s.server.closed)
              && (s.bufs[b].refs == {} && s.bufs[b].dying == 0 ==>
                    && b !in s.server.natives
                    && s.bufs[b].released == R.Returned(R.Registered)
                    && forall fd | fd in N.FdsOf(s.made[b]) :: multiset(s.server.closed)[fd] == 1)
  {
    StartInv();
    InvOverRun(START, actions);
    var s := Run(START, actions);
    if b in s.bufs {
      assert Linked(s, b) && Buried(s, b);
      hide W.Inv, N.FdsOf, N.WellFormed;
      if s.bufs[b].refs != {} {
        NativeIsOpen(s.server, b);
      } else if s.bufs[b].dying == 0 {
        forall fd | fd in N.FdsOf(s.made[b]) ensures multiset(s.server.closed)[fd] == 1 {
          assert fd in Elems(s.server.closed);
          ClosedOnce(s.server, fd);
        }
      }
    }
  }

  lemma NativeIsOpen(s: W.State, b: nat)
    requires W.Inv(s) && b in s.natives
    ensures N.WellFormed(s.natives[b])
    ensures forall fd | fd in N.FdsOf(s.natives[b]) :: fd !in s.closed
  {
    forall fd | fd in N.FdsOf(s.natives[b]) ensures fd !in s.closed {
      assert fd in Elems(N.FdsOf(s.natives[b]));
      assert fd in s.closed ==> fd in Elems(s.closed);
    }
  }

  lemma ClosedOnce(s: W.State, fd: int)
    requires W.Inv(s) && fd in s.closed
    ensures multiset(s.closed)[fd] == 1
  {
    W.OnceIn(s.closed, fd);
  }

  /** A buffer's handle leaves the server at the deletion of the buffer and at no other step; that
      step closes exactly its descriptors; and it can be taken exactly when the last reference has
      been dropped and it has not been taken yet. */
  lemma ReleasedAtDeletionIff(s: State, a: Action, b: nat)
    requires Inv(s) && Permitted(s, a) && b in s.server.natives
    ensures b !in Step(s, a).server.natives <==> a == Use(b, R.Delete)
    ensures a == Use(b, R.Delete) ==>
              N.WellFormed(s.made[b]) && Step(s, a).server.closed == s.server.closed + N.FdsOf(s.made[b])
    ensures Permitted(s, Use(b, R.Delete)) <==> s.bufs[b].refs == {}
  {
    assert Linked(s, b);
    DeletePermittedIff(s.bufs[b]);
    if a.Request? {
      hide W.Inv, W.Step, N.FdsOf, N.WellFormed, R.Inv, Inv;
      RequestKeepsNatives(s.server, a.r);
    } else {
      assert Linked(s, a.b);
      hide W.Inv, W.Step, N.FdsOf, N.WellFormed, R.Inv, R.Step, R.Permitted, Inv;
      if a.a == R.Delete {
        UseDestroys(s.bufs[a.b], a.a);
        assert a.b in s.server.natives;
        ReleaseTakesOne(s.server, a.b);
      }
    }
  }

  lemma DeletePermittedIff(r: R.State)
    requires R.Inv(r) && r.destroyed == 0
    ensures R.Permitted(r, R.Delete) <==> r.refs == {}
  {
  }
}
