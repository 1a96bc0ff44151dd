/** What each request of the android_wlegl protocol does, and with what error it is refused. */
module WleglCalls {
  import opened Lists
  import opened NativeHandle
  import opened WleglProtocol

  /** A handle is made exactly of a count that is not negative, and starts without descriptors. */
  lemma HandleMadeIff(s: State, id: nat, numFds: int, ints: seq<int>)
    requires id !in s.handles
    ensures var t := Step(s, CreateHandle(id, numFds, ints));
            && (id in t.handles <==> numFds >= 0)
            && (id in t.handles ==>
                  t.handles == s.handles[id := Pending(numFds, ints, [])] && t.errors == s.errors)
            && (id !in t.handles ==> t == s.(errors := s.errors + [NegativeFds]))
            && t.natives == s.natives && t.closed == s.closed
  {
  }

  /** A descriptor goes to the back of its handle exactly while four bytes for each one there are fewer
      than four bytes for each one declared, in 32 bits; else it is closed at once, with an error. */
  lemma FdTakenIff(s: State, id: nat, fd: int)
    requires id in s.handles
    ensures var h, t := s.handles[id], Step(s, AddFd(id, fd));
            && id in t.handles && t.handles.Keys == s.handles.Keys && t.natives == s.natives
            && (forall j | j in s.handles :: j != id ==> t.handles[j] == s.handles[j])
            && (if |h.fds| * 4 < h.numFds * 4 % 0x1_0000_0000
                then t.handles[id] == Pending(h.numFds, h.ints, h.fds + [fd])
                     && t.closed == s.closed && t.errors == s.errors
                else t.handles[id] == h && t.closed == s.closed + [fd] && t.errors == s.errors + [TooManyFds])
  {
  }

  /** The descriptors a handle still has when it goes are closed, in order. */
  lemma HandleGoes(s: State, id: nat)
    requires id in s.handles
    ensures var t := Step(s, DestroyHandle(id));
            && t.handles == s.handles - {id} && t.closed == s.closed + s.handles[id].fds
            && t.natives == s.natives && t.errors == s.errors
  {
  }

  /** A buffer is made exactly of a positive size, a handle that has all its descriptors, and a handle
      gralloc registers. It takes the descriptors and a copy of the ints. */
  lemma BufferMadeIff(s: State, b: nat, width: int, height: int, id: nat, registers: bool)
    requires id in s.handles && b !in s.natives
    ensures var h, t := s.handles[id], Step(s, CreateBuffer(b, width, height, id, registers));
            && (b in t.natives <==> width >= 1 && height >= 1 && |h.fds| == h.numFds && registers)
            && (b in t.natives ==>
                  && t.natives == s.natives[b := t.natives[b]] && WellFormed(t.natives[b])
                  && FdsOf(t.natives[b]) == h.fds && IntsOf(t.natives[b]) == h.ints
                  && t.handles == s.handles[id := Pending(h.numFds, h.ints, [])]
                  && t.closed == s.closed && t.errors == s.errors)
            && (b !in t.natives ==> t.natives == s.natives && |t.errors| == |s.errors| + 1)
  {
    hide Retag;
  }

  /** Which error refuses it, and what becomes of the descriptors: a bad size or a missing descriptor
      leaves the handle as it was, and gralloc's refusal closes them all. */
  lemma BufferRefused(s: State, b: nat, width: int, height: int, id: nat, registers: bool)
    requires id in s.handles && b !in s.natives
    ensures var h, t := s.handles[id], Step(s, CreateBuffer(b, width, height, id, registers));
            && (width < 1 || height < 1 ==> t == s.(errors := s.errors + [BadSize]))
            && (width >= 1 && height >= 1 && |h.fds| != h.numFds ==> t == s.(errors := s.errors + [FdCountMismatch]))
            && (width >= 1 && height >= 1 && |h.fds| == h.numFds && !registers ==>
                  && t.errors == s.errors + [InvalidHandle] && t.closed == s.closed + h.fds
                  && t.handles == s.handles[id := Pending(h.numFds, h.ints, [])])
  {
    hide Retag;
  }

  ghost predicate NoneOverfull(s: State) {
    forall id | id in s.handles :: |s.handles[id].fds| <= s.handles[id].numFds
  }

  lemma StepKeepsNoneOverfull(s: State, r: Request)
    requires NoneOverfull(s)
    ensures NoneOverfull(Step(s, r))
  {
    hide Assemble, Retag, FdsOf;
  }

  /** Whatever the client sends, no handle ever has more descriptors than it declared. */
  lemma {:induction false} NeverOverfull(s: State, requests: seq<Request>)
    requires NoneOverfull(s)
    ensures NoneOverfull(Run(s, requests))
    decreases |requests|
  {
    hide NoneOverfull, Step, Permitted;
    if requests != [] && Permitted(s, requests[0]) {
      StepKeepsNoneOverfull(s, requests[0]);
      NeverOverfull(Step(s, requests[0]), requests[1..]);
    }
  }
}
