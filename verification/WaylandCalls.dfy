/** What one event and one call of WaylandQueue come to, in terms of the lists and the events alone. */
module WaylandCalls {
  import opened Lists
  import opened WaylandQueue

  // ---- Events ----------------------------------------------------------------------------

  /** A dispatch delivers every event of its batch, in order. */
  lemma {:induction false} DispatchDelivers(s: State, batch: Batch, e: Event)
    ensures Dispatch(s, []) == s
    ensures Dispatch(s, batch + [e]) == Deliver(Dispatch(s, batch), e)
    decreases |batch|
  {
    hide Deliver;
    if batch == [] {
      assert [] + [e] == [e] && [e][1..] == [];
    } else {
      assert (batch + [e])[1..] == batch[1..] + [e];
      DispatchDelivers(Deliver(s, batch[0]), batch[1..], e);
    }
  }

  lemma {:induction false} DispatchInTwo(s: State, a: Batch, b: Batch)
    ensures Dispatch(s, a + b) == Dispatch(Dispatch(s, a), b)
    decreases |a|
  {
    hide Deliver;
    if a == [] {
      assert a + b == b;
    } else {
      assert (a + b)[1..] == a[1..] + b;
      DispatchInTwo(Deliver(s, a[0]), a[1..], b);
    }
  }

  /** A release makes the compositor's k-th buffer idle, and the youngest one, and nothing else. */
  lemma ReleaseFrees(s: State, k: nat)
    requires Inv(s)
    ensures k >= |s.comp.held| ==> Deliver(s, Release(k)) == s
    ensures k < |s.comp.held| ==>
              var b, t := s.fronted[k], Deliver(s, Release(k));
              && b !in Idle(s) && Idle(t) == Idle(s) + {b} && t.free == s.free + 1
              && t.log.last == Some(b)
              && t.fronted == s.fronted[..k] + s.fronted[k + 1..]
              && t.comp.held == s.comp.held[..k] + s.comp.held[k + 1..]
              && t.frame == s.frame && t.log.frameEvents == s.log.frameEvents
  {
    if k < |s.comp.held| {
      ReleaseIsLetGo(s, k);
      LetGoCells(s, k);
      LetGoOut(s, k);
      assert s.fronted[k] in Elems(Out(s));
      assert s.fronted[k] !in Idle(s);
      hide Inv, Deliver, WithBusy, Out, Elems, NoDup;
    }
  }

  /** A frame event answers the outstanding callback, if there is one, and frees nothing. */
  lemma FrameEventAnswers(s: State)
    requires Inv(s)
    ensures var t := Deliver(s, FrameDone);
            && !t.frame && t.log.frameEvents == s.log.frameEvents + (if s.frame then 1 else 0)
            && t.cell == s.cell && t.free == s.free && t.fronted == s.fronted
            && t.comp.held == s.comp.held && t.log.last == s.log.last
  {
  }

  lemma FrameAfterOne(s: State, e: Event)
    requires Inv(s)
    ensures Inv(Deliver(s, e)) && (Deliver(s, e).frame <==> s.frame && e != FrameDone)
  {
    DeliverKeepsInv(s, e);
    hide Inv, Deliver;
    if e.Release? {
      ReleaseFrees(s, e.k);
    } else {
      FrameEventAnswers(s);
    }
  }

  lemma {:induction false} FrameAfter(s: State, batch: Batch)
    requires Inv(s)
    ensures Dispatch(s, batch).frame <==> s.frame && FrameDone !in batch
    decreases |batch|
  {
    hide Inv, Deliver;
    if batch != [] {
      FrameAfterOne(s, batch[0]);
      assert batch == [batch[0]] + batch[1..];
      FrameAfter(Deliver(s, batch[0]), batch[1..]);
    }
  }

  /** Among these events is the release of a buffer the compositor holds now. */
  predicate Frees(held: seq<nat>, batch: Batch) {
    exists e | e in batch :: e.Release? && e.k < |held|
  }

  lemma FreesHead(held: seq<nat>, batch: Batch)
    requires batch != []
    ensures Frees(held, batch) <==> (batch[0].Release? && batch[0].k < |held|) || Frees(held, batch[1..])
  {
    assert batch == [batch[0]] + batch[1..];
  }

  lemma FreesInTwo(held: seq<nat>, a: Batch, b: Batch)
    ensures Frees(held, a + b) <==> Frees(held, a) || Frees(held, b)
  {
  }

  /** When nothing is idle, events make a buffer idle exactly when one of them is such a release. */
  lemma {:induction false} IdleAfter(s: State, batch: Batch)
    requires Inv(s) && Idle(s) == {}
    ensures Idle(Dispatch(s, batch)) == {} <==> !Frees(s.comp.held, batch)
    ensures !Frees(s.comp.held, batch) ==> Dispatch(s, batch).comp.held == s.comp.held
    decreases |batch|
  {
    if batch != [] {
      FreesHead(s.comp.held, batch);
      DeliverKeepsInv(s, batch[0]);
      if batch[0].Release? {
        ReleaseFrees(s, batch[0].k);
      } else {
        FrameEventAnswers(s);
      }
      var u := Deliver(s, batch[0]);
      hide Inv, Deliver, Frees;
      if Idle(u) == {} {
        IdleAfter(u, batch[1..]);
      } else {
        DispatchKeepsInv(u, batch[1..]);
        assert Idle(u) <= Idle(Dispatch(u, batch[1..]));
      }
    }
  }

  // ---- Waiting ---------------------------------------------------------------------------

  /** All the events of a script, in order. */
  function Flat(script: seq<Batch>): Batch {
    if script == [] then [] else script[0] + Flat(script[1..])
  }

  lemma FlatHead(script: seq<Batch>)
    ensures Flat(script) == Head(script) + Flat(Rest(script))
  {
  }

  /** The state after the first `n` reads of a script. */
  function After(s: State, script: seq<Batch>, n: nat): State
    requires n <= |script|
    decreases n
  {
    if n == 0 then s else After(Dispatch(s, script[0]), script[1..], n - 1)
  }

  /** The wait for a free buffer reads batch by batch and stops at the first after which the counter
      is not 0. */
  lemma {:induction false} WaitFreeStops(s: State, script: seq<Batch>) returns (n: nat)
    ensures n <= |script| && WaitFree(s, script) == (After(s, script, n), script[n..])
    ensures forall m: nat :: m < n ==> After(s, script, m).free == 0
    ensures n < |script| ==> After(s, script, n).free != 0
    decreases |script|
  {
    hide Dispatch;
    if s.free != 0 || script == [] {
      n := 0;
    } else {
      var u := Dispatch(s, script[0]);
      var k := WaitFreeStops(u, script[1..]);
      n := k + 1;
      assert script[1..][k..] == script[n..];
      forall m: nat | m < n ensures After(s, script, m).free == 0 {
        if m > 0 {
          assert After(s, script, m) == After(u, script[1..], m - 1);
        }
      }
    }
  }

  /** The wait of finishSwap stops at the first after which no frame event is outstanding. */
  lemma {:induction false} WaitFrameStops(s: State, script: seq<Batch>) returns (n: nat)
    ensures n <= |script| && WaitFrame(s, script) == After(s, script, n)
    ensures forall m: nat :: m < n ==> After(s, script, m).frame
    ensures n < |script| ==> !After(s, script, n).frame
    decreases |script|
  {
    hide Dispatch;
    if !s.frame || script == [] {
      n := 0;
    } else {
      var u := Dispatch(s, script[0]);
      var k := WaitFrameStops(u, script[1..]);
      n := k + 1;
      forall m: nat | m < n ensures After(s, script, m).frame {
        if m > 0 {
          assert After(s, script, m) == After(u, script[1..], m - 1);
        }
      }
    }
  }

  lemma FreeIsIdle(s: State)
    requires Inv(s)
    ensures s.free == 0 <==> Idle(s) == {}
  {
  }

  lemma {:induction false} WaitFreeFailsIff(s: State, script: seq<Batch>)
    requires Inv(s)
    ensures WaitFree(s, script).0.free == 0 <==> Idle(s) == {} && !Frees(s.comp.held, Flat(script))
    ensures WaitFree(s, script).0.free == 0 ==> WaitFree(s, script).0 == Dispatch(s, Flat(script))
    decreases |script|
  {
    FreeIsIdle(s);
    hide Inv, Idle;
    if s.free == 0 && script != [] {
      var u := Dispatch(s, script[0]);
      DispatchKeepsInv(s, script[0]);
      IdleAfter(s, script[0]);
      FreesInTwo(s.comp.held, script[0], Flat(script[1..]));
      DispatchInTwo(s, script[0], Flat(script[1..]));
      hide Frees;
      WaitFreeFailsIff(u, script[1..]);
    }
  }

  lemma {:induction false} WaitFrameFailsIff(s: State, script: seq<Batch>)
    requires Inv(s)
    ensures WaitFrame(s, script).frame <==> s.frame && FrameDone !in Flat(script)
    decreases |script|
  {
    if s.frame && script != [] {
      DispatchKeepsInv(s, script[0]);
      FrameAfter(s, script[0]);
      hide Inv, Dispatch;
      WaitFrameFailsIff(Dispatch(s, script[0]), script[1..]);
    }
  }

  /** dequeueBuffer is still waiting exactly when nothing was idle and no event it reads releases a
      buffer that the compositor held; it has then read all of them. */
  lemma DequeueBlocksIff(s: State, script: seq<Batch>, nb: Buffer)
    requires Inv(s) && nb !in s.log.seen
    ensures Dequeue(s, script, nb).1 == Blocked <==> Idle(s) == {} && !Frees(s.comp.held, Flat(script))
    ensures Dequeue(s, script, nb).1 == Blocked ==> Dequeue(s, script, nb).0 == Dispatch(s, Flat(script))
  {
    hide Inv, Idle, Dispatch, WaitFree, Select, Destroy, AddBuffer, Take;
    var u := Dispatch(s, Head(script));
    DispatchKeepsInv(s, Head(script));
    FlatHead(script);
    DispatchInTwo(s, Head(script), Flat(Rest(script)));
    FreesInTwo(s.comp.held, Head(script), Flat(Rest(script)));
    hide Flat, Frees;
    WaitFreeFailsIff(u, Rest(script));
    if Idle(s) == {} {
      IdleAfter(s, Head(script));
    } else {
      assert Idle(s) <= Idle(u);
    }
    DequeueKeepsInv(s, script, nb);
  }

  lemma WaitFrameAfter(s: State, script: seq<Batch>)
    requires Inv(s)
    ensures WaitFrame(Dispatch(s, Head(script)), Rest(script)).frame <==> s.frame && FrameDone !in Flat(script)
  {
    DispatchKeepsInv(s, Head(script));
    FrameAfter(s, Head(script));
    FlatHead(script);
    hide Inv, Dispatch, Flat, WaitFrame;
    WaitFrameFailsIff(Dispatch(s, Head(script)), Rest(script));
  }

  /** finishSwap is still waiting exactly when a frame event was outstanding and none comes. */
  lemma FinishSwapBlocksIff(s: State, script: seq<Batch>)
    requires Inv(s) && s.swapping == [] && s.queue != []
    ensures FinishSwap(s, script).1 == Blocked <==> s.frame && FrameDone !in Flat(script)
  {
    SwapBeginKeepsInv(s);
    FinishSwapKeepsInv(s, script);
    WaitFrameAfter(SwapBegin(s), script);
    hide Inv, Dispatch, WaitFrame, Commit, Flat;
  }

  // ---- dequeueBuffer ---------------------------------------------------------------------

  /** The buffer chosen is the first idle one, the one released last being passed over as long as
      another is idle. */
  lemma SelectsFirst(s: State)
    requires Inv(s) && s.free != 0
    ensures Select(s) < |s.bufs| && s.bufs[Select(s)] in Idle(s)
    ensures s.log.last == Some(s.bufs[Select(s)]) ==> Idle(s) == {s.bufs[Select(s)]}
    ensures forall j :: 0 <= j < Select(s) && s.bufs[j] in Idle(s) ==> s.log.last == Some(s.bufs[j])
  {
    SelectFinds(s);
    forall j | 0 <= j < Select(s) && s.bufs[j] in Idle(s) ensures s.log.last == Some(s.bufs[j]) {
      assert IdleNow(s)(s.bufs[j]);
      assert !IdleAndOld(s)(s.bufs[j]);
    }
  }

  /** The state in which dequeueBuffer chooses: after the events it reads while it waits. */
  function Choosing(s: State, script: seq<Batch>): State {
    WaitFree(Dispatch(s, Head(script)), Rest(script)).0
  }

  lemma ChoosingKeeps(s: State, script: seq<Batch>)
    requires Inv(s)
    ensures var u := Choosing(s, script);
            && Inv(u) && u.bufs == s.bufs && u.want == s.want && u.make == s.make && u.interval == s.interval
            && u.log.seen == s.log.seen && u.queue == s.queue && u.swapping == s.swapping && Idle(s) <= Idle(u)
  {
    hide Inv, Idle;
    DispatchKeepsInv(s, Head(script));
    WaitFreeKeepsInv(Dispatch(s, Head(script)), Rest(script));
  }

  /** Whether the buffer chosen is handed out or replaced is a matter of its geometry alone: one of
      the wanted geometry goes to the client and the list stays; any other leaves the list, and the
      new buffer comes to its end and goes to the client. */
  lemma DequeueReplacesIff(s: State, script: seq<Batch>, nb: Buffer)
    requires Inv(s) && nb !in s.log.seen && Dequeue(s, script, nb).1.Got?
    ensures var u := Choosing(s, script);
            && u.bufs == s.bufs && Select(u) < |s.bufs| && s.bufs[Select(u)] in Idle(u)
            && var (t, r) := Dequeue(s, script, nb);
               var i := Select(u);
               && r.buffer == (if s.bufs[i].geometry == s.want then s.bufs[i] else nb)
               && t.bufs == (if s.bufs[i].geometry == s.want then s.bufs else RemoveAt(s.bufs, i) + [nb])
               && t.interval == s.interval && t.want == s.want && t.make == s.make
  {
    ChoosingKeeps(s, script);
    hide Inv, Idle, Dispatch, WaitFree, Select, Destroy, AddBuffer;
    var (u, rest) := WaitFree(Dispatch(s, Head(script)), Rest(script));
    SelectWorks(u);
    var i := Select(u);
    if s.bufs[i].geometry != s.want {
      ReplaceKeeps(u, i, Head(rest), Head(Rest(rest)), nb);
    }
  }

  lemma ReplaceKeeps(s: State, i: nat, one: Batch, two: Batch, nb: Buffer)
    requires Inv(s) && i < |s.bufs| && s.bufs[i] in Idle(s) && nb !in s.log.seen
    ensures var t := AddBuffer(Destroy(s, i, one), two, nb);
            && t.bufs == RemoveAt(s.bufs, i) + [nb]
            && t.interval == s.interval && t.want == s.want && t.make == s.make
  {
    DestroyKeepsInv(s, i, one);
    DispatchKeepsInv(s, one);
    var v := Destroy(s, i, one);
    DispatchKeepsInv(v, two);
    hide Inv, Dispatch, Idle;
  }

  /** A window whose buffers all have the wanted geometry destroys and makes none. */
  lemma FittingIsReused(s: State, script: seq<Batch>, nb: Buffer)
    requires Inv(s) && nb !in s.log.seen && forall b | b in s.bufs :: b.geometry == s.want
    ensures var (t, r) := Dequeue(s, script, nb);
            t.bufs == s.bufs && (r.Got? ==> r.buffer in s.bufs && r.buffer != nb)
  {
    AllSeen(s);
    hide Inv, Idle, Dequeue;
    var (t, r) := Dequeue(s, script, nb);
    DequeueKeepsInv(s, script, nb);
    if r.Got? {
      DequeueReplacesIff(s, script, nb);
      hide Choosing, Select;
    } else {
      DequeueBlocksIff(s, script, nb);
    }
  }

  /** The new buffer is handed out exactly when some buffer left the list; that one was idle by then
      and did not have the wanted geometry. */
  lemma NewIffReplaced(s: State, script: seq<Batch>, nb: Buffer)
    requires Inv(s) && nb !in s.log.seen && Dequeue(s, script, nb).1.Got?
    ensures var (t, r) := Dequeue(s, script, nb);
            && (r.buffer == nb <==> exists c :: c in s.bufs && c !in t.bufs)
            && (forall c | c in s.bufs && c !in t.bufs ::
                  c.geometry != s.want && c in Idle(Choosing(s, script)))
  {
    hide Inv, Idle, Dequeue, Choosing, Select, Pairwise;
    AllSeen(s);
    DistinctBuffers(s);
    DequeueReplacesIff(s, script, nb);
    var (t, r) := Dequeue(s, script, nb);
    OneReplaced(s.bufs, Select(Choosing(s, script)), nb, s.want, t.bufs, r.buffer);
  }

  lemma DistinctBuffers(s: State)
    requires Inv(s)
    ensures Pairwise(s.bufs)
  {
    Distinct(s.bufs);
  }

  lemma OneReplaced(bufs: seq<Buffer>, i: nat, nb: Buffer, want: Geometry, now: seq<Buffer>, got: Buffer)
    requires Pairwise(bufs) && i < |bufs| && nb !in bufs
    requires got == if bufs[i].geometry == want then bufs[i] else nb
    requires now == if bufs[i].geometry == want then bufs else RemoveAt(bufs, i) + [nb]
    ensures got == nb <==> exists c :: c in bufs && c !in now
    ensures forall c | c in bufs && c !in now :: c == bufs[i] && c.geometry != want
  {
    if bufs[i].geometry != want {
      forall c | c in bufs ensures c !in now <==> c == bufs[i] {
        var j :| 0 <= j < |bufs| && bufs[j] == c;
        if j < i {
          assert now[j] == c;
        } else if j > i {
          assert now[j - 1] == c;
        }
      }
      assert bufs[i] in bufs;
    }
  }

  // ---- Making and destroying -------------------------------------------------------------

  lemma NothingPending(s: State)
    ensures Dispatch(s, []) == s
  {
  }

  /** Both read the pending events before anything else. */
  lemma EventsComeFirst(s: State, batch: Batch, nb: Buffer)
    ensures AddBuffer(s, batch, nb) == AddBuffer(Dispatch(s, batch), [], nb)
    ensures forall i: nat | i < |s.bufs| :: Destroy(s, i, batch) == Destroy(Dispatch(s, batch), i, [])
  {
    NothingPending(Dispatch(s, batch));
    hide Dispatch;
  }

  lemma AddThenDrop(bufs: seq<Buffer>, cell: map<Buffer, Cell>, nb: Buffer, c: Cell)
    requires nb !in cell
    ensures RemoveAt(bufs + [nb], |bufs|) == bufs && cell[nb := c] - {nb} == cell
  {
  }

  /** Destroying the buffer just made leaves the window as it was. */
  lemma DestroyUndoesAdd(s: State, nb: Buffer)
    requires nb !in s.cell
    ensures AddBuffer(s, [], nb).bufs == s.bufs + [nb]
    ensures Destroy(AddBuffer(s, [], nb), |s.bufs|, []) == s.(log := s.log.(seen := s.log.seen + {nb}))
  {
    NothingPending(s);
    NothingPending(AddBuffer(s, [], nb));
    AddThenDrop(s.bufs, s.cell, nb, Cell(0, 0, 0));
    hide Dispatch, RemoveAt;
  }

  /** Events delivered between two calls are as if dequeueBuffer had read them first. */
  lemma EventsBeforeDequeue(s: State, a: Batch, b: Batch, script: seq<Batch>, nb: Buffer)
    ensures Step(Step(s, EventsOp(a)).0, DequeueOp([b] + script, nb)) == Step(s, DequeueOp([a + b] + script, nb))
  {
    DispatchInTwo(s, a, b);
    assert ([b] + script)[1..] == script == ([a + b] + script)[1..];
    hide Dispatch, WaitFree, Select, Destroy, AddBuffer, Take;
  }

  // ---- Settings and the calls after them ---------------------------------------------------

  /** What a swap interval decides: with one of 1 or more the next swap asks for a frame event, with
      one of 0 or less it does not. */
  lemma IntervalDecides(s: State, interval: int, script: seq<Batch>)
    requires Inv(s) && s.swapping == [] && s.queue != []
    ensures var u := Step(s, IntervalOp(interval)).0;
            && u == s.(interval := u.interval) && 0 <= u.interval <= 1
            && var (t, r) := FinishSwap(u, script);
               r == Done ==> t.frame == (interval >= 1)
  {
    hide Inv, FinishSwap, Dequeue, SetBufferCount, Dispatch;
    StepKeepsSetting(s, interval);
    SwapPresentsOldest(Step(s, IntervalOp(interval)).0, script);
  }

  /** What a geometry decides: the next buffer handed out has it or is new. */
  lemma GeometryDecides(s: State, want: Geometry, make: Geometry, script: seq<Batch>, nb: Buffer)
    requires Inv(s) && s.swapping == [] && nb !in s.log.seen
    ensures var u := Step(s, GeometryOp(want, make)).0;
            && u.make == make
            && var (t, r) := Dequeue(u, script, nb);
               r.Got? ==> r.buffer == nb || (r.buffer in s.bufs && r.buffer.geometry == want)
  {
    var u := Step(s, GeometryOp(want, make)).0;
    SettingKeepsInv(s, u);
    DequeueHandsOut(u, script, nb);
    hide Inv, Dequeue;
  }

  // ---- finishSwap ------------------------------------------------------------------------

  /** The commit puts the wl_buffer of the oldest buffer last among those the compositor holds, one
      made now if it had none. */
  lemma CommitAttaches(u: State)
    requires Inv(u) && |u.swapping| == 1
    ensures var b, t := u.swapping[0], Commit(u);
            && b in u.cell && b in t.cell && t.fronted == u.fronted + [b]
            && t.comp.held == u.comp.held + [t.cell[b].wl] && t.cell[b].wl != 0
            && (u.cell[b].wl != 0 ==> t.cell[b].wl == u.cell[b].wl)
            && (u.cell[b].wl == 0 ==> t.cell[b].wl !in u.comp.named)
  {
    SwappingIsListed(u);
    assert u.swapping[0] in Elems(u.bufs);
  }

  predicate SameSettings(s: State, t: State) {
    t.interval == s.interval && t.want == s.want && t.make == s.make
  }

  lemma DequeueKeepsSettings(s: State, script: seq<Batch>, nb: Buffer)
    requires Inv(s) && nb !in s.log.seen
    ensures SameSettings(s, Dequeue(s, script, nb).0)
  {
    DequeueKeepsInv(s, script, nb);
    hide Inv, Dequeue, Choosing, Idle;
    if Dequeue(s, script, nb).1.Got? {
      DequeueReplacesIff(s, script, nb);
    } else {
      DequeueBlocksIff(s, script, nb);
      DispatchKeepsInv(s, Flat(script));
    }
  }

  lemma WaitKeepsSettings(s: State, script: seq<Batch>)
    requires Inv(s)
    ensures SameSettings(s, WaitFrame(Dispatch(s, Head(script)), Rest(script)))
  {
    DispatchKeepsInv(s, Head(script));
    hide Inv, Dispatch, WaitFrame, Idle;
    WaitFrameKeepsInv(Dispatch(s, Head(script)), Rest(script));
  }

  lemma SwapKeepsSettings(s: State)
    ensures s.queue != [] ==> SameSettings(s, SwapBegin(s))
    ensures |s.swapping| == 1 ==> SameSettings(s, Commit(s))
  {
  }

  lemma FinishSwapKeepsSettings(s: State, script: seq<Batch>)
    requires Inv(s) && s.swapping == [] && s.queue != []
    ensures SameSettings(s, FinishSwap(s, script).0)
  {
    SwapBeginKeepsInv(s);
    SwapKeepsSettings(s);
    WaitKeepsSettings(SwapBegin(s), script);
    SwapKeepsSettings(WaitFrame(Dispatch(SwapBegin(s), Head(script)), Rest(script)));
    hide Inv, Dispatch, WaitFrame, Commit, SwapBegin;
  }

  lemma DestroyKeepsSettings(s: State, batch: Batch)
    requires Inv(s) && s.bufs != []
    ensures SameSettings(s, Destroy(s, 0, batch)) && |Destroy(s, 0, batch).bufs| == |s.bufs| - 1
  {
    DispatchKeepsInv(s, batch);
    hide Inv, Dispatch, Idle;
  }

  lemma {:induction false} ShrinkKeepsSettings(s: State, cnt: nat, i: nat, script: seq<Batch>)
    requires Inv(s) && HeadsIdle(s, cnt, i, script)
    ensures SameSettings(s, Shrink(s, cnt, i, script))
    decreases |s.bufs|
  {
    hide Inv, Dispatch, Idle, Drop;
    if i + cnt <= |s.bufs| && s.bufs != [] {
      DestroyKeepsInvIff(s, 0, Head(script));
      DestroyKeepsSettings(s, Head(script));
      ShrinkKeepsSettings(Destroy(s, 0, Head(script)), cnt, i + 1, Rest(script));
    }
  }

  lemma {:induction false} GrowKeepsSettings(s: State, script: seq<Batch>, made: seq<Buffer>)
    requires Inv(s) && NoDup(made) && Elems(made) !! s.log.seen
    ensures SameSettings(s, Grow(s, script, made))
    decreases |made|
  {
    if made != [] {
      NoDupTail(made);
      assert made[0] in Elems(made) && Elems(made[1..]) <= Elems(made);
      AddBufferKeepsInv(s, Head(script), made[0]);
      DispatchKeepsInv(s, Head(script));
      hide Inv, Dispatch, Idle, NoDup;
      GrowKeepsSettings(AddBuffer(s, Head(script), made[0]), Rest(script), made[1..]);
    }
  }

  /** Only the setters change interval and geometry. */
  lemma {:induction false} SettingsStay(s: State, ops: seq<Op>)
    requires Inv(s) && forall op | op in ops :: !op.IntervalOp? && !op.GeometryOp?
    ensures SameSettings(s, Run(s, ops))
    decreases |ops|
  {
    if ops != [] && Permitted(s, ops[0]) {
      assert ops[0] in ops && forall op | op in ops[1..] :: op in ops;
      StepKeepsInv(s, ops[0]);
      StepKeepsSettings(s, ops[0]);
      hide Inv, Step, Permitted;
      SettingsStay(Step(s, ops[0]).0, ops[1..]);
    }
  }

  lemma StepKeepsSettings(s: State, op: Op)
    requires Inv(s) && Permitted(s, op) && !op.IntervalOp? && !op.GeometryOp?
    ensures SameSettings(s, Step(s, op).0)
  {
    hide Inv, Dequeue, FinishSwap, Dispatch, Shrink, Grow, HeadsIdle, NoDup, Elems;
    match op
    case DequeueOp(script, nb) => DequeueKeepsSettings(s, script, nb);
    case FinishSwapOp(script) => FinishSwapKeepsSettings(s, script);
    case EventsOp(batch) => DispatchKeepsInv(s, batch);
    case CountOp(cnt, script, made) =>
      if 0 <= cnt < |s.bufs| {
        ShrinkKeepsSettings(s, cnt, 0, script);
      } else if cnt > |s.bufs| {
        GrowKeepsSettings(s, script, made);
      }
  }

  // ---- One wl_buffer for life --------------------------------------------------------------

  /** No buffer's wl_buffer has been replaced or lost, and only a new buffer has come to the list. */
  ghost predicate KeepsWl(s: State, t: State) {
    && s.log.seen <= t.log.seen
    && (forall b | b in t.cell :: b in s.cell || b !in s.log.seen)
    && (forall b | b in s.cell && b in t.cell :: s.cell[b].wl != 0 ==> t.cell[b].wl == s.cell[b].wl)
  }

  lemma KeepsWlOn(s: State, t: State, u: State)
    requires s.cell.Keys <= s.log.seen && KeepsWl(s, t) && KeepsWl(t, u)
    ensures KeepsWl(s, u)
  {
  }

  lemma SeenCells(s: State)
    requires Inv(s)
    ensures s.cell.Keys <= s.log.seen
  {
  }

  lemma DeliverKeepsWl(s: State, e: Event)
    ensures KeepsWl(s, Deliver(s, e))
  {
    hide First, HasWl;
  }

  lemma {:induction false} DispatchKeepsWl(s: State, batch: Batch)
    requires Inv(s)
    ensures Inv(Dispatch(s, batch)) && KeepsWl(s, Dispatch(s, batch))
    decreases |batch|
  {
    DispatchKeepsInv(s, batch);
    if batch != [] {
      SeenCells(s);
      DeliverKeepsInv(s, batch[0]);
      DeliverKeepsWl(s, batch[0]);
      hide Inv, Deliver, KeepsWl;
      DispatchKeepsWl(Deliver(s, batch[0]), batch[1..]);
      KeepsWlOn(s, Deliver(s, batch[0]), Dispatch(s, batch));
    } else {
      hide Inv;
    }
  }

  lemma {:induction false} WaitsKeepWl(s: State, script: seq<Batch>)
    requires Inv(s)
    ensures KeepsWl(s, WaitFree(s, script).0) && KeepsWl(s, WaitFrame(s, script))
    decreases |script|
  {
    SeenCells(s);
    hide Inv, Dispatch;
    if script != [] {
      var u := Dispatch(s, script[0]);
      DispatchKeepsWl(s, script[0]);
      WaitsKeepWl(u, script[1..]);
      KeepsWlOn(s, u, WaitFree(u, script[1..]).0);
      KeepsWlOn(s, u, WaitFrame(u, script[1..]));
      assert KeepsWl(s, s);
      hide KeepsWl;
    }
  }

  lemma LocalKeepsWl(s: State, i: nat)
    requires i < |s.bufs|
    ensures KeepsWl(s, Take(s, i)) && KeepsWl(s, Drop(s, i))
  {
  }

  lemma AppendKeepsWl(s: State, nb: Buffer)
    requires nb !in s.log.seen && nb !in s.cell
    ensures KeepsWl(s, Append(s, nb))
  {
  }

  lemma DestroyKeepsWl(s: State, i: nat, batch: Batch)
    requires Inv(s) && i < |s.bufs|
    ensures KeepsWl(s, Destroy(s, i, batch))
  {
    SeenCells(s);
    DispatchKeepsWl(s, batch);
    var u := Dispatch(s, batch);
    LocalKeepsWl(u, i);
    hide Inv, KeepsWl, Dispatch, Drop;
    KeepsWlOn(s, u, Destroy(s, i, batch));
  }

  lemma AddKeepsWl(s: State, batch: Batch, nb: Buffer)
    requires Inv(s) && nb !in s.log.seen
    ensures KeepsWl(s, AddBuffer(s, batch, nb))
  {
    SeenCells(s);
    DispatchKeepsWl(s, batch);
    DispatchKeepsInv(s, batch);
    var u := Dispatch(s, batch);
    SeenCells(u);
    AppendKeepsWl(u, nb);
    hide Inv, KeepsWl, Dispatch, Append;
    KeepsWlOn(s, u, AddBuffer(s, batch, nb));
  }

  lemma ReplaceKeepsWl(s: State, i: nat, one: Batch, two: Batch, nb: Buffer)
    requires Inv(s) && i < |s.bufs| && s.bufs[i] in Idle(s) && nb !in s.log.seen
    ensures var t := AddBuffer(Destroy(s, i, one), two, nb);
            t.bufs != [] && KeepsWl(s, Take(t, |t.bufs| - 1))
  {
    SeenCells(s);
    DestroyKeepsInv(s, i, one);
    DestroyKeepsWl(s, i, one);
    var u := Destroy(s, i, one);
    AddKeepsWl(u, two, nb);
    AddBufferKeepsInv(u, two, nb);
    var t := AddBuffer(u, two, nb);
    LocalKeepsWl(t, |t.bufs| - 1);
    hide Inv, KeepsWl, Destroy, AddBuffer, Take, Idle;
    KeepsWlOn(s, u, t);
    KeepsWlOn(s, t, Take(t, |t.bufs| - 1));
  }

  /** dequeueBuffer once a buffer has been chosen. */
  lemma ServeKeepsWl(u: State, i: nat, rest: seq<Batch>, nb: Buffer, t: State)
    requires Inv(u) && i < |u.bufs| && u.bufs[i] in Idle(u) && nb !in u.log.seen
    requires var v := AddBuffer(Destroy(u, i, Head(rest)), Head(Rest(rest)), nb);
             t == Take(u, i) || (v.bufs != [] && t == Take(v, |v.bufs| - 1))
    ensures KeepsWl(u, t)
  {
    LocalKeepsWl(u, i);
    ReplaceKeepsWl(u, i, Head(rest), Head(Rest(rest)), nb);
    hide *;
  }

  /** The three ways a dequeue ends, the fourth being dead by `SelectFinds`. */
  lemma DequeueIsServed(s: State, script: seq<Batch>, nb: Buffer)
    ensures var (u, rest) := WaitFree(Dispatch(s, Head(script)), Rest(script));
            var t, i := Dequeue(s, script, nb).0, Select(u);
            && (u.free == 0 ==> t == u)
            && (u.free != 0 && i < |u.bufs| ==>
                  var v := AddBuffer(Destroy(u, i, Head(rest)), Head(Rest(rest)), nb);
                  v.bufs != [] && (t == Take(u, i) || t == Take(v, |v.bufs| - 1)))
  {
    hide Dispatch, WaitFree, Select, Drop, Take, Head, Rest;
  }

  lemma DequeueKeepsWl(s: State, script: seq<Batch>, nb: Buffer)
    requires Inv(s) && nb !in s.log.seen
    ensures KeepsWl(s, Dequeue(s, script, nb).0)
  {
    hide Inv, KeepsWl, Dispatch, WaitFree, Idle, Select, Destroy, AddBuffer, Take, Dequeue, Head, Rest;
    SeenCells(s);
    DispatchKeepsWl(s, Head(script));
    WaitsKeepWl(Dispatch(s, Head(script)), Rest(script));
    DequeueIsServed(s, script, nb);
    ChoosingKeeps(s, script);
    var (u, rest) := WaitFree(Dispatch(s, Head(script)), Rest(script));
    KeepsWlOn(s, Dispatch(s, Head(script)), u);
    if u.free != 0 {
      SelectWorks(u);
      ServeKeepsWl(u, Select(u), rest, nb, Dequeue(s, script, nb).0);
      KeepsWlOn(s, u, Dequeue(s, script, nb).0);
    }
  }

  lemma SwapKeepsWl(s: State)
    ensures s.queue != [] ==> KeepsWl(s, SwapBegin(s))
    ensures |s.swapping| == 1 ==> KeepsWl(s, Commit(s))
  {
  }

  lemma FinishSwapKeepsWl(s: State, script: seq<Batch>)
    requires Inv(s) && s.swapping == [] && s.queue != []
    ensures KeepsWl(s, FinishSwap(s, script).0)
  {
    SeenCells(s);
    SwapBeginKeepsInv(s);
    SwapKeepsWl(s);
    var v := SwapBegin(s);
    SeenCells(v);
    var w := Dispatch(v, Head(script));
    DispatchKeepsWl(v, Head(script));
    WaitsKeepWl(w, Rest(script));
    var u := WaitFrame(w, Rest(script));
    SwapKeepsWl(u);
    hide Inv, KeepsWl, Dispatch, WaitFrame, Commit, SwapBegin;
    KeepsWlOn(v, w, u);
    KeepsWlOn(s, v, u);
    KeepsWlOn(s, u, FinishSwap(s, script).0);
  }

  lemma {:induction false} ShrinkKeepsWl(s: State, cnt: nat, i: nat, script: seq<Batch>)
    requires Inv(s) && HeadsIdle(s, cnt, i, script)
    ensures KeepsWl(s, Shrink(s, cnt, i, script))
    decreases |s.bufs|
  {
    SeenCells(s);
    if i + cnt <= |s.bufs| && s.bufs != [] {
      var u := Destroy(s, 0, Head(script));
      DestroyKeepsInvIff(s, 0, Head(script));
      DestroyKeepsWl(s, 0, Head(script));
      hide Inv, KeepsWl, Dispatch, Idle;
      ShrinkKeepsWl(u, cnt, i + 1, Rest(script));
      KeepsWlOn(s, u, Shrink(s, cnt, i, script));
    }
  }

  lemma {:induction false} GrowKeepsWl(s: State, script: seq<Batch>, made: seq<Buffer>)
    requires Inv(s) && NoDup(made) && Elems(made) !! s.log.seen
    ensures KeepsWl(s, Grow(s, script, made))
    decreases |made|
  {
    SeenCells(s);
    if made != [] {
      NoDupTail(made);
      assert made[0] in Elems(made) && Elems(made[1..]) <= Elems(made);
      AddKeepsWl(s, Head(script), made[0]);
      AddBufferKeepsInv(s, Head(script), made[0]);
      var u := AddBuffer(s, Head(script), made[0]);
      hide Inv, KeepsWl, AddBuffer, NoDup;
      GrowKeepsWl(u, Rest(script), made[1..]);
      KeepsWlOn(s, u, Grow(s, script, made));
    }
  }

  lemma StepKeepsWl(s: State, op: Op)
    requires Inv(s) && Permitted(s, op)
    ensures KeepsWl(s, Step(s, op).0)
  {
    hide Inv, Dequeue, FinishSwap, Dispatch, Shrink, Grow, HeadsIdle, NoDup, Elems;
    match op
    case DequeueOp(script, nb) => DequeueKeepsWl(s, script, nb);
    case FinishSwapOp(script) => FinishSwapKeepsWl(s, script);
    case EventsOp(batch) => DispatchKeepsWl(s, batch);
    case IntervalOp(_) =>
    case GeometryOp(_, _) =>
    case CountOp(cnt, script, made) =>
      if 0 <= cnt < |s.bufs| {
        ShrinkKeepsWl(s, cnt, 0, script);
      } else if cnt > |s.bufs| {
        GrowKeepsWl(s, script, made);
      }
  }

  lemma {:induction false} RunKeepsWl(s: State, ops: seq<Op>)
    requires Inv(s)
    ensures KeepsWl(s, Run(s, ops))
    decreases |ops|
  {
    SeenCells(s);
    if ops == [] || !Permitted(s, ops[0]) {
      hide Inv;
    } else {
      StepKeepsInv(s, ops[0]);
      StepKeepsWl(s, ops[0]);
      hide Inv, KeepsWl, Step, Permitted;
      RunKeepsWl(Step(s, ops[0]).0, ops[1..]);
      KeepsWlOn(s, Step(s, ops[0]).0, Run(s, ops));
    }
  }

  /** A buffer gets at most one wl_buffer: from its first swap on it keeps that one over every run, for
      as long as it is one of the window's, and once destroyed it never comes back. */
  lemma WlBufferLasts(s: State, ops: seq<Op>, b: Buffer)
    requires Inv(s) && b in s.log.seen
    ensures var t := Run(s, ops);
            b in t.bufs ==> b in s.bufs && b in s.cell && b in t.cell
                            && (s.cell[b].wl != 0 ==> t.cell[b].wl == s.cell[b].wl)
  {
    RunKeepsWl(s, ops);
    RunKeepsInv(s, ops);
    CellIsListed(s, b);
    CellIsListed(Run(s, ops), b);
    hide Inv, Run;
  }

  lemma CellIsListed(s: State, b: Buffer)
    requires Inv(s)
    ensures b in s.bufs <==> b in s.cell
  {
    assert b in s.bufs <==> b in Elems(s.bufs);
  }
}
