/** WaylandNativeWindow itself: lists of buffer objects updated in place, each method tied to the
    step of WaylandQueue it performs. The window's mutex is held throughout every method. */
module WaylandWindow {
  import opened Lists
  import opened WaylandQueue

  /** The fields of a list of buffers, as the specification sees them. */
  ghost function Cells(bufs: seq<Buffer>): map<Buffer, Cell>
    reads bufs
  {
    map b | b in bufs :: Cell(b.busy, b.youngest, b.wlbuffer)
  }

  class Window {
    var bufList: seq<Buffer>
    var queue: seq<Buffer>
    var fronted: seq<Buffer>
    var freeBufs: int
    var swapInterval: int
    var frameCallback: bool
    var want: Geometry
    var make: Geometry

    // The other end of the connection, and what is remembered only for the proof.
    var compositor: Compositor
    ghost var swapping: seq<Buffer>
    ghost var log: Log

    ghost function View(): State
      reads this, bufList
    {
      State(bufList, Cells(bufList), queue, swapping, fronted, freeBufs, swapInterval, frameCallback,
            want, make, compositor, log)
    }

    ghost predicate Valid()
      reads this, bufList
    {
      Inv(View())
    }

    /** The search of releaseBuffer for the buffer behind a wl_buffer. */
    method FindFronted(w: nat) returns (it: nat)
      requires forall b | b in fronted :: b in bufList
      ensures it == First(fronted, HasWl(View(), w))
    {
      ghost var s := View();
      it := 0;
      while it < |fronted| && fronted[it].wlbuffer != w
        invariant it <= |fronted|
        invariant forall j :: 0 <= j < it ==> !HasWl(s, w)(fronted[j])
      {
        it := it + 1;
      }
      FirstIs(fronted, HasWl(s, w), it);
    }

    /** The loop that leaves `wnb` the only youngest buffer. */
    method MarkYoungest(wnb: Buffer)
      requires wnb in bufList
      modifies bufList`youngest
      ensures forall b | b in bufList :: b.youngest == if b == wnb then 1 else 0
    {
      var i := 0;
      while i < |bufList|
        invariant i <= |bufList|
        invariant forall j :: 0 <= j < i ==> bufList[j].youngest == 0
      {
        bufList[i].youngest := 0;
        i := i + 1;
      }
      wnb.youngest := 1;
    }

    /** The second half of releaseBuffer, once the buffer has been found. */
    method Recycle(it: nat)
      requires it < |fronted| && fronted[it] in bufList
      modifies this, bufList
      ensures View() == LetGo(old(View()), it)
    {
      ghost var s := View();
      var wnb := fronted[it];
      fronted := RemoveAt(fronted, it);
      wnb.busy := 0;
      freeBufs := freeBufs + 1;
      MarkYoungest(wnb);
      log := log.(last := Some(wnb));
      assert Cells(bufList) == LetGo(s, it).cell;
    }

    /** The release listener. Both asserts of releaseBuffer are proved in place. */
    method ReleaseBuffer(w: nat)
      requires Valid() && w in compositor.held
      modifies this, bufList
      ensures View() == WaylandQueue.ReleaseBuffer(old(View()), w)
    {
      hide Inv;
      ReleaseAssertsHold(View(), w);
      var it := FindFronted(w);
      assert it < |fronted|;
      assert fronted[it] in bufList;
      Recycle(it);
    }

    /** One event reaches the client; the compositor's own half of it happens here. */
    method DeliverEvent(e: Event)
      requires Valid()
      modifies this, bufList
      ensures Valid() && View() == Deliver(old(View()), e)
    {
      hide Inv, Quiet, Idle, WaylandQueue.ReleaseBuffer;
      ghost var s := View();
      DeliverKeepsInv(s, e);
      match e
      case Release(k) =>
        if k < |compositor.held| {
          var held := compositor.held;
          ReleaseBuffer(held[k]);
          compositor := compositor.(held := RemoveAt(held, k));
        }
      case FrameDone =>
        if compositor.frames > 0 {
          compositor := compositor.(frames := compositor.frames - 1);
          frameCallback := false;
          log := log.(frameEvents := log.frameEvents + 1);
        }
    }

    /** readQueue: one dispatch of the window's event queue. */
    method ReadQueue(batch: Batch)
      requires Valid()
      modifies this, bufList
      ensures Valid() && View() == Dispatch(old(View()), batch)
      ensures bufList == old(bufList) && make == old(make) && want == old(want)
    {
      hide Inv;
      ghost var s := View();
      DispatchKeepsInv(s, batch);
      var i := 0;
      while i < |batch|
        invariant i <= |batch|
        invariant Valid() && bufList == s.bufs
        invariant Dispatch(View(), batch[i..]) == Dispatch(s, batch)
      {
        DeliverEvent(batch[i]);
        assert batch[i..][0] == batch[i] && batch[i..][1..] == batch[i + 1..];
        i := i + 1;
      }
    }

    /** The two searches of dequeueBuffer. */
    method SelectBuffer() returns (it: nat)
      ensures it == Select(View())
    {
      ghost var s := View();
      it := 0;
      while it < |bufList| && (bufList[it].busy != 0 || bufList[it].youngest == 1)
        invariant it <= |bufList|
        invariant forall j :: 0 <= j < it ==> !IdleAndOld(s)(bufList[j])
      {
        it := it + 1;
      }
      FirstIs(bufList, IdleAndOld(s), it);
      if it == |bufList| {
        it := 0;
        while it < |bufList| && bufList[it].busy != 0
          invariant it <= |bufList|
          invariant forall j :: 0 <= j < it ==> !IdleNow(s)(bufList[j])
        {
          it := it + 1;
        }
        FirstIs(bufList, IdleNow(s), it);
      }
    }

    /** destroyBuffer, followed by the caller's erase of the same position. */
    method DestroyBuffer(it: nat, batch: Batch)
      requires Valid() && it < |bufList|
      modifies this, bufList
      ensures View() == Destroy(old(View()), it, batch) && make == old(make)
      ensures Valid() <==> old(bufList[it]) in Idle(Dispatch(old(View()), batch))
    {
      hide Inv, Idle;
      ghost var s := View();
      DestroyKeepsInvIff(s, it, batch);
      ReadQueue(batch);
      DropsOne(View(), it);
      freeBufs := freeBufs - 1;
      bufList := RemoveAt(bufList, it);
      assert Cells(bufList) == Dispatch(s, batch).cell - {s.bufs[it]};
    }

    /** addBuffer, in the build whose buffers are allocated by the server. */
    method AddBuffer(batch: Batch) returns (wnb: Buffer)
      requires Valid()
      modifies this, bufList
      ensures Valid() && fresh(wnb) && View() == WaylandQueue.AddBuffer(old(View()), batch, wnb)
      ensures wnb.geometry == old(make) && make == old(make)
    {
      hide Inv, Dispatch;
      DispatchKeepsInv(View(), batch);
      ReadQueue(batch);
      ghost var u := View();
      wnb := new Buffer(make);
      AppendKeepsInv(u, wnb);
      PushBuffer(wnb);
    }

    method PushBuffer(wnb: Buffer)
      requires wnb !in bufList && wnb.busy == 0 && wnb.youngest == 0 && wnb.wlbuffer == 0
      modifies this
      ensures View() == Append(old(View()), wnb)
    {
      ghost var s := View();
      bufList := bufList + [wnb];
      freeBufs := freeBufs + 1;
      log := log.(seen := log.seen + {wnb});
      assert Cells(bufList) == s.cell[wnb := Cell(0, 0, 0)];
    }

    /** The end of dequeueBuffer: mark the chosen buffer and queue it for presentation. */
    method HandOut(it: nat) returns (wnb: Buffer)
      requires Valid() && it < |bufList| && bufList[it].busy == 0
      modifies this, bufList
      ensures Valid() && View() == Take(old(View()), it) && wnb == old(bufList[it])
      ensures bufList == old(bufList)
    {
      hide Inv;
      ghost var s := View();
      wnb := bufList[it];
      assert wnb in Idle(s);
      TakeKeepsInv(s, it);
      wnb.busy := 1;
      queue := queue + [wnb];
      freeBufs := freeBufs - 1;
      log := log.(dequeued := log.dequeued + [wnb]);
      assert Cells(bufList) == Take(s, it).cell;
    }

    /** The wait loop of dequeueBuffer. */
    method WaitForFree(script: seq<Batch>) returns (rest: seq<Batch>)
      requires Valid()
      modifies this, bufList
      ensures Valid() && (View(), rest) == WaitFree(old(View()), script)
      ensures bufList == old(bufList) && make == old(make) && want == old(want)
      ensures freeBufs != 0 || rest == []
    {
      hide Inv;
      ghost var s := View();
      rest := script;
      while freeBufs == 0 && rest != []
        invariant Valid() && bufList == s.bufs && make == s.make && want == s.want
        invariant WaitFree(View(), rest) == WaitFree(s, script)
        decreases |rest|
      {
        ReadQueue(rest[0]);
        rest := rest[1..];
      }
    }

    /** A buffer that no longer fits is destroyed and a new one made in its place. */
    method Reallocate(it: nat, one: Batch, two: Batch) returns (wnb: Buffer)
      requires Valid() && it < |bufList| && bufList[it].busy == 0
      modifies this, bufList
      ensures Valid() && fresh(wnb)
      ensures View() == WaylandQueue.AddBuffer(Destroy(old(View()), it, one), two, wnb)
      ensures bufList == RemoveAt(old(bufList), it) + [wnb] && wnb.busy == 0
      ensures wnb.geometry == old(make)
    {
      hide Inv;
      ghost var s := View();
      assert bufList[it] in Idle(s);
      DestroyKeepsInv(s, it, one);
      DestroyBuffer(it, one);
      ghost var u := View();
      wnb := AddBuffer(two);
      AddBufferKeepsInv(u, two, wnb);
      assert View().cell[wnb].busy == 0;
    }

    /** What dequeueBuffer does with the buffer it has chosen. */
    method ServeBuffer(it: nat, rest: seq<Batch>) returns (wnb: Buffer)
      requires Valid() && it < |bufList| && bufList[it].busy == 0
      modifies this, bufList
      ensures Valid()
      ensures if old(bufList[it]).geometry == old(want) then
                wnb == old(bufList[it]) && View() == Take(old(View()), it) && bufList == old(bufList)
              else
                var t := WaylandQueue.AddBuffer(Destroy(old(View()), it, Head(rest)), Head(Rest(rest)), wnb);
                && fresh(wnb) && wnb.geometry == old(make)
                && t.bufs != [] && View() == Take(t, |t.bufs| - 1)
    {
      hide Inv, Take, Destroy, WaylandQueue.AddBuffer;
      if bufList[it].geometry == want {
        wnb := HandOut(it);
      } else {
        wnb := Reallocate(it, Head(rest), Head(Rest(rest)));
        var _ := HandOut(|bufList| - 1);
      }
    }

    /** dequeueBuffer. Each batch of the script is one read of the event queue; a call whose script
        runs out while it waits is still waiting. */
    method DequeueBuffer(script: seq<Batch>) returns (r: Outcome)
      requires Valid()
      modifies this, bufList
      ensures Valid() && r != NoFree && r != Done
      ensures r.Got? ==> Dequeue(old(View()), script, r.buffer) == (View(), r)
      ensures r.Got? ==> if fresh(r.buffer) then r.buffer.geometry == old(make)
                         else r.buffer in old(bufList) && r.buffer.geometry == old(want) && bufList == old(bufList)
      ensures r.Got? && (forall b | b in old(bufList) :: b.geometry == old(want)) ==> r.buffer in old(bufList)
      ensures r.Blocked? ==> forall nb: Buffer :: Dequeue(old(View()), script, nb) == (View(), r)
    {
      hide Inv, Dispatch, WaitFree, Take, Destroy, Select, WaylandQueue.AddBuffer;
      ReadQueue(Head(script));
      var rest := WaitForFree(Rest(script));
      if freeBufs == 0 {
        return Blocked;
      }
      SelectWorks(View());
      var it := SelectBuffer();
      if it == |bufList| {
        return NoFree;
      }
      assert bufList[it] in Idle(View());
      var wnb := ServeBuffer(it, rest);
      return Got(wnb);
    }

    // ---- finishSwap ----------------------------------------------------------------------

    /** The client takes the oldest dequeued buffer off its queue. */
    method TakeFromQueue() returns (wnb: Buffer)
      requires Valid() && swapping == [] && queue != []
      modifies this, bufList
      ensures Valid() && View() == SwapBegin(old(View())) && wnb == old(queue)[0]
      ensures bufList == old(bufList) && swapping == [wnb]
    {
      hide Inv;
      ghost var s := View();
      QueuedAreListed(s);
      SwapBeginKeepsInv(s);
      wnb := queue[0];
      queue := queue[1..];
      swapping := [wnb];
      wnb.busy := 1;
      assert Cells(bufList) == SwapBegin(s).cell;
    }

    /** The wait for the frame event of the previous commit. */
    method WaitForFrame(script: seq<Batch>)
      requires Valid()
      modifies this, bufList
      ensures Valid() && View() == WaitFrame(old(View()), script)
      ensures bufList == old(bufList)
    {
      hide Inv;
      ghost var s := View();
      var rest := script;
      while frameCallback && rest != []
        invariant Valid() && bufList == s.bufs
        invariant WaitFrame(View(), rest) == WaitFrame(s, script)
        decreases |rest|
      {
        ReadQueue(rest[0]);
        rest := rest[1..];
      }
    }

    /** init: the buffer's wl_buffer is created at its first swap. */
    method NameBuffer(wnb: Buffer)
      requires wnb in bufList
      modifies this, bufList
      ensures View() == Named(old(View()), wnb) && bufList == old(bufList)
    {
      ghost var s := View();
      if wnb.wlbuffer == 0 {
        wnb.wlbuffer := compositor.nextId;
        compositor := compositor.(nextId := compositor.nextId + 1,
                                  named := compositor.named[compositor.nextId := wnb]);
      }
      assert Cells(bufList) == Named(s, wnb).cell;
    }

    /** The requests that present `wnb`. The compositor's state follows what it is asked for. */
    method AttachBuffer(wnb: Buffer)
      requires swapping == [wnb] && wnb in bufList
      modifies this
      ensures View() == Attach(old(View()))
    {
      if swapInterval > 0 {
        compositor := compositor.(frames := compositor.frames + 1);
        frameCallback := true;
        log := log.(throttled := log.throttled + 1);
      }
      compositor := compositor.(held := compositor.held + [wnb.wlbuffer]);
      log := log.(committed := log.committed + [wnb]);
      swapping := [];
      fronted := fronted + [wnb];
    }

    /** finishSwap, after a dequeue it has not presented yet. */
    method FinishSwap(script: seq<Batch>) returns (r: Outcome)
      requires Valid() && swapping == [] && queue != []
      modifies this, bufList
      ensures Valid() && (View(), r) == WaylandQueue.FinishSwap(old(View()), script)
    {
      hide Inv, Dispatch, WaitFrame, SwapBegin, Named, Attach;
      var wnb := TakeFromQueue();
      DispatchKeepsInv(View(), Head(script));
      ReadQueue(Head(script));
      WaitFrameKeepsInv(View(), Rest(script));
      WaitForFrame(Rest(script));
      if frameCallback {
        return Blocked;
      }
      ghost var u := View();
      SwappingIsListed(u);
      assert wnb in u.swapping;
      CommitKeepsInv(u);
      NameBuffer(wnb);
      NamedKeepsSwapping(u, wnb);
      AttachBuffer(wnb);
      return Done;
    }

    // ---- Settings ------------------------------------------------------------------------

    /** setSwapInterval clamps to the range the platform supports. */
    method SetSwapInterval(interval: int)
      requires Valid()
      modifies this
      ensures Valid() && View() == Step(old(View()), IntervalOp(interval)).0
    {
      hide Inv;
      StepKeepsSetting(View(), interval);
      var i := interval;
      if i < 0 {
        i := 0;
      }
      if i > 1 {
        i := 1;
      }
      swapInterval := i;
    }

    /** The growing half of setBufferCount. */
    method GrowTo(cnt: nat, script: seq<Batch>) returns (ghost made: seq<Buffer>)
      requires Valid() && cnt >= |bufList|
      modifies this, bufList
      ensures Valid() && |bufList| == cnt && |made| == cnt - |old(bufList)|
      ensures forall b | b in made :: fresh(b) && b.geometry == old(make)
      ensures View() == Grow(old(View()), script, made)
    {
      hide Inv, Idle, Grow, RestAfter, WaylandQueue.AddBuffer;
      ghost var s := View();
      GrowNothing(s, script);
      var rest := script;
      made := [];
      var i := |bufList|;
      while i < cnt
        invariant Valid() && i == |bufList| <= cnt && bufList == s.bufs + made
        invariant Grow(s, script, made) == View() && rest == RestAfter(script, |made|)
        invariant make == s.make
        invariant forall k :: 0 <= k < |made| ==> fresh(made[k]) && made[k].geometry == s.make
      {
        ghost var t := View();
        var wnb := AddBuffer(Head(rest));
        AddBufferKeepsInv(t, Head(rest), wnb);
        GrowSnoc(s, script, made, wnb);
        made := made + [wnb];
        rest := Rest(rest);
        i := i + 1;
      }
    }

    /** The shrinking half of setBufferCount, when it comes upon idle buffers only. The list never gets
        shorter than `cnt`, so the unsigned subtraction in the guard does not wrap. */
    method ShrinkTo(cnt: nat, script: seq<Batch>)
      requires Valid() && cnt < |bufList| && HeadsIdle(View(), cnt, 0, script)
      modifies this, bufList
      ensures Valid() && View() == Shrink(old(View()), cnt, 0, script)
    {
      hide Inv, Idle, HeadsIdle, Shrink, Destroy, Dispatch;
      ghost var s := View();
      ShrinkRound(s, cnt, 0, script);
      var rest := script;
      var i := 0;
      while i <= |bufList| - cnt
        invariant Valid() && HeadsIdle(View(), cnt, i, rest) && (i == 0 ==> cnt < |bufList|)
        invariant cnt <= |bufList| == |s.bufs| - i && 2 * i <= |s.bufs| - cnt + 2
        invariant Shrink(View(), cnt, i, rest) == Shrink(s, cnt, 0, script)
        invariant bufList == s.bufs[i..]
        decreases |bufList|
      {
        ShrinkRound(View(), cnt, i, rest);
        DestroyBuffer(0, Head(rest));
        rest := Rest(rest);
        i := i + 1;
      }
      ShrinkRound(View(), cnt, i, rest);
    }

    /** setBufferCount. */
    method SetBufferCount(cnt: int, script: seq<Batch>) returns (ghost made: seq<Buffer>)
      requires Valid()
      requires 0 <= cnt < |bufList| ==> HeadsIdle(View(), cnt, 0, script)
      modifies this, bufList
      ensures Valid() && View() == WaylandQueue.SetBufferCount(old(View()), cnt, script, made)
      ensures |made| == (if cnt > |old(bufList)| then cnt - |old(bufList)| else 0)
      ensures forall b | b in made :: fresh(b) && b.geometry == old(make)
    {
      made := [];
      if 0 <= cnt < |bufList| {
        ShrinkTo(cnt, script);
      } else if cnt > |bufList| {
        made := GrowTo(cnt, script);
      }
    }

    /** A new window has the three buffers its constructor asks for. */
    constructor (want: Geometry, make: Geometry, script: seq<Batch>)
      ensures Valid() && |bufList| == 3 && forall b | b in bufList :: b.geometry == make
      ensures View() == Grow(Empty(want, make), script, bufList)
    {
      bufList, queue, fronted, freeBufs := [], [], [], 0;
      swapInterval, frameCallback := 1, false;
      this.want, this.make := want, make;
      compositor := Compositor([], 0, 1, map[]);
      swapping, log := [], Log([], [], None, 0, 0, {});
      new;
      EmptyInv(want, make);
      assert View() == Empty(want, make);
      ghost var made := GrowTo(3, script);
      GrowsFromEmpty(want, make, script, made);
    }
  }
}
