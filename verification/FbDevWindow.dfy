/** FbDevNativeWindow itself. Each method is one critical section of the window's mutex (or one
    unlocked setter); dequeueBuffer and queueBuffer are cut where they release it. */
module FbDevWindow {
  import opened Lists
  import opened FbDevQueue

  ghost function BusyFlags(bufs: seq<Buffer>): map<Buffer, int>
    reads bufs
  {
    map b | b in bufs :: b.busy
  }

  class Window {
    var bufList: seq<Buffer>
    var freeBufs: int
    var frontBuf: Option<Buffer>
    var bufferCount: nat
    var usage: int
    var bufFormat: int
    var allocateBuffers: bool

    // Which thread is where, for the proof only.
    ghost var ready: bool
    ghost var holders: set<Hold>
    ghost var posting: set<Hold>
    ghost var waiting: map<Tid, Wait>
    ghost var seen: set<Buffer>

    ghost function View(): State
      reads this, bufList
    {
      State(bufList, BusyFlags(bufList), freeBufs, frontBuf, bufferCount, usage, bufFormat,
            allocateBuffers, ready, holders, posting, waiting, seen)
    }

    ghost predicate Valid()
      reads this, bufList
    {
      Inv(View())
    }

    /** The counter and the front pointer start with whatever memory held. */
    constructor (count: nat, format: int, usage: int, junkFree: int, junkFront: Option<Buffer>)
      ensures Valid() && IsFresh(View()) && bufferCount == count
    {
      bufList, freeBufs, frontBuf := [], junkFree, junkFront;
      bufferCount, this.usage, bufFormat := count, usage, format;
      allocateBuffers, ready := true, false;
      holders, posting, waiting, seen := {}, {}, map[], {};
      new;
      assert BusyFlags(bufList) == map[];
      FreshKeepsInv(View());
    }

    method DestroyBuffers()
      modifies this
      ensures bufList == [] && freeBufs == 0 && frontBuf == None
      ensures unchanged(`bufferCount, `usage, `bufFormat, `allocateBuffers)
      ensures unchanged(`ready, `holders, `posting, `waiting, `seen)
    {
      bufList, freeBufs, frontBuf := [], 0, None;
    }

    /** reallocateBuffers. The allocator provides the first `available` buffers and then fails. */
    method ReallocateBuffers(available: nat) returns (ghost made: seq<Buffer>)
      modifies this
      ensures View() == Reallocate(old(View()), made) && NoDup(made)
      ensures |made| == if available < bufferCount then available else bufferCount
      ensures forall k :: 0 <= k < |made| ==> fresh(made[k])
    {
      hide Elems;
      DestroyBuffers();
      NoDupEmpty<Buffer>();
      hide NoDup;
      var i := 0;
      while i < bufferCount
        invariant i == |bufList| == freeBufs <= bufferCount && i <= available
        invariant forall k :: 0 <= k < |bufList| ==> fresh(bufList[k]) && bufList[k].busy == 0
        invariant NoDup(bufList) && frontBuf == None
        invariant unchanged(`bufferCount, `usage, `bufFormat, `allocateBuffers)
        invariant unchanged(`ready, `holders, `posting, `waiting, `seen)
      {
        if i == available {
          break;
        }
        var fbnb := new Buffer();
        AppendNoDup(bufList, fbnb);
        freeBufs := freeBufs + 1;
        bufList := bufList + [fbnb];
        i := i + 1;
      }
      allocateBuffers := false;
      made, ready := bufList, true;
      seen := seen + set b | b in made;
      assert BusyFlags(bufList) == map b | b in made :: 0;
    }

    /** The search for a free buffer that is not the front one. */
    method FindFree() returns (it: nat)
      ensures it == First(bufList, Candidate(View()))
    {
      ghost var s := View();
      it := 0;
      while it < |bufList| && (frontBuf == Some(bufList[it]) || bufList[it].busy != 0)
        invariant it <= |bufList|
        invariant forall j :: 0 <= j < it ==> !Candidate(s)(bufList[j])
      {
        it := it + 1;
      }
      FirstIs(bufList, Candidate(s), it);
    }

    /** The hand-over at the end of dequeueBuffer. */
    method HandOut(ghost t: Tid, it: nat) returns (fbnb: Buffer)
      requires it < |bufList|
      modifies this, bufList
      ensures View() == Take(old(View()), t, it) && fbnb == old(bufList[it])
    {
      ghost var s := View();
      fbnb := bufList[it];
      fbnb.busy := 1;
      freeBufs := freeBufs - 1;
      holders := holders + {Hold(t, fbnb)};
      waiting := waiting - {t};
      assert BusyFlags(bufList) == Take(s, t, it).busy;
    }

    /** One round of the search loop. */
    method SearchOnce(ghost t: Tid) returns (buffer: Option<Buffer>)
      modifies this, bufList
      ensures (View(), buffer) == Search(old(View()), t)
    {
      var it := FindFree();
      if it == |bufList| {
        waiting := waiting[t := InSearch];
        return None;
      }
      var fbnb := HandOut(t, it);
      return Some(fbnb);
    }

    /** dequeueBuffer, from its call to its return or to the first pthread_cond_wait. */
    method DequeueBuffer(ghost t: Tid, available: nat) returns (buffer: Option<Buffer>, ghost made: seq<Buffer>)
      requires Valid() && t !in waiting
      modifies this, bufList
      ensures (View(), buffer) == Enter(old(View()), t, made)
      ensures old(allocateBuffers) ==> |made| == (if available < old(bufferCount) then available else old(bufferCount))
      ensures NoDup(made) && forall k :: 0 <= k < |made| ==> fresh(made[k])
      ensures Valid() <==> (old(allocateBuffers) ==> old(holders) == {} && old(posting) == {})
    {
      hide Inv;
      ghost var s := View();
      made := [];
      NoDupEmpty<Buffer>();
      if allocateBuffers {
        made := ReallocateBuffers(available);
        assert Elems(made) !! s.seen;
      }
      EnterKeepsInvIff(s, t, made);
      if freeBufs == 0 {
        waiting := waiting[t := ForCounter];
        return None, made;
      }
      buffer := SearchOnce(t);
    }

    /** dequeueBuffer, from one return of pthread_cond_wait to the next one or to its own return. */
    method DequeueResume(ghost t: Tid, wait: Wait) returns (buffer: Option<Buffer>)
      requires Valid() && ready && t in waiting && waiting[t] == wait
      modifies this, bufList
      ensures Valid() && (View(), buffer) == Wake(old(View()), t)
    {
      hide Inv;
      SearchKeepsInv(View(), t);
      if wait == ForCounter && freeBufs == 0 {
        return None;
      }
      buffer := SearchOnce(t);
    }

    /** queueBuffer before the post. Its assert is proved in place. */
    method QueueBegin(ghost t: Tid, fbnb: Buffer)
      requires Valid() && Hold(t, fbnb) in holders
      modifies this, bufList
      ensures Valid() && View() == FbDevQueue.QueueBegin(old(View()), t, fbnb)
      ensures old(fbnb.busy) == 1 && fbnb.busy == 2 && freeBufs == old(freeBufs) && frontBuf == old(frontBuf)
    {
      hide Inv;
      ghost var s := View();
      HoldIsFlagged(s, Hold(t, fbnb));
      QueueBeginKeepsInv(s, t, fbnb);
      assert fbnb.busy == 1;
      fbnb.busy := 2;
      holders, posting := holders - {Hold(t, fbnb)}, posting + {Hold(t, fbnb)};
      assert BusyFlags(bufList) == s.busy[fbnb := 2];
    }

    /** queueBuffer after the post; it returns what the post returned. */
    method QueueEnd(ghost t: Tid, fbnb: Buffer, postResult: int) returns (rv: int)
      requires Valid() && Hold(t, fbnb) in posting
      modifies this, bufList
      ensures Valid() && View() == FbDevQueue.QueueEnd(old(View()), t, fbnb) && rv == postResult
      ensures old(fbnb.busy) == 2 && fbnb.busy == 0 && freeBufs == old(freeBufs) + 1 && frontBuf == Some(fbnb)
    {
      hide Inv;
      ghost var s := View();
      HoldIsFlagged(s, Hold(t, fbnb));
      QueueEndKeepsInv(s, t, fbnb);
      fbnb.busy := 0;
      frontBuf := Some(fbnb);
      freeBufs := freeBufs + 1;
      posting := posting - {Hold(t, fbnb)};
      assert BusyFlags(bufList) == s.busy[fbnb := 0];
      rv := postResult;
    }

    method CancelBuffer(ghost t: Tid, fbnb: Buffer)
      requires Valid() && Hold(t, fbnb) in holders
      modifies this, bufList
      ensures Valid() && View() == Cancel(old(View()), t, fbnb)
      ensures old(fbnb.busy) == 1 && fbnb.busy == 0 && freeBufs == old(freeBufs) + 1 && frontBuf == old(frontBuf)
    {
      hide Inv;
      ghost var s := View();
      HoldIsFlagged(s, Hold(t, fbnb));
      CancelKeepsInv(s, t, fbnb);
      fbnb.busy := 0;
      freeBufs := freeBufs + 1;
      holders := holders - {Hold(t, fbnb)};
      assert BusyFlags(bufList) == s.busy[fbnb := 0];
    }

    /** lockBuffer's wait condition: true of the front buffer alone, so never for a thread that holds
        the buffer it locks. */
    method MustWaitToLock(fbnb: Buffer) returns (wait: bool)
      requires Valid() && ready
      ensures wait <==> View().front == Some(fbnb)
      ensures wait ==> forall h | h in holders + posting :: h.buffer != fbnb
    {
      hide Inv;
      wait := frontBuf == Some(fbnb);
      if wait {
        FrontIsFree(View());
        forall h | h in holders + posting ensures h.buffer != fbnb {
          HoldIsFlagged(View(), h);
        }
      }
    }

    method SetUsage(usage: int)
      requires Valid()
      modifies this
      ensures Valid() && View() == FbDevQueue.SetUsage(old(View()), usage)
    {
      hide Inv;
      SettingKeepsInv(View(), FbDevQueue.SetUsage(View(), usage));
      allocateBuffers := this.usage != usage;
      this.usage := usage;
    }

    method SetBuffersFormat(format: int)
      requires Valid()
      modifies this
      ensures Valid() && View() == SetFormat(old(View()), format)
    {
      hide Inv;
      SettingKeepsInv(View(), SetFormat(View(), format));
      allocateBuffers := allocateBuffers || format != bufFormat;
      bufFormat := format;
    }

    method SetBufferCount(cnt: nat)
      requires Valid()
      modifies this
      ensures Valid() && View() == SetCount(old(View()), cnt)
    {
      hide Inv;
      SettingKeepsInv(View(), SetCount(View(), cnt));
      if bufferCount != cnt {
        bufferCount := cnt;
        allocateBuffers := true;
      }
    }
  }
}
