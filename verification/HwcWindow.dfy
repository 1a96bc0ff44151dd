/** HWComposerNativeWindow itself; each method runs under the window's mutex, except the setters. */
module HwcWindow {
  import opened Lists
  import opened HwcQueue

  ghost function Fences(bufs: seq<Buffer>): map<Buffer, int>
    reads bufs
  {
    map b | b in bufs :: b.fenceFd
  }

  class Window {
    var bufList: seq<Buffer>
    var nextBuffer: nat
    var bufferCount: nat
    var usage: int
    var bufFormat: int

    // The descriptor table, and the client as the proof sees it.
    var fds: Fds
    ghost var held: seq<Buffer>
    ghost var out: seq<nat>
    ghost var taken: nat
    ghost var caller: set<int>

    ghost function View(): State
      reads this, bufList
    {
      State(bufList, Fences(bufList), nextBuffer, bufferCount, usage, bufFormat,
            held, out, taken, fds, caller)
    }

    ghost predicate Valid()
      reads this, bufList
    {
      Inv(View())
    }

    constructor (count: nat, usage: int, format: int)
      ensures Valid() && View() == Start(count, usage, format)
    {
      bufList, nextBuffer, bufferCount, this.usage, bufFormat := [], 0, count, usage, format;
      fds, held, out, taken, caller := Fds(map[], 0, 0), [], [], 0, {};
      new;
      StartInv(count, usage, format);
      assert Fences(bufList) == map[];
    }

    method DestroyBuffers()
      modifies this
      ensures View() == Destroy(old(View()))
    {
      bufList, nextBuffer := [], 0;
      taken := 0;
      assert Fences(bufList) == map[];
    }

    /** allocateBuffers. The allocator provides the first `available` buffers and then fails. */
    method AllocateBuffers(available: nat)
      requires bufList == []
      modifies this
      ensures NoDup(bufList) && forall k :: 0 <= k < |bufList| ==> fresh(bufList[k])
      ensures |bufList| == if available < bufferCount then available else bufferCount
      ensures View() == Allocate(old(View()), bufList)
    {
      hide Elems;
      NoDupEmpty<Buffer>();
      hide NoDup;
      var i := 0;
      while i < bufferCount
        invariant i == |bufList| <= bufferCount && i <= available && NoDup(bufList)
        invariant forall k :: 0 <= k < |bufList| ==> fresh(bufList[k]) && bufList[k].fenceFd == -1
        invariant unchanged(`nextBuffer, `bufferCount, `usage, `bufFormat)
        invariant unchanged(`fds, `held, `out, `taken, `caller)
      {
        if i == available {
          break;
        }
        var b := new Buffer();
        AppendNoDup(bufList, b);
        bufList := bufList + [b];
        i := i + 1;
      }
      nextBuffer := 0;
      taken := 0;
      assert Fences(bufList) == map b | b in bufList :: -1;
    }

    /** The end of dequeueBuffer: the fence is duplicated, closed and forgotten. */
    method TakeFence(b: Buffer, wantFence: bool) returns (fenceFd: int)
      requires b in bufList
      modifies this`fds, b
      ensures (fds, fenceFd) == PassFence(old(fds), old(b.fenceFd), wantFence)
      ensures Fences(bufList) == old(Fences(bufList))[b := -1]
    {
      var fence := b.fenceFd;
      fenceFd := -1;
      if wantFence {
        var (k, out) := Dup(fds, fence);
        fds, fenceFd := k, out;
      }
      if fence != -1 {
        fds := Close(fds, b.fenceFd);
        b.fenceFd := -1;
      }
    }

    /** The choice of the buffer. */
    method Advance() returns (b: Buffer)
      requires nextBuffer < |bufList|
      modifies this`nextBuffer
      ensures b == bufList[old(nextBuffer)]
      ensures nextBuffer == if old(nextBuffer) + 1 >= |bufList| then 0 else old(nextBuffer) + 1
    {
      b := bufList[nextBuffer];
      nextBuffer := nextBuffer + 1;
      if nextBuffer >= |bufList| {
        nextBuffer := 0;
      }
    }

    /** dequeueBuffer from the choice of the buffer on. */
    method TakeNext(wantFence: bool) returns (b: Buffer, fenceFd: int)
      requires nextBuffer < |bufList|
      modifies this, bufList
      ensures (View(), Got(b, fenceFd)) == HandOut(old(View()), wantFence)
    {
      hide PassFence;
      b := Advance();
      assert FenceOf(View(), b) == b.fenceFd;
      fenceFd := TakeFence(b, wantFence);
      Account(b, fenceFd);
    }

    /** What the proof remembers of a dequeue. */
    ghost method Account(b: Buffer, fenceFd: int)
      modifies this`held, this`out, this`taken, this`caller
      ensures held == old(held) + [b] && out == old(out) + [old(taken)] && taken == old(taken) + 1
      ensures caller == if fenceFd != -1 then old(caller) + {fenceFd} else old(caller)
    {
      held, out, taken := held + [b], out + [taken], taken + 1;
      caller := if fenceFd != -1 then caller + {fenceFd} else caller;
    }

    /** dequeueBuffer, which aborts when nothing could be allocated; its second assert, on the
        index, is proved in place for every client. */
    method DequeueBuffer(wantFence: bool, available: nat) returns (r: Result, ghost made: seq<Buffer>)
      requires Valid()
      modifies this, bufList
      ensures (View(), r) == Dequeue(old(View()), wantFence, made)
      ensures Valid() <==> !Overdue(old(View()))
      ensures r == Aborted <==> old(bufList) == [] && (available == 0 || bufferCount == 0)
      ensures old(bufList) != [] ==> bufList == old(bufList)
      ensures old(bufList) == [] ==> bufList == made && NoDup(made) && forall b | b in made :: fresh(b)
      ensures old(bufList) == [] ==> |made| == if available < old(bufferCount) then available else old(bufferCount)
    {
      hide Inv, Overdue, Ring, Holding, Ledger;
      ghost var s := View();
      RingOf(s);
      made := [];
      if bufList == [] {
        AllocateBuffers(available);
        made := bufList;
      }
      DequeueIsSafeIff(s, wantFence, made);
      if bufList == [] {
        return Aborted, made;
      }
      IndexInRange(s, View(), made);
      assert nextBuffer < |bufList|;
      var b, fenceFd := TakeNext(wantFence);
      r := Got(b, fenceFd);
    }

    /** cancelBuffer, for any buffer the client holds. */
    method CancelBuffer(ghost i: nat, fbnb: Buffer, fenceFd: int)
      requires Valid() && i < |held| && fbnb == held[i] && (fenceFd == -1 || fenceFd in caller)
      modifies this, bufList
      ensures |old(out)| == |old(held)| && Valid() && View() == Cancel(old(View()), i, fenceFd)
    {
      hide Inv;
      ghost var s := View();
      CancelKeepsInv(s, i, fenceFd);
      HeldStoresNoFence(s, i);
      fbnb.fenceFd := fenceFd;
      held, out, caller := RemoveAt(held, i), RemoveAt(out, i), caller - {fenceFd};
      assert Fences(bufList) == s.fence[fbnb := fenceFd];
    }

    /** What the presenter does with the buffer's fence through the get and set accessors. */
    method PresentNow(b: Buffer, p: Present)
      requires b in bufList
      modifies this, bufList
      ensures View() == PresentBuffer(old(View()), b, p)
    {
      ghost var s := View();
      match p
      case Keep =>
      case Replace(release) =>
        if b.fenceFd != -1 {
          fds := Close(fds, b.fenceFd);
        }
        var fd := -1;
        if release.Some? {
          var (k, installed) := Install(fds, release.value);
          fds, fd := k, installed;
        }
        b.fenceFd := fd;
        assert Fences(bufList) == s.fence[b := fd];
    }

    /** queueBuffer, for any buffer the client holds. Its assert is proved in place. */
    method QueueBuffer(ghost i: nat, buffer: Buffer, fenceFd: int, p: Present)
      requires Valid() && i < |held| && buffer == held[i] && (fenceFd == -1 || fenceFd in caller)
      modifies this, bufList
      ensures |old(out)| == |old(held)| && Valid() && View() == Queue(old(View()), i, fenceFd, p)
    {
      hide Inv;
      ghost var s := View();
      HeldStoresNoFence(s, i);
      assert buffer.fenceFd == -1;
      CancelKeepsInv(s, i, fenceFd);
      QueueKeepsInv(s, i, fenceFd, p);
      buffer.fenceFd := fenceFd;
      held, out, caller := RemoveAt(held, i), RemoveAt(out, i), caller - {fenceFd};
      assert Fences(bufList) == s.fence[buffer := fenceFd];
      assert View() == Cancel(s, i, fenceFd);
      PresentNow(buffer, p);
    }

    /** setBufferCount, setUsage and setBuffersFormat share this shape; one field changes a call. */
    method ChangeSettings(count: nat, usage: int, format: int)
      requires Valid()
      modifies this
      ensures View() == Set(old(View()), count, usage, format)
      ensures Valid() <==> Permitted(old(View()), SettingOp(count, usage, format))
    {
      hide Inv;
      ghost var s := View();
      SetKeepsInvIff(s, count, usage, format);
      if count != bufferCount || usage != this.usage || format != bufFormat {
        DestroyBuffers();
      }
      bufferCount, this.usage, bufFormat := count, usage, format;
    }
  }
}
