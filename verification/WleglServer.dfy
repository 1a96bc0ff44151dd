/** The server's request handlers, and the two ends of a server-allocated buffer. */
module WleglServer {
  import opened Lists
  import opened NativeHandle
  import R = RefCount
  import opened WleglProtocol

  class Server {
    var handles: map<nat, Pending>
    var natives: map<nat, Native>
    var closed: seq<int>
    var errors: seq<Error>
    ghost var owner: map<int, Place>

    ghost function View(): State
      reads this
    {
      State(handles, natives, closed, errors, owner)
    }

    ghost predicate Valid()
      reads this
    {
      Inv(View())
    }

    constructor ()
      ensures Valid() && View() == IDLE
    {
      handles, natives, closed, errors, owner := map[], map[], [], [], map[];
      new;
      IdleInv();
    }

    /** The close loops of server_wlegl_handle_dtor and native_handle_close. */
    method CloseList(fds: seq<int>)
      modifies this`closed
      ensures closed == old(closed) + fds
    {
      var i := 0;
      while i < |fds|
        invariant i <= |fds| && closed == old(closed) + fds[..i]
      {
        closed := closed + [fds[i]];
        i := i + 1;
      }
    }

    /** server_wlegl_create_handle. */
    method HandleCreate(id: nat, numFds: int, ints: seq<int>)
      requires Valid() && Permitted(View(), CreateHandle(id, numFds, ints))
      modifies this
      ensures Valid() && View() == Step(old(View()), CreateHandle(id, numFds, ints))
    {
      hide Inv, Retag;
      StepKeepsInv(View(), CreateHandle(id, numFds, ints));
      if numFds < 0 {
        errors := errors + [NegativeFds];
        return;
      }
      handles := handles[id := Pending(numFds, ints, [])];
    }

    /** add_fd. */
    method HandleAddFd(id: nat, fd: int)
      requires Valid() && Permitted(View(), AddFd(id, fd))
      modifies this
      ensures Valid() && View() == Step(old(View()), AddFd(id, fd))
    {
      hide Inv, Retag;
      StepKeepsInv(View(), AddFd(id, fd));
      var h := handles[id];
      owner := owner[fd := if IsFull(h) then Closed else InHandle(id)];
      if |h.fds| * 4 >= ByteLimit(h.numFds) {
        CloseList([fd]);
        errors := errors + [TooManyFds];
        return;
      }
      handles := handles[id := h.(fds := h.fds + [fd])];
    }

    /** server_wlegl_handle_dtor. */
    method HandleDestroy(id: nat)
      requires Valid() && Permitted(View(), DestroyHandle(id))
      modifies this
      ensures Valid() && View() == Step(old(View()), DestroyHandle(id))
    {
      hide Inv, Retag;
      StepKeepsInv(View(), DestroyHandle(id));
      owner := Retag(owner, InHandle(id), Closed);
      CloseList(handles[id].fds);
      handles := handles - {id};
    }

    /** server_wlegl_handle_to_native, which leaves the handle without descriptors. */
    method HandleToNative(id: nat) returns (native: Option<Native>)
      requires id in handles
      modifies this`handles
      ensures id in handles && (handles[id], native) == ToNative(old(handles[id])) && handles == old(handles)[id := handles[id]]
    {
      var h := handles[id];
      if |h.fds| != h.numFds {
        return None;
      }
      handles := handles[id := h.(fds := [])];
      return Some(Assemble(h.fds, h.ints));
    }

    /** server_wlegl_create_buffer. */
    method BufferCreate(b: nat, width: int, height: int, id: nat, registers: bool)
      requires Valid() && Permitted(View(), CreateBuffer(b, width, height, id, registers))
      modifies this
      ensures Valid() && View() == Step(old(View()), CreateBuffer(b, width, height, id, registers))
    {
      hide Inv, Retag, FdsOf;
      StepKeepsInv(View(), CreateBuffer(b, width, height, id, registers));
      if width < 1 || height < 1 {
        errors := errors + [BadSize];
        return;
      }
      var native := HandleToNative(id);
      if native == None {
        assert handles == old(handles);
        errors := errors + [FdCountMismatch];
        return;
      }
      owner := Retag(owner, InHandle(id), if registers then InNative(b) else Closed);
      if !registers {
        CloseList(FdsOf(native.value));
        errors := errors + [InvalidHandle];
        return;
      }
      natives := natives[b := native.value];
    }

    /** What the last reference to a client's buffer releases. */
    method BufferRelease(b: nat)
      requires Valid() && Permitted(View(), ReleaseBuffer(b))
      modifies this
      ensures Valid() && View() == Step(old(View()), ReleaseBuffer(b))
    {
      hide Retag;
      StepKeepsInv(View(), ReleaseBuffer(b));
      owner := Retag(owner, InNative(b), Closed);
      CloseList(FdsOf(natives[b]));
      natives := natives - {b};
    }
  }

  /** ServerWaylandBuffer: the client's end of a buffer that the server allocates. */
  class ServerBuffer {
    var ints: seq<int>
    var fds: seq<int>
    var handle: Option<Handle>
    var hasBuf: bool

    constructor ()
      ensures ints == [] && fds == [] && handle == None && !hasBuf
    {
      ints, fds, handle, hasBuf := [], [], None, false;
    }

    method OnInts(words: seq<int>)
      modifies this
      ensures ints == words && fds == old(fds) && handle == old(handle) && hasBuf == old(hasBuf)
    {
      ints := words;
    }

    method OnFd(fd: int)
      modifies this
      ensures fds == old(fds) + [fd] && ints == old(ints) && handle == old(handle) && hasBuf == old(hasBuf)
    {
      fds := fds + [fd];
    }

    /** ssb_buffer: the handle takes the descriptors over, whether or not gralloc registers it; the
        wl_buffer is kept only if it does. */
    method OnBuffer(registers: bool)
      modifies this
      ensures handle.Some? && handle.value.Valid() && fresh(handle.value) && fresh(handle.value.data)
      ensures handle.value.View() == Assemble(old(fds), old(ints)) && fds == [] && ints == old(ints)
      ensures hasBuf == (old(hasBuf) || registers)
    {
      var h := Build(fds, ints);
      handle, fds := Some(h), [];
      if !registers {
        return;
      }
      hasBuf := true;
    }
  }

  /** server_wlegl_get_server_buffer_handle, `h` being what the allocator made: nothing for an empty
      size; else the server's own buffer, which will give `h` back to the allocator, and then to the
      client the ints, the descriptors one by one, and the buffer. `received[i]` is the client's
      descriptor for the i-th one sent. What the client ends up with has the same counts, the same
      ints, and its descriptors in the order sent. */
  method SendServerBuffer(
      width: int, height: int, h: Handle, received: seq<int>, client: ServerBuffer, registers: bool,
      ghost creator: R.Token)
    returns (ok: bool, buffer: R.RemoteWindowBuffer?)
    requires h.Valid() && |received| == h.numFds && client.fds == []
    modifies client
    ensures ok <==> width != 0 && height != 0
    ensures !ok ==> unchanged(client) && buffer == null
    ensures ok ==> buffer != null && fresh(buffer) && buffer.Valid()
                   && R.Made(R.ServerBuffer, true, true, creator) == Some(buffer.View())
    ensures ok ==>
              && client.handle.Some? && client.handle.value.Valid() && client.fds == []
              && FdsOf(client.handle.value.View()) == received
              && IntsOf(client.handle.value.View()) == IntsOf(h.View())
              && client.handle.value.numFds == h.numFds && client.handle.value.numInts == h.numInts
              && client.hasBuf == (old(client.hasBuf) || registers)
  {
    if width == 0 || height == 0 {
      return false, null;
    }
    buffer := R.CreateServerBuffer(true, creator);
    assert R.Made(R.ServerBuffer, true, true, creator).Some?;
    ghost var n := h.View();
    client.OnInts(h.data[h.numFds..]);
    var i := 0;
    while i < h.numFds
      invariant i <= h.numFds && client.hasBuf == old(client.hasBuf)
      invariant client.fds == received[..i] && client.ints == IntsOf(n)
      modifies client
    {
      client.OnFd(received[i]);
      i := i + 1;
    }
    client.OnBuffer(registers);
    assert received[..i] == received;
    assert Assemble(received, IntsOf(n)).numInts == n.numInts;
    ok := true;
  }
}
