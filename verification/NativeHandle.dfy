/** native_handle.c and the memcpy pairs that take a handle apart and put one together. */
module NativeHandle {

  /** A native_handle_t as a value: descriptors first, then the other ints. */
  datatype Native = Native(numFds: nat, numInts: nat, data: seq<int>)

  predicate WellFormed(n: Native) {
    |n.data| == n.numFds + n.numInts
  }

  function FdsOf(n: Native): seq<int>
    requires WellFormed(n)
  {
    n.data[..n.numFds]
  }

  function IntsOf(n: Native): seq<int>
    requires WellFormed(n)
  {
    n.data[n.numFds..]
  }

  function Assemble(fds: seq<int>, ints: seq<int>): (n: Native)
    ensures WellFormed(n) && FdsOf(n) == fds && IntsOf(n) == ints
  {
    Native(|fds|, |ints|, fds + ints)
  }

  /** A handle is nothing more than its two parts. */
  lemma AssembleParts(n: Native)
    requires WellFormed(n)
    ensures Assemble(FdsOf(n), IntsOf(n)) == n
  {
    assert n.data[..n.numFds] + n.data[n.numFds..] == n.data;
  }

  /** The descriptors a process has closed, in order. */
  class Kernel {
    var closed: seq<int>

    constructor ()
      ensures closed == []
    {
      closed := [];
    }

    method Close(fd: int)
      modifies this
      ensures closed == old(closed) + [fd]
    {
      closed := closed + [fd];
    }
  }

  /** sizeof(native_handle_t), by which a handle is recognised. */
  const VERSION: int := 12

  const EINVAL: int := 22

  class Handle {
    var version: int
    const numFds: nat
    const numInts: nat
    const data: array<int>

    ghost predicate Valid()
    {
      data.Length == numFds + numInts
    }

    ghost function View(): (n: Native)
      requires Valid()
      reads data
      ensures WellFormed(n)
    {
      Native(numFds, numInts, data[..])
    }

    /** native_handle_create: the contents are whatever the memory held. */
    constructor Create(numFds: nat, numInts: nat)
      ensures Valid() && this.numFds == numFds && this.numInts == numInts && fresh(data)
      ensures version == VERSION
    {
      version, this.numFds, this.numInts := VERSION, numFds, numInts;
      data := new int[numFds + numInts];
    }

    /** One memcpy into the data words, from position `at` on. */
    method CopyIn(at: nat, words: seq<int>)
      requires Valid() && at + |words| <= data.Length
      modifies data
      ensures data[..] == old(data[..at]) + words + old(data[at + |words|..])
    {
      var i := 0;
      while i < |words|
        invariant i <= |words|
        invariant data[..at + i] == old(data[..at]) + words[..i]
        invariant data[at + i..] == old(data[at + i..])
      {
        data[at + i] := words[i];
        i := i + 1;
      }
    }

    /** native_handle_close: every descriptor once, in order, and none of the ints; nothing at all of
        a handle with another version. */
    method Close(k: Kernel) returns (r: int)
      requires Valid()
      modifies k
      ensures r == if version == VERSION then 0 else -EINVAL
      ensures k.closed == old(k.closed) + if r == 0 then FdsOf(View()) else []
    {
      if version != VERSION {
        return -EINVAL;
      }
      var i := 0;
      while i < numFds
        invariant i <= numFds && version == VERSION
        invariant k.closed == old(k.closed) + data[..i]
      {
        k.Close(data[i]);
        i := i + 1;
      }
      r := 0;
    }

    /** SerializeNativeBuffer: the ints and the descriptors, each into its own array. */
    method Serialize(ints: array<int>, fds: array<int>)
      requires Valid() && ints != data && fds != data && ints != fds
      requires ints.Length == numInts && fds.Length == numFds
      modifies ints, fds
      ensures fds[..] == FdsOf(View()) && ints[..] == IntsOf(View())
    {
      var i := 0;
      while i < numInts
        invariant i <= numInts
        invariant forall j :: 0 <= j < i ==> ints[j] == data[numFds + j]
        modifies ints
      {
        ints[i] := data[numFds + i];
        i := i + 1;
      }
      i := 0;
      while i < numFds
        invariant i <= numFds
        invariant forall j :: 0 <= j < i ==> fds[j] == data[j]
        modifies fds
      {
        fds[i] := data[i];
        i := i + 1;
      }
    }
  }

  /** The way server_wlegl_handle_to_native, ssb_buffer and CreateRemoteBuffer all make a handle. */
  method Build(fds: seq<int>, ints: seq<int>) returns (h: Handle)
    ensures fresh(h) && fresh(h.data) && h.Valid() && h.View() == Assemble(fds, ints)
    ensures h.version == VERSION
  {
    h := new Handle.Create(|fds|, |ints|);
    h.CopyIn(0, fds);
    h.CopyIn(|fds|, ints);
  }

  /** SerializeNativeBuffer in one process and CreateRemoteBuffer in another, with `received[i]`
      the descriptor the other process got for the i-th one sent. There is no buffer around the
      handle if gralloc refuses it. */
  method SendAndRebuild(h: Handle, received: seq<int>, registers: bool)
    returns (sent: seq<int>, rebuilt: Handle?)
    requires h.Valid() && |received| == h.numFds
    ensures sent == FdsOf(h.View())
    ensures rebuilt == null <==> !registers
    ensures rebuilt != null ==>
              && rebuilt.Valid()
              && FdsOf(rebuilt.View()) == received && IntsOf(rebuilt.View()) == IntsOf(h.View())
              && rebuilt.numFds == h.numFds && rebuilt.numInts == h.numInts
  {
    var ints := new int[h.numInts];
    var fds := new int[h.numFds];
    h.Serialize(ints, fds);
    sent := fds[..];
    var native := Build(received, ints[..]);
    assert Assemble(received, ints[..]).numInts == h.numInts;
    rebuilt := if registers then native else null;
  }
}
