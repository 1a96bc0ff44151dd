/** The buffer queue of WaylandNativeWindow as a state machine: the client's lists, counter and
    flags, the compositor it talks to, and a log of what was handed over. */
module WaylandQueue {
  import opened Lists

  datatype Geometry = Geometry(width: int, height: int, format: int, usage: int)

  /** WaylandNativeWindowBuffer. A null wl_buffer is 0. */
  class Buffer {
    const geometry: Geometry
    var busy: int
    var youngest: int
    var wlbuffer: nat

    constructor (geometry: Geometry)
      ensures this.geometry == geometry && busy == 0 && youngest == 0 && wlbuffer == 0
    {
      this.geometry := geometry;
      busy, youngest, wlbuffer := 0, 0, 0;
    }
  }

  /** What the compositor may send: a release of one of the buffers it holds, or the frame event
      of a callback it was asked for. A choice it cannot make delivers nothing. */
  datatype Event = Release(k: nat) | FrameDone

  /** The events one call of wl_display_dispatch_queue delivers. */
  type Batch = seq<Event>

  /** The compositor's side: the wl_buffers attached and not yet released, the frame callbacks
      not yet answered, and which buffer each wl_buffer name was made for. */
  datatype Compositor = Compositor(held: seq<nat>, frames: nat, nextId: nat, named: map<nat, Buffer>)

  /** `seen` is every buffer the window ever had, `last` the one released most recently. */
  datatype Log = Log(dequeued: seq<Buffer>, committed: seq<Buffer>, last: Option<Buffer>,
                     throttled: nat, frameEvents: nat, seen: set<Buffer>)

  /** The fields of one buffer. */
  datatype Cell = Cell(busy: int, youngest: int, wl: nat)

  /** `swapping` holds the buffer finishSwap has taken from `queue` and not yet put on `fronted`. */
  datatype State = State(
    bufs: seq<Buffer>, cell: map<Buffer, Cell>,
    queue: seq<Buffer>, swapping: seq<Buffer>, fronted: seq<Buffer>,
    free: int, interval: int, frame: bool, want: Geometry, make: Geometry,
    comp: Compositor, log: Log)

  // ---- The invariant ---------------------------------------------------------------------

  ghost predicate Shape(s: State) {
    NoDup(s.bufs) && s.cell.Keys == Elems(s.bufs) && |s.swapping| <= 1
  }

  /** The buffers that are not idle, oldest first. */
  function Out(s: State): seq<Buffer> {
    s.fronted + s.swapping + s.queue
  }

  ghost function WithBusy(cell: map<Buffer, Cell>, busy: int): set<Buffer> {
    set b | b in cell && cell[b].busy == busy
  }

  ghost function Idle(s: State): set<Buffer> {
    WithBusy(s.cell, 0)
  }

  ghost function Busy(s: State): set<Buffer> {
    WithBusy(s.cell, 1)
  }

  ghost predicate Partition(s: State) {
    NoDup(Out(s)) && Elems(Out(s)) == Busy(s) && s.cell.Keys == Idle(s) + Busy(s)
  }

  function WlOf(s: State, b: Buffer): nat {
    if b in s.cell then s.cell[b].wl else 0
  }

  /** The compositor holds exactly the wl_buffers of `fronted`, and no two buffers share one. */
  ghost predicate Agrees(s: State) {
    && |s.comp.held| == |s.fronted|
    && (forall i :: 0 <= i < |s.fronted| ==> s.comp.held[i] == WlOf(s, s.fronted[i]) != 0)
    && (forall b | b in s.cell ::
          s.cell[b].wl != 0 ==> s.cell[b].wl in s.comp.named && s.comp.named[s.cell[b].wl] == b)
    && (forall w | w in s.comp.named :: w < s.comp.nextId)
    && s.comp.nextId > 0
  }

  ghost predicate InOrder(s: State) {
    s.log.dequeued == s.log.committed + s.swapping + s.queue
  }

  ghost predicate Throttled(s: State) {
    && s.log.throttled == s.log.frameEvents + s.comp.frames
    && s.comp.frames == if s.frame then 1 else 0
  }

  ghost predicate YoungestIsLast(s: State) {
    && (forall b | b in s.cell :: s.cell[b].youngest == if s.log.last == Some(b) then 1 else 0)
    && (s.log.last.Some? ==> s.log.last.value in s.log.seen)
    && s.cell.Keys <= s.log.seen
  }

  ghost predicate Inv(s: State) {
    && Shape(s)
    && Partition(s)
    && s.free == |Idle(s)|
    && Agrees(s)
    && InOrder(s)
    && Throttled(s)
    && YoungestIsLast(s)
  }

  lemma Combine(s: State)
    requires Shape(s)
    requires Partition(s)
    requires s.free == |Idle(s)|
    requires Agrees(s)
    requires InOrder(s)
    requires Throttled(s)
    requires YoungestIsLast(s)
    ensures Inv(s)
  {
  }

  /** A step that leaves the lists, the counter and the buffers' fields alone. */
  lemma SameBuffers(s: State, t: State)
    requires Inv(s)
    requires t.bufs == s.bufs && t.cell == s.cell && t.free == s.free && t.queue == s.queue
    requires t.swapping == s.swapping && t.fronted == s.fronted
    ensures Shape(t) && Partition(t) && t.free == |Idle(t)|
  {
  }

  /** A step that leaves the compositor alone and keeps the wl_buffer of every buffer it holds. */
  lemma SameCompositor(s: State, t: State)
    requires Agrees(s) && t.fronted == s.fronted
    requires t.comp.held == s.comp.held && t.comp.named == s.comp.named && t.comp.nextId == s.comp.nextId
    requires forall i :: 0 <= i < |s.fronted| ==> WlOf(t, s.fronted[i]) == WlOf(s, s.fronted[i])
    requires forall b | b in t.cell :: t.cell[b].wl == 0 || (b in s.cell && s.cell[b].wl == t.cell[b].wl)
    ensures Agrees(t)
  {
  }

  // ---- Compositor events -----------------------------------------------------------------

  function HasWl(s: State, w: nat): Buffer -> bool {
    b => b in s.cell && s.cell[b].wl == w
  }

  lemma HeldIsFronted(s: State, k: nat)
    requires Partition(s) && Agrees(s) && k < |s.comp.held|
    ensures First(s.fronted, HasWl(s, s.comp.held[k])) == k
    ensures s.fronted[k] in s.cell && s.cell[s.fronted[k]].busy == 1
  {
    Distinct(Out(s));
    assert Out(s)[k] == s.fronted[k];
    assert s.fronted[k] in Busy(s);
    forall j | 0 <= j < k ensures !HasWl(s, s.comp.held[k])(s.fronted[j]) {
      assert Out(s)[j] == s.fronted[j] != Out(s)[k];
    }
    FirstIs(s.fronted, HasWl(s, s.comp.held[k]), k);
  }

  /** Both asserts of releaseBuffer: a buffer the compositor lets go of is on `fronted`, and it is
      still one of the window's buffers. */
  lemma ReleaseAssertsHold(s: State, w: nat)
    requires Inv(s) && w in s.comp.held
    ensures var i := First(s.fronted, HasWl(s, w));
            i < |s.fronted| && s.fronted[i] in s.bufs
    ensures forall b | b in s.fronted :: b in s.bufs
  {
    var k :| 0 <= k < |s.comp.held| && s.comp.held[k] == w;
    HeldIsFronted(s, k);
    forall b | b in s.fronted ensures b in s.bufs {
      assert b in Elems(Out(s));
      assert b in Elems(s.bufs);
    }
  }

  /** The k-th buffer of `fronted` becomes idle and the only youngest one. */
  function LetGo(s: State, k: nat): State
    requires k < |s.fronted|
  {
    var b := s.fronted[k];
    s.(fronted := RemoveAt(s.fronted, k),
       cell := map c | c in s.cell ::
                 Cell(if c == b then 0 else s.cell[c].busy, if c == b then 1 else 0, s.cell[c].wl),
       free := s.free + 1,
       log := s.log.(last := Some(b)))
  }

  /** releaseBuffer, the client's half of a wl_buffer.release event. */
  function ReleaseBuffer(s: State, w: nat): (t: State)
    ensures t.bufs == s.bufs && t.comp == s.comp
  {
    var i := First(s.fronted, HasWl(s, w));
    if i < |s.fronted| then LetGo(s, i) else s
  }

  function Deliver(s: State, e: Event): (t: State)
    ensures t.bufs == s.bufs
  {
    match e
    case Release(k) =>
      if k < |s.comp.held| then
        ReleaseBuffer(s, s.comp.held[k]).(comp := s.comp.(held := RemoveAt(s.comp.held, k)))
      else s
    case FrameDone =>
      if s.comp.frames > 0 then
        s.(frame := false, comp := s.comp.(frames := s.comp.frames - 1),
           log := s.log.(frameEvents := s.log.frameEvents + 1))
      else s
  }

  function Dispatch(s: State, batch: Batch): (t: State)
    ensures t.bufs == s.bufs
    decreases |batch|
  {
    if batch == [] then s else Dispatch(Deliver(s, batch[0]), batch[1..])
  }

  /** What events leave alone: the list, the order of the client's own buffers, and every buffer
      that was already idle. */
  ghost predicate Quiet(s: State, t: State) {
    && t.bufs == s.bufs && t.queue == s.queue && t.swapping == s.swapping
    && t.interval == s.interval && t.want == s.want && t.make == s.make
    && t.log.dequeued == s.log.dequeued && t.log.committed == s.log.committed
    && t.log.throttled == s.log.throttled && t.log.seen == s.log.seen
    && Idle(s) <= Idle(t)
  }

  lemma LetGoOut(s: State, k: nat)
    requires k < |s.fronted|
    ensures Out(LetGo(s, k)) == RemoveAt(Out(s), k)
    ensures k < |Out(s)| && Out(s)[k] == s.fronted[k]
  {
  }

  lemma LetGoCells(s: State, k: nat)
    requires k < |s.fronted| && s.fronted[k] in s.cell
    ensures Idle(LetGo(s, k)) == Idle(s) + {s.fronted[k]}
    ensures Busy(LetGo(s, k)) == Busy(s) - {s.fronted[k]}
    ensures LetGo(s, k).cell.Keys == s.cell.Keys
  {
  }

  lemma LetGoKeepsPartition(s: State, k: nat)
    requires Partition(s) && k < |s.fronted| && s.fronted[k] in s.cell
    ensures Partition(LetGo(s, k))
  {
    hide NoDup, WithBusy;
    LetGoOut(s, k);
    LetGoCells(s, k);
    RemoveAtMembers(Out(s), k);
  }

  lemma LetGoKeepsCount(s: State, k: nat)
    requires Partition(s) && s.free == |Idle(s)| && k < |s.fronted| && s.fronted[k] in s.cell
    ensures LetGo(s, k).free == |Idle(LetGo(s, k))|
  {
    LetGoOut(s, k);
    LetGoCells(s, k);
    assert s.fronted[k] in Elems(Out(s));
    assert s.fronted[k] !in Idle(s);
  }

  lemma ReleaseKeepsAgrees(s: State, k: nat)
    requires Agrees(s) && k < |s.fronted| && s.fronted[k] in s.cell
    ensures Agrees(LetGo(s, k).(comp := s.comp.(held := RemoveAt(s.comp.held, k))))
  {
  }

  lemma LetGoKeepsYoungest(s: State, k: nat)
    requires YoungestIsLast(s) && k < |s.fronted| && s.fronted[k] in s.cell
    ensures YoungestIsLast(LetGo(s, k))
  {
  }

  /** What a release of the compositor's k-th buffer comes to. */
  function Released(s: State, k: nat): State
    requires k < |s.fronted| && k < |s.comp.held|
  {
    LetGo(s, k).(comp := s.comp.(held := RemoveAt(s.comp.held, k)))
  }

  lemma ReleaseIsLetGo(s: State, k: nat)
    requires Partition(s) && Agrees(s) && k < |s.comp.held|
    ensures k < |s.fronted| && s.fronted[k] in s.cell
    ensures Deliver(s, Release(k)) == Released(s, k)
  {
    HeldIsFronted(s, k);
  }

  lemma ReleasedKeepsBuffers(s: State, k: nat)
    requires Shape(s) && Partition(s) && s.free == |Idle(s)|
    requires k < |s.fronted| && k < |s.comp.held| && s.fronted[k] in s.cell
    ensures var t := Released(s, k);
            Shape(t) && Partition(t) && t.free == |Idle(t)| && Idle(s) <= Idle(t)
  {
    LetGoCells(s, k);
    LetGoKeepsPartition(s, k);
    LetGoKeepsCount(s, k);
    SameLists(LetGo(s, k), Released(s, k));
    hide NoDup, Elems, WithBusy, Out;
  }

  lemma ReleaseKeepsInv(s: State, k: nat)
    requires Inv(s) && k < |s.comp.held|
    ensures Inv(Deliver(s, Release(k))) && Quiet(s, Deliver(s, Release(k)))
  {
    hide NoDup, Elems, WithBusy, Out, Deliver, Idle, Partition, Shape;
    ReleaseIsLetGo(s, k);
    ReleasedKeepsBuffers(s, k);
    ReleaseKeepsAgrees(s, k);
    LetGoKeepsYoungest(s, k);
    Combine(Released(s, k));
  }

  lemma SameLists(s: State, t: State)
    requires t.fronted == s.fronted && t.swapping == s.swapping && t.queue == s.queue
    ensures Out(t) == Out(s)
  {
  }

  lemma FrameKeepsInv(s: State)
    requires Inv(s)
    ensures Inv(Deliver(s, FrameDone)) && Quiet(s, Deliver(s, FrameDone))
  {
    var t := Deliver(s, FrameDone);
    SameBuffers(s, t);
    SameCompositor(s, t);
    Combine(t);
  }

  lemma DeliverKeepsInv(s: State, e: Event)
    requires Inv(s)
    ensures Inv(Deliver(s, e)) && Quiet(s, Deliver(s, e))
  {
    match e
    case Release(k) =>
      if k < |s.comp.held| {
        ReleaseKeepsInv(s, k);
      }
    case FrameDone => FrameKeepsInv(s);
  }

  lemma {:induction false} DispatchKeepsInv(s: State, batch: Batch)
    requires Inv(s)
    ensures Inv(Dispatch(s, batch)) && Quiet(s, Dispatch(s, batch))
    decreases |batch|
  {
    if batch != [] {
      DeliverKeepsInv(s, batch[0]);
      hide Inv;
      DispatchKeepsInv(Deliver(s, batch[0]), batch[1..]);
    }
  }

  // ---- dequeueBuffer ---------------------------------------------------------------------

  function Head(script: seq<Batch>): Batch {
    if script == [] then [] else script[0]
  }

  function Rest(script: seq<Batch>): seq<Batch> {
    if script == [] then [] else script[1..]
  }

  /** The wait for a free buffer: one blocking read of the event queue per batch. */
  function WaitFree(s: State, script: seq<Batch>): (State, seq<Batch>)
    decreases |script|
  {
    if s.free != 0 || script == [] then (s, script)
    else WaitFree(Dispatch(s, script[0]), script[1..])
  }

  lemma {:induction false} WaitFreeKeepsInv(s: State, script: seq<Batch>)
    requires Inv(s)
    ensures Inv(WaitFree(s, script).0) && Quiet(s, WaitFree(s, script).0)
    ensures WaitFree(s, script).0.free != 0 || WaitFree(s, script).1 == []
    decreases |script|
  {
    if s.free == 0 && script != [] {
      DispatchKeepsInv(s, script[0]);
      hide Inv;
      WaitFreeKeepsInv(Dispatch(s, script[0]), script[1..]);
    }
  }

  function IdleAndOld(s: State): Buffer -> bool {
    b => b in s.cell && s.cell[b].busy == 0 && s.cell[b].youngest != 1
  }

  function IdleNow(s: State): Buffer -> bool {
    b => b in s.cell && s.cell[b].busy == 0
  }

  /** The two searches of dequeueBuffer: an idle buffer that is not the youngest, else an idle one. */
  function Select(s: State): (i: nat)
    ensures i <= |s.bufs|
  {
    var i := First(s.bufs, IdleAndOld(s));
    if i < |s.bufs| then i else First(s.bufs, IdleNow(s))
  }

  /** The "no free buffers" exit is dead once the wait is over, and the buffer released last is
      only reused when no other buffer is idle. */
  lemma SelectFinds(s: State)
    requires Shape(s) && s.free == |Idle(s)| && YoungestIsLast(s) && s.free != 0
    ensures Select(s) < |s.bufs|
    ensures s.bufs[Select(s)] in Idle(s)
    ensures s.log.last == Some(s.bufs[Select(s)]) ==> Idle(s) == {s.bufs[Select(s)]}
  {
    var b :| b in Idle(s);
    assert b in Elems(s.bufs);
    var j :| 0 <= j < |s.bufs| && s.bufs[j] == b;
    assert IdleNow(s)(s.bufs[j]);
    if First(s.bufs, IdleAndOld(s)) == |s.bufs| {
      forall c | c in Idle(s) ensures s.log.last == Some(c) {
        assert c in Elems(s.bufs);
        var m :| 0 <= m < |s.bufs| && s.bufs[m] == c;
        assert !IdleAndOld(s)(s.bufs[m]);
      }
      assert Idle(s) == {b};
    }
  }

  lemma SelectWorks(s: State)
    requires Inv(s) && s.free != 0
    ensures Select(s) < |s.bufs| && s.bufs[Select(s)] in Idle(s)
  {
    SelectFinds(s);
  }

  lemma SelectIsNew(s: State)
    requires Inv(s) && s.free != 0
    ensures Select(s) < |s.bufs| && s.bufs[Select(s)] in Idle(s) && s.bufs[Select(s)] !in s.queue
    ensures s.log.last == Some(s.bufs[Select(s)]) ==> Idle(s) == {s.bufs[Select(s)]}
  {
    SelectFinds(s);
    IdleNotQueued(s, s.bufs[Select(s)]);
  }

  /** The erase that goes with destroyBuffer, for the buffer at position `i`. */
  function Drop(s: State, i: nat): State
    requires i < |s.bufs|
  {
    s.(bufs := RemoveAt(s.bufs, i), cell := s.cell - {s.bufs[i]}, free := s.free - 1)
  }

  lemma DropKeepsPartition(s: State, i: nat)
    requires Shape(s) && Partition(s) && i < |s.bufs| && s.bufs[i] in Idle(s)
    ensures Shape(Drop(s, i)) && Partition(Drop(s, i))
    ensures Idle(Drop(s, i)) == Idle(s) - {s.bufs[i]}
  {
    RemoveAtMembers(s.bufs, i);
    assert Idle(Drop(s, i)) == Idle(s) - {s.bufs[i]};
    assert Busy(Drop(s, i)) == Busy(s);
    assert Out(Drop(s, i)) == Out(s);
  }

  lemma DropKeepsAgrees(s: State, i: nat)
    requires Partition(s) && Agrees(s) && i < |s.bufs| && s.bufs[i] in Idle(s)
    ensures Agrees(Drop(s, i))
  {
    forall k | 0 <= k < |s.fronted| ensures WlOf(Drop(s, i), s.fronted[k]) == WlOf(s, s.fronted[k]) {
      assert Out(s)[k] == s.fronted[k];
      assert s.fronted[k] in Busy(s);
    }
    SameCompositor(s, Drop(s, i));
  }

  lemma DropKeepsInv(s: State, i: nat)
    requires Inv(s) && i < |s.bufs| && s.bufs[i] in Idle(s)
    ensures Inv(Drop(s, i))
  {
    hide NoDup, Elems, WithBusy, Out;
    DropKeepsPartition(s, i);
    DropKeepsAgrees(s, i);
    Combine(Drop(s, i));
  }

  lemma DropsOne(s: State, i: nat)
    requires Inv(s) && i < |s.bufs|
    ensures Elems(RemoveAt(s.bufs, i)) == Elems(s.bufs) - {s.bufs[i]}
  {
    RemoveAtMembers(s.bufs, i);
  }

  /** destroyBuffer: pending events are read first, the counter is lowered last. */
  function Destroy(s: State, i: nat, batch: Batch): State
    requires i < |s.bufs|
  {
    Drop(Dispatch(s, batch), i)
  }

  function Append(s: State, nb: Buffer): State {
    s.(bufs := s.bufs + [nb], free := s.free + 1, cell := s.cell[nb := Cell(0, 0, 0)],
       log := s.log.(seen := s.log.seen + {nb}))
  }

  lemma AppendCells(s: State, nb: Buffer)
    requires nb !in s.cell
    ensures Idle(Append(s, nb)) == Idle(s) + {nb} && nb !in Idle(s)
    ensures Busy(Append(s, nb)) == Busy(s)
  {
  }

  lemma AppendKeepsPartition(s: State, nb: Buffer)
    requires Shape(s) && Partition(s) && nb !in s.cell
    ensures Shape(Append(s, nb)) && Partition(Append(s, nb))
    ensures Idle(Append(s, nb)) == Idle(s) + {nb} && nb !in Idle(s)
  {
    hide NoDup, WithBusy, Out;
    AppendNoDup(s.bufs, nb);
    AppendCells(s, nb);
    SameLists(s, Append(s, nb));
  }

  lemma AppendKeepsAgrees(s: State, nb: Buffer)
    requires Agrees(s) && nb !in s.cell
    ensures Agrees(Append(s, nb))
  {
    assert forall k | 0 <= k < |s.fronted| :: WlOf(s, s.fronted[k]) != 0;
    SameCompositor(s, Append(s, nb));
  }

  lemma AppendKeepsInv(s: State, nb: Buffer)
    requires Inv(s) && nb !in s.log.seen
    ensures Inv(Append(s, nb)) && nb in Idle(Append(s, nb))
  {
    hide NoDup, Elems, WithBusy, Out;
    AppendKeepsPartition(s, nb);
    AppendKeepsAgrees(s, nb);
    Combine(Append(s, nb));
  }

  /** addBuffer: the server round trip delivers events before the new buffer joins the list. */
  function AddBuffer(s: State, batch: Batch, nb: Buffer): State {
    Append(Dispatch(s, batch), nb)
  }

  /** The hand-over at the end of dequeueBuffer. */
  function Take(s: State, i: nat): State
    requires i < |s.bufs|
  {
    var b := s.bufs[i];
    s.(cell := if b in s.cell then s.cell[b := s.cell[b].(busy := 1)] else s.cell,
       queue := s.queue + [b], free := s.free - 1,
       log := s.log.(dequeued := s.log.dequeued + [b]))
  }

  lemma TakeCells(s: State, i: nat)
    requires i < |s.bufs| && s.bufs[i] in Idle(s)
    ensures Idle(Take(s, i)) == Idle(s) - {s.bufs[i]}
    ensures Busy(Take(s, i)) == Busy(s) + {s.bufs[i]} && s.bufs[i] !in Busy(s)
    ensures Take(s, i).cell.Keys == s.cell.Keys
  {
  }

  lemma TakeKeepsPartition(s: State, i: nat)
    requires Shape(s) && Partition(s) && i < |s.bufs| && s.bufs[i] in Idle(s)
    ensures Shape(Take(s, i)) && Partition(Take(s, i))
    ensures Idle(Take(s, i)) == Idle(s) - {s.bufs[i]}
  {
    TakeCells(s, i);
    assert Out(Take(s, i)) == Out(s) + [s.bufs[i]];
    AppendNoDup(Out(s), s.bufs[i]);
  }

  lemma TakeKeepsOrder(s: State, i: nat)
    requires InOrder(s) && YoungestIsLast(s) && i < |s.bufs|
    ensures InOrder(Take(s, i)) && YoungestIsLast(Take(s, i))
  {
    var b := s.bufs[i];
    assert s.log.committed + s.swapping + (s.queue + [b]) == s.log.committed + s.swapping + s.queue + [b];
    assert Take(s, i).cell.Keys == s.cell.Keys;
  }

  lemma TakeKeepsInv(s: State, i: nat)
    requires Inv(s) && i < |s.bufs| && s.bufs[i] in Idle(s)
    ensures Inv(Take(s, i))
  {
    TakeKeepsPartition(s, i);
    TakeKeepsOrder(s, i);
    SameCompositor(s, Take(s, i));
    Combine(Take(s, i));
  }

  datatype Outcome = Got(buffer: Buffer) | NoFree | Blocked | Done

  /** dequeueBuffer. `nb` is the buffer a reallocation creates, if one happens. */
  function Dequeue(s: State, script: seq<Batch>, nb: Buffer): (State, Outcome) {
    var (s1, rest) := WaitFree(Dispatch(s, Head(script)), Rest(script));
    if s1.free == 0 then (s1, Blocked)
    else
      var i := Select(s1);
      if i == |s1.bufs| then (s1, NoFree)
      else if s1.bufs[i].geometry == s1.want then (Take(s1, i), Got(s1.bufs[i]))
      else
        var s2 := AddBuffer(Destroy(s1, i, Head(rest)), Head(Rest(rest)), nb);
        (Take(s2, |s2.bufs| - 1), Got(nb))
  }

  /** destroyBuffer keeps the invariant exactly when the buffer is idle once the pending events have
      been read: it lowers the counter whatever the buffer's state. */
  lemma DestroyKeepsInvIff(s: State, i: nat, batch: Batch)
    requires Inv(s) && i < |s.bufs|
    ensures Inv(Destroy(s, i, batch)) <==> s.bufs[i] in Idle(Dispatch(s, batch))
    ensures Destroy(s, i, batch).swapping == s.swapping && Destroy(s, i, batch).log.seen == s.log.seen
  {
    DispatchKeepsInv(s, batch);
    var u := Dispatch(s, batch);
    if s.bufs[i] in Idle(u) {
      hide Inv;
      DropKeepsInv(u, i);
    } else {
      DropMiscounts(u, i);
    }
  }

  lemma DropMiscounts(s: State, i: nat)
    requires Inv(s) && i < |s.bufs| && s.bufs[i] !in Idle(s)
    ensures !Inv(Drop(s, i))
  {
    assert Idle(Drop(s, i)) == Idle(s);
  }

  lemma DestroyKeepsInv(s: State, i: nat, batch: Batch)
    requires Inv(s) && i < |s.bufs| && s.bufs[i] in Idle(s)
    ensures Inv(Destroy(s, i, batch)) && Destroy(s, i, batch).bufs == RemoveAt(s.bufs, i)
    ensures Destroy(s, i, batch).swapping == s.swapping
    ensures Destroy(s, i, batch).log.seen == s.log.seen
  {
    DispatchKeepsInv(s, batch);
    hide Inv;
    DropKeepsInv(Dispatch(s, batch), i);
  }

  lemma AddBufferKeepsInv(s: State, batch: Batch, nb: Buffer)
    requires Inv(s) && nb !in s.log.seen
    ensures var t := AddBuffer(s, batch, nb);
            && Inv(t) && t.bufs == s.bufs + [nb] && nb in Idle(t)
            && t.swapping == s.swapping && t.log.seen == s.log.seen + {nb}
  {
    DispatchKeepsInv(s, batch);
    hide Inv;
    AppendKeepsInv(Dispatch(s, batch), nb);
  }

  lemma DequeueKeepsInv(s: State, script: seq<Batch>, nb: Buffer)
    requires Inv(s) && nb !in s.log.seen
    ensures var (t, r) := Dequeue(s, script, nb);
            Inv(t) && t.swapping == s.swapping && (r.Got? || r.Blocked?)
  {
    hide Inv, Idle, Dispatch, WaitFree, Select, Destroy, AddBuffer;
    DispatchKeepsInv(s, Head(script));
    var s0 := Dispatch(s, Head(script));
    WaitFreeKeepsInv(s0, Rest(script));
    var (s1, rest) := WaitFree(s0, Rest(script));
    if s1.free != 0 {
      SelectWorks(s1);
      var i := Select(s1);
      if s1.bufs[i].geometry == s1.want {
        TakeKeepsInv(s1, i);
      } else {
        DestroyKeepsInv(s1, i, Head(rest));
        AddBufferKeepsInv(Destroy(s1, i, Head(rest)), Head(Rest(rest)), nb);
        var s2 := AddBuffer(Destroy(s1, i, Head(rest)), Head(Rest(rest)), nb);
        TakeKeepsInv(s2, |s2.bufs| - 1);
      }
    }
  }

  // ---- finishSwap ------------------------------------------------------------------------

  /** The oldest dequeued buffer leaves `queue`. */
  function SwapBegin(s: State): State
    requires s.queue != []
  {
    var b := s.queue[0];
    s.(queue := s.queue[1..], swapping := [b],
       cell := if b in s.cell then s.cell[b := s.cell[b].(busy := 1)] else s.cell)
  }

  lemma SwapBeginMoves(s: State)
    requires Shape(s) && Partition(s) && s.swapping == [] && s.queue != []
    ensures Out(SwapBegin(s)) == Out(s) && SwapBegin(s).cell == s.cell
  {
    assert Out(SwapBegin(s)) == Out(s) by { FrontMoves(s.fronted, s.queue); }
    FirstIsBusy(s);
    hide Out, Shape, Partition;
  }

  lemma FrontMoves(f: seq<Buffer>, q: seq<Buffer>)
    requires q != []
    ensures f + [q[0]] + q[1..] == f + [] + q
  {
  }

  lemma FirstIsBusy(s: State)
    requires Partition(s) && s.swapping == [] && s.queue != []
    ensures s.queue[0] in s.cell && s.cell[s.queue[0]].busy == 1
  {
    assert Out(s)[|s.fronted|] == s.queue[0];
    assert s.queue[0] in Elems(Out(s));
  }

  lemma SwapBeginKeepsOrder(s: State)
    requires InOrder(s) && s.swapping == [] && s.queue != []
    ensures InOrder(SwapBegin(s))
  {
    assert s.log.committed + [s.queue[0]] + s.queue[1..] == s.log.committed + s.swapping + s.queue;
  }

  lemma SwapBeginKeepsInv(s: State)
    requires Inv(s) && s.swapping == [] && s.queue != []
    ensures Inv(SwapBegin(s))
  {
    hide NoDup, Elems, Out, WithBusy;
    SwapBeginMoves(s);
    SwapBeginKeepsOrder(s);
    SameCompositor(s, SwapBegin(s));
    Combine(SwapBegin(s));
  }

  lemma QueuedAreListed(s: State)
    requires Inv(s)
    ensures forall b | b in s.queue :: b in s.bufs
  {
    forall b | b in s.queue ensures b in s.bufs {
      assert b in Elems(Out(s));
      assert b in Elems(s.bufs);
    }
  }

  lemma SwappingIsListed(s: State)
    requires Inv(s)
    ensures forall b | b in s.swapping :: b in s.bufs
  {
    forall b | b in s.swapping ensures b in s.bufs {
      assert b in Elems(Out(s));
      assert b in Elems(s.bufs);
    }
  }

  /** The wait for the frame event of the previous commit. */
  function WaitFrame(s: State, script: seq<Batch>): State
    decreases |script|
  {
    if !s.frame || script == [] then s else WaitFrame(Dispatch(s, script[0]), script[1..])
  }

  lemma {:induction false} WaitFrameKeepsInv(s: State, script: seq<Batch>)
    requires Inv(s)
    ensures Inv(WaitFrame(s, script)) && Quiet(s, WaitFrame(s, script))
    decreases |script|
  {
    if s.frame && script != [] {
      DispatchKeepsInv(s, script[0]);
      hide Inv;
      WaitFrameKeepsInv(Dispatch(s, script[0]), script[1..]);
    }
  }

  /** The wl_buffer is created at the buffer's first swap. */
  function Named(s: State, b: Buffer): State {
    if b !in s.cell || s.cell[b].wl != 0 then s
    else
      s.(cell := s.cell[b := s.cell[b].(wl := s.comp.nextId)],
         comp := s.comp.(nextId := s.comp.nextId + 1, named := s.comp.named[s.comp.nextId := b]))
  }

  lemma NamedKeepsSwapping(s: State, b: Buffer)
    ensures Named(s, b).swapping == s.swapping && Named(s, b).bufs == s.bufs
  {
  }

  lemma NamedKeepsPartition(s: State, b: Buffer)
    requires Shape(s) && Partition(s)
    ensures Shape(Named(s, b)) && Partition(Named(s, b)) && Idle(Named(s, b)) == Idle(s)
  {
    hide NoDup, Out, WithBusy;
    NamedCells(s, b);
    SameLists(s, Named(s, b));
  }

  lemma NamedCells(s: State, b: Buffer)
    ensures Idle(Named(s, b)) == Idle(s) && Busy(Named(s, b)) == Busy(s)
  {
  }

  lemma NamedKeepsAgrees(s: State, b: Buffer)
    requires Agrees(s)
    ensures Agrees(Named(s, b)) && (b in s.cell ==> WlOf(Named(s, b), b) != 0)
  {
    assert forall k | 0 <= k < |s.fronted| :: WlOf(s, s.fronted[k]) != 0;
  }

  lemma NamedKeepsInv(s: State, b: Buffer)
    requires Inv(s)
    ensures Inv(Named(s, b)) && (b in s.cell ==> WlOf(Named(s, b), b) != 0)
  {
    hide NoDup, Elems, Out, WithBusy;
    NamedKeepsPartition(s, b);
    NamedKeepsAgrees(s, b);
    Combine(Named(s, b));
  }

  /** The surface requests of finishSwap: ask for a frame event when throttling is on, attach,
      commit, and remember that the compositor has the buffer. */
  function Attach(s: State): State
    requires |s.swapping| == 1
  {
    var b, throttle := s.swapping[0], s.interval > 0;
    s.(fronted := s.fronted + [b], swapping := [], frame := s.frame || throttle,
       comp := s.comp.(held := s.comp.held + [WlOf(s, b)],
                       frames := s.comp.frames + if throttle then 1 else 0),
       log := s.log.(committed := s.log.committed + [b],
                     throttled := s.log.throttled + if throttle then 1 else 0))
  }

  lemma AttachMoves(s: State)
    requires |s.swapping| == 1
    ensures Out(Attach(s)) == Out(s)
  {
    assert s.swapping == [s.swapping[0]];
  }

  lemma AttachKeepsOrder(s: State)
    requires |s.swapping| == 1 && InOrder(s)
    ensures InOrder(Attach(s))
  {
    assert s.swapping == [s.swapping[0]];
    assert s.log.committed + [s.swapping[0]] + [] + s.queue == s.log.committed + s.swapping + s.queue;
  }

  lemma AttachKeepsAgrees(s: State)
    requires |s.swapping| == 1 && Agrees(s) && WlOf(s, s.swapping[0]) != 0
    ensures Agrees(Attach(s))
  {
  }

  lemma AttachKeepsInv(s: State)
    requires Inv(s) && !s.frame && |s.swapping| == 1 && WlOf(s, s.swapping[0]) != 0
    ensures Inv(Attach(s))
  {
    hide NoDup, Elems, Out, WithBusy;
    AttachMoves(s);
    AttachKeepsOrder(s);
    AttachKeepsAgrees(s);
    Combine(Attach(s));
  }

  function Commit(s: State): State
    requires |s.swapping| == 1
  {
    Attach(Named(s, s.swapping[0]))
  }

  lemma CommitKeepsInv(s: State)
    requires Inv(s) && !s.frame && |s.swapping| == 1
    ensures Inv(Commit(s)) && Commit(s).swapping == []
  {
    var b := s.swapping[0];
    assert b in s.cell by {
      SwappingIsListed(s);
      assert b in Elems(s.bufs);
    }
    hide Inv;
    NamedKeepsInv(s, b);
    AttachKeepsInv(Named(s, b));
  }

  /** finishSwap, once there is something to present. */
  function FinishSwap(s: State, script: seq<Batch>): (State, Outcome)
    requires s.queue != []
  {
    var u := WaitFrame(Dispatch(SwapBegin(s), Head(script)), Rest(script));
    if u.frame || |u.swapping| != 1 then (u, Blocked) else (Commit(u), Done)
  }

  lemma FinishSwapKeepsInv(s: State, script: seq<Batch>)
    requires Inv(s) && s.swapping == [] && s.queue != []
    ensures var (t, r) := FinishSwap(s, script);
            && Inv(t) && (r == Blocked || r == Done)
            && (r == Done ==> t.swapping == []) && (r == Blocked ==> t.frame)
  {
    hide Inv, Dispatch, WaitFrame, Commit;
    SwapBeginKeepsInv(s);
    DispatchKeepsInv(SwapBegin(s), Head(script));
    WaitFrameKeepsInv(Dispatch(SwapBegin(s), Head(script)), Rest(script));
    var u := WaitFrame(Dispatch(SwapBegin(s), Head(script)), Rest(script));
    if !u.frame {
      CommitKeepsInv(u);
    }
  }

  // ---- setBufferCount --------------------------------------------------------------------

  /** The growing loop; the buffers it makes are `made`. */
  function Grow(s: State, script: seq<Batch>, made: seq<Buffer>): State
    decreases |made|
  {
    if made == [] then s else Grow(AddBuffer(s, Head(script), made[0]), Rest(script), made[1..])
  }

  function RestAfter(script: seq<Batch>, n: nat): seq<Batch> {
    if n == 0 then script else RestAfter(Rest(script), n - 1)
  }

  lemma GrowNothing(s: State, script: seq<Batch>)
    ensures Grow(s, script, []) == s && RestAfter(script, 0) == script
  {
  }

  lemma {:induction false} GrowSnoc(s: State, script: seq<Batch>, made: seq<Buffer>, nb: Buffer)
    ensures Grow(s, script, made + [nb]) ==
            AddBuffer(Grow(s, script, made), Head(RestAfter(script, |made|)), nb)
    ensures RestAfter(script, |made| + 1) == Rest(RestAfter(script, |made|))
    decreases |made|
  {
    hide AddBuffer;
    if made == [] {
      assert (made + [nb])[1..] == [];
    } else {
      assert (made + [nb])[1..] == made[1..] + [nb];
      GrowSnoc(AddBuffer(s, Head(script), made[0]), Rest(script), made[1..], nb);
    }
  }

  lemma {:induction false} GrowKeepsInv(s: State, script: seq<Batch>, made: seq<Buffer>)
    requires Inv(s) && NoDup(made) && Elems(made) !! s.log.seen
    ensures Inv(Grow(s, script, made)) && Grow(s, script, made).swapping == s.swapping
    ensures Grow(s, script, made).bufs == s.bufs + made
    decreases |made|
  {
    hide Inv, AddBuffer;
    if made != [] {
      NoDupTail(made);
      assert made[0] in Elems(made) && Elems(made[1..]) <= Elems(made);
      hide NoDup;
      AddBufferKeepsInv(s, Head(script), made[0]);
      GrowKeepsInv(AddBuffer(s, Head(script), made[0]), Rest(script), made[1..]);
    }
  }

  /** The shrinking loop from its i-th round on. Its bound moves, because the list gets shorter
      while `i` gets larger. */
  function Shrink(s: State, cnt: nat, i: nat, script: seq<Batch>): State
    decreases |s.bufs|
  {
    if i + cnt <= |s.bufs| && s.bufs != [] then Shrink(Destroy(s, 0, Head(script)), cnt, i + 1, Rest(script))
    else s
  }

  /** In every round of the shrinking loop the first buffer is idle when it is destroyed. */
  ghost predicate HeadsIdle(s: State, cnt: nat, i: nat, script: seq<Batch>)
    decreases |s.bufs|
  {
    i + cnt <= |s.bufs| && s.bufs != [] ==>
      && s.bufs[0] in Idle(Dispatch(s, Head(script)))
      && HeadsIdle(Destroy(s, 0, Head(script)), cnt, i + 1, Rest(script))
  }

  lemma ShrinkRound(s: State, cnt: nat, i: nat, script: seq<Batch>)
    requires HeadsIdle(s, cnt, i, script) && (i == 0 ==> cnt < |s.bufs|)
    ensures i + cnt <= |s.bufs| ==>
              && s.bufs != [] && s.bufs[0] in Idle(Dispatch(s, Head(script)))
              && HeadsIdle(Destroy(s, 0, Head(script)), cnt, i + 1, Rest(script))
              && Destroy(s, 0, Head(script)).bufs == RemoveAt(s.bufs, 0)
              && Shrink(s, cnt, i, script) == Shrink(Destroy(s, 0, Head(script)), cnt, i + 1, Rest(script))
    ensures i + cnt > |s.bufs| ==> Shrink(s, cnt, i, script) == s
  {
  }

  ghost predicate RoundsKeepInv(s: State, cnt: nat, i: nat, script: seq<Batch>)
    decreases |s.bufs|
  {
    i + cnt <= |s.bufs| && s.bufs != [] ==>
      && Inv(Destroy(s, 0, Head(script)))
      && RoundsKeepInv(Destroy(s, 0, Head(script)), cnt, i + 1, Rest(script))
  }

  /** Shrinking keeps the invariant round by round exactly when it destroys idle buffers only. */
  lemma {:induction false} ShrinkKeepsInvIff(s: State, cnt: nat, i: nat, script: seq<Batch>)
    requires Inv(s)
    ensures RoundsKeepInv(s, cnt, i, script) <==> HeadsIdle(s, cnt, i, script)
    ensures HeadsIdle(s, cnt, i, script) ==>
              Inv(Shrink(s, cnt, i, script)) && Shrink(s, cnt, i, script).swapping == s.swapping
    decreases |s.bufs|
  {
    hide Inv, Idle;
    if i + cnt <= |s.bufs| && s.bufs != [] {
      DestroyKeepsInvIff(s, 0, Head(script));
      if Inv(Destroy(s, 0, Head(script))) {
        hide Dispatch, Destroy;
        ShrinkKeepsInvIff(Destroy(s, 0, Head(script)), cnt, i + 1, Rest(script));
      }
    }
  }

  /** How many buffers the loop destroys. */
  function ShrinkRounds(size: nat, cnt: nat, i: nat): nat {
    if i + cnt <= size && size > 0 then (size - cnt - i) / 2 + 1 else 0
  }

  /** The first `k` buffers of the list are in the set, or all of a shorter list. */
  ghost predicate FirstIn(bufs: seq<Buffer>, k: nat, a: set<Buffer>) {
    forall j :: 0 <= j < k && j < |bufs| ==> bufs[j] in a
  }

  lemma FirstInDrops(bufs: seq<Buffer>, k: nat, a: set<Buffer>)
    requires NoDup(bufs) && bufs != [] && k > 0
    ensures FirstIn(bufs, k, a) <==> bufs[0] in a && FirstIn(RemoveAt(bufs, 0), k - 1, a - {bufs[0]})
  {
    Distinct(bufs);
    var rest := RemoveAt(bufs, 0);
    assert forall j :: 0 < j < |bufs| ==> rest[j - 1] == bufs[j] != bufs[0];
    assert forall j :: 0 <= j < |rest| ==> rest[j] == bufs[j + 1];
  }

  /** Idle at the call, as a caller can see. */
  ghost predicate FirstIdle(s: State, k: nat) {
    FirstIn(s.bufs, k, Idle(s))
  }

  lemma DropIdle(s: State, i: nat)
    requires i < |s.bufs|
    ensures Idle(Drop(s, i)) == Idle(s) - {s.bufs[i]}
  {
  }

  lemma FirstNone(s: State)
    ensures FirstIdle(s, 0)
  {
  }

  lemma DropsFirstIdle(s: State, k: nat)
    requires Inv(s) && s.bufs != [] && k > 0
    ensures FirstIdle(s, k) <==> s.bufs[0] in Idle(s) && FirstIdle(Drop(s, 0), k - 1)
  {
    hide Idle, NoDup, FirstIn;
    FirstInDrops(s.bufs, k, Idle(s));
    DropIdle(s, 0);
  }

  lemma DestroyKeepsFirstIdle(s: State, batch: Batch, k: nat)
    requires Inv(s) && FirstIdle(s, k) && s.bufs != [] && k > 0
    ensures Inv(Destroy(s, 0, batch)) && s.bufs[0] in Idle(Dispatch(s, batch))
    ensures FirstIdle(Destroy(s, 0, batch), k - 1)
  {
    hide Inv, Idle;
    DispatchKeepsInv(s, batch);
    DropsFirstIdle(Dispatch(s, batch), k);
    DestroyKeepsInvIff(s, 0, batch);
  }

  lemma RoundsFall(size: nat, cnt: nat, i: nat)
    requires i + cnt <= size && size > 0 && (i == 0 ==> cnt < size)
    ensures 0 < ShrinkRounds(size, cnt, i) <= size
    ensures ShrinkRounds(size - 1, cnt, i + 1) == ShrinkRounds(size, cnt, i) - 1
  {
  }

  lemma {:induction false} FirstIdleSuffices(s: State, cnt: nat, i: nat, script: seq<Batch>)
    requires Inv(s) && (i == 0 ==> cnt < |s.bufs|) && FirstIdle(s, ShrinkRounds(|s.bufs|, cnt, i))
    ensures HeadsIdle(s, cnt, i, script)
    decreases |s.bufs|
  {
    hide Inv, Idle, FirstIdle, Dispatch;
    if i + cnt <= |s.bufs| && s.bufs != [] {
      RoundsFall(|s.bufs|, cnt, i);
      DestroyKeepsFirstIdle(s, Head(script), ShrinkRounds(|s.bufs|, cnt, i));
      FirstIdleSuffices(Destroy(s, 0, Head(script)), cnt, i + 1, Rest(script));
    }
  }

  /** A round in which no event comes. */
  lemma QuietRound(s: State, cnt: nat, i: nat)
    requires HeadsIdle(s, cnt, i, []) && i + cnt <= |s.bufs| && s.bufs != []
    ensures s.bufs[0] in Idle(s) && HeadsIdle(Drop(s, 0), cnt, i + 1, [])
    ensures |Drop(s, 0).bufs| == |s.bufs| - 1
  {
    hide Idle;
    assert Dispatch(s, []) == s;
  }

  lemma {:induction false} QuietNeedsFirstIdle(s: State, cnt: nat, i: nat)
    requires Inv(s) && (i == 0 ==> cnt < |s.bufs|) && HeadsIdle(s, cnt, i, [])
    ensures FirstIdle(s, ShrinkRounds(|s.bufs|, cnt, i))
    decreases |s.bufs|
  {
    hide Inv, Idle, HeadsIdle, FirstIn, Drop;
    if i + cnt <= |s.bufs| && s.bufs != [] {
      QuietRound(s, cnt, i);
      RoundsFall(|s.bufs|, cnt, i);
      DropKeepsInv(s, 0);
      QuietNeedsFirstIdle(Drop(s, 0), cnt, i + 1);
      DropsFirstIdle(s, ShrinkRounds(|s.bufs|, cnt, i));
    } else {
      FirstNone(s);
    }
  }

  /** Whatever events come, every round meets an idle buffer. */
  ghost predicate ShrinkIsSafe(s: State, cnt: nat) {
    forall script: seq<Batch> :: HeadsIdle(s, cnt, 0, script)
  }

  /** What a caller must know before it shrinks: whatever events come, the loop meets idle buffers
      only, and so keeps the invariant, exactly when the buffers it will destroy are idle at the call. */
  lemma ShrinkIsSafeIff(s: State, cnt: nat)
    requires Inv(s) && cnt < |s.bufs|
    ensures ShrinkIsSafe(s, cnt) <==> FirstIdle(s, ShrinkRounds(|s.bufs|, cnt, 0))
  {
    hide Inv, HeadsIdle, FirstIdle;
    if FirstIdle(s, ShrinkRounds(|s.bufs|, cnt, 0)) {
      forall script: seq<Batch> ensures HeadsIdle(s, cnt, 0, script) {
        FirstIdleSuffices(s, cnt, 0, script);
      }
    } else if ShrinkIsSafe(s, cnt) {
      QuietNeedsFirstIdle(s, cnt, 0);
    }
  }

  /** So a client that has nothing out may always shrink. */
  lemma NothingOutHeadsIdle(s: State, cnt: nat, script: seq<Batch>)
    requires Inv(s) && Busy(s) == {} && cnt < |s.bufs|
    ensures HeadsIdle(s, cnt, 0, script)
  {
    forall j | 0 <= j < |s.bufs| ensures s.bufs[j] in Idle(s) {
      assert s.bufs[j] in Elems(s.bufs);
    }
    hide Inv, Idle;
    FirstIdleSuffices(s, cnt, 0, script);
  }

  lemma TailOfRest(bufs: seq<Buffer>, k: nat)
    requires 0 < k <= |bufs|
    ensures RemoveAt(bufs, 0)[k - 1..] == bufs[k..]
  {
  }

  lemma DropBufs(s: State, i: nat)
    requires i < |s.bufs|
    ensures Drop(s, i).bufs == RemoveAt(s.bufs, i)
  {
  }

  /** How many buffers the moving bound leaves: the last ones of the list. */
  lemma {:induction false} ShrinkLeaves(s: State, cnt: nat, i: nat, script: seq<Batch>)
    requires i == 0 ==> cnt < |s.bufs|
    ensures ShrinkRounds(|s.bufs|, cnt, i) <= |s.bufs|
    ensures Shrink(s, cnt, i, script).bufs == s.bufs[ShrinkRounds(|s.bufs|, cnt, i)..]
    decreases |s.bufs|
  {
    hide Dispatch, Drop, RemoveAt;
    if i + cnt <= |s.bufs| {
      RoundsFall(|s.bufs|, cnt, i);
      DropBufs(Dispatch(s, Head(script)), 0);
      TailOfRest(s.bufs, ShrinkRounds(|s.bufs|, cnt, i));
      ShrinkLeaves(Destroy(s, 0, Head(script)), cnt, i + 1, Rest(script));
    }
  }

  /** setBufferCount. A negative count changes nothing. */
  function SetBufferCount(s: State, cnt: int, script: seq<Batch>, made: seq<Buffer>): State {
    if 0 <= cnt < |s.bufs| then Shrink(s, cnt, 0, script)
    else if cnt > |s.bufs| then Grow(s, script, made)
    else s
  }

  /** The window has the requested number of buffers afterwards exactly when that number was at
      most two below the old one. It never has fewer. */
  lemma CountReachedIff(s: State, cnt: nat, script: seq<Batch>, made: seq<Buffer>)
    requires |made| == if cnt > |s.bufs| then cnt - |s.bufs| else 0
    ensures |SetBufferCount(s, cnt, script, made).bufs| >= cnt
    ensures |SetBufferCount(s, cnt, script, made).bufs| == cnt <==> |s.bufs| - cnt <= 2
  {
    if cnt < |s.bufs| {
      ShrinkLeaves(s, cnt, 0, script);
    } else if cnt > |s.bufs| {
      GrowBufs(s, script, made);
    }
  }

  // ---- Runs ------------------------------------------------------------------------------

  /** A window before its constructor asks for buffers. */
  function Empty(want: Geometry, make: Geometry): State {
    State([], map[], [], [], [], 0, 1, false, want, make, Compositor([], 0, 1, map[]),
          Log([], [], None, 0, 0, {}))
  }

  datatype Op =
    | DequeueOp(script: seq<Batch>, nb: Buffer)
    | FinishSwapOp(script: seq<Batch>)
    | EventsOp(batch: Batch)
    | IntervalOp(interval: int)
    | GeometryOp(want: Geometry, make: Geometry)
    | CountOp(cnt: int, script: seq<Batch>, made: seq<Buffer>)

  /** The client's side of the contract: no call while finishSwap is still waiting, one dequeue for
      every finishSwap, and the list shrinks only by buffers that are idle. New buffers are new, and a
      growing list gets as many as it lacks. */
  ghost predicate Permitted(s: State, op: Op) {
    match op
    case DequeueOp(_, nb) => s.swapping == [] && nb !in s.log.seen
    case FinishSwapOp(_) => s.swapping == [] && s.queue != []
    case EventsOp(_) => true
    case IntervalOp(_) => s.swapping == []
    case GeometryOp(_, _) => s.swapping == []
    case CountOp(cnt, script, made) =>
      && s.swapping == [] && (0 <= cnt < |s.bufs| ==> HeadsIdle(s, cnt, 0, script))
      && NoDup(made) && Elems(made) !! s.log.seen
      && (cnt > |s.bufs| ==> |made| == cnt - |s.bufs|)
  }

  function Step(s: State, op: Op): (State, Outcome)
    requires op.FinishSwapOp? ==> s.queue != []
  {
    match op
    case DequeueOp(script, nb) => Dequeue(s, script, nb)
    case FinishSwapOp(script) => FinishSwap(s, script)
    case EventsOp(batch) => (Dispatch(s, batch), Done)
    case IntervalOp(interval) =>
      (s.(interval := if interval < 0 then 0 else if interval > 1 then 1 else interval), Done)
    case GeometryOp(want, make) => (s.(want := want, make := make), Done)
    case CountOp(cnt, script, made) => (SetBufferCount(s, cnt, script, made), Done)
  }

  lemma SettingKeepsInv(s: State, t: State)
    requires Inv(s) && t == s.(interval := t.interval, want := t.want, make := t.make)
    ensures Inv(t)
  {
    SameBuffers(s, t);
    SameCompositor(s, t);
    Combine(t);
  }

  lemma StepKeepsSetting(s: State, interval: int)
    requires Inv(s)
    ensures Inv(Step(s, IntervalOp(interval)).0)
  {
    hide Inv;
    SettingKeepsInv(s, Step(s, IntervalOp(interval)).0);
  }

  lemma CountKeepsInv(s: State, cnt: int, script: seq<Batch>, made: seq<Buffer>)
    requires Inv(s) && Permitted(s, CountOp(cnt, script, made))
    ensures Inv(SetBufferCount(s, cnt, script, made))
  {
    hide Inv, HeadsIdle, NoDup, Elems, Shrink, Grow;
    if 0 <= cnt < |s.bufs| {
      ShrinkKeepsInvIff(s, cnt, 0, script);
    } else if cnt > |s.bufs| {
      GrowKeepsInv(s, script, made);
    }
  }

  lemma StepKeepsInv(s: State, op: Op)
    requires Inv(s) && Permitted(s, op)
    ensures Inv(Step(s, op).0)
  {
    hide Inv, Dequeue, FinishSwap, Dispatch, SetBufferCount;
    match op
    case DequeueOp(script, nb) => DequeueKeepsInv(s, script, nb);
    case FinishSwapOp(script) => FinishSwapKeepsInv(s, script);
    case EventsOp(batch) => DispatchKeepsInv(s, batch);
    case IntervalOp(_) => SettingKeepsInv(s, Step(s, op).0);
    case GeometryOp(_, _) => SettingKeepsInv(s, Step(s, op).0);
    case CountOp(cnt, script, made) => CountKeepsInv(s, cnt, script, made);
  }

  /** A run stops at the first call the client may not make. */
  ghost function Run(s: State, ops: seq<Op>): State
    decreases |ops|
  {
    if ops == [] || !Permitted(s, ops[0]) then s else Run(Step(s, ops[0]).0, ops[1..])
  }

  lemma {:induction false} RunKeepsInv(s: State, ops: seq<Op>)
    requires Inv(s)
    ensures Inv(Run(s, ops))
    decreases |ops|
  {
    hide Inv, Step;
    if ops != [] && Permitted(s, ops[0]) {
      StepKeepsInv(s, ops[0]);
      RunKeepsInv(Step(s, ops[0]).0, ops[1..]);
    }
  }

  lemma EmptyInv(want: Geometry, make: Geometry)
    ensures Inv(Empty(want, make))
  {
    NoDupEmpty<Buffer>();
    assert Elems<Buffer>([]) == {};
  }

  lemma GrowsFromEmpty(want: Geometry, make: Geometry, script: seq<Batch>, made: seq<Buffer>)
    ensures Grow(Empty(want, make), script, made).bufs == made
  {
    GrowBufs(Empty(want, make), script, made);
  }

  lemma {:induction false} GrowBufs(s: State, script: seq<Batch>, made: seq<Buffer>)
    ensures Grow(s, script, made).bufs == s.bufs + made
    decreases |made|
  {
    if made != [] {
      GrowBufs(AddBuffer(s, Head(script), made[0]), Rest(script), made[1..]);
    }
  }

  // ---- What holds in every run -----------------------------------------------------------

  ghost function Reached(want: Geometry, make: Geometry, ops: seq<Op>): (s: State)
    ensures Inv(s)
  {
    EmptyInv(want, make);
    RunKeepsInv(Empty(want, make), ops);
    Run(Empty(want, make), ops)
  }

  /** Conservation: every buffer is in exactly one of the idle set, `queue`, the swap in progress
      and `fronted`; none of these lists a buffer twice; the counter counts the idle ones. */
  lemma BuffersAreConserved(want: Geometry, make: Geometry, ops: seq<Op>, b: Buffer)
    ensures var s := Reached(want, make, ops);
            && NoDup(s.bufs) && NoDup(s.queue) && NoDup(s.fronted)
            && (b in s.bufs <==> b in Idle(s) || b in s.queue || b in s.swapping || b in s.fronted)
            && (b in Idle(s) ==> b !in s.queue && b !in s.swapping && b !in s.fronted)
            && (b in s.queue ==> b !in s.swapping && b !in s.fronted)
            && (b in s.swapping ==> b !in s.fronted)
            && s.free + |s.queue| + |s.swapping| + |s.fronted| == |s.bufs|
  {
    var s := Reached(want, make, ops);
    PartsOfOut(s);
    assert b in s.bufs <==> b in Elems(s.bufs);
    assert b in Elems(Out(s)) <==> b in s.queue || b in s.swapping || b in s.fronted;
    assert Idle(s) !! Busy(s);
    assert |Elems(s.bufs)| == |Idle(s)| + |Busy(s)|;
  }

  lemma PartsOfOut(s: State)
    requires NoDup(Out(s))
    ensures NoDup(s.queue) && NoDup(s.fronted) && NoDup(s.swapping)
    ensures forall b :: b in s.queue ==> b !in s.swapping && b !in s.fronted
    ensures forall b :: b in s.swapping ==> b !in s.fronted
  {
    hide NoDup;
    NoDupParts(s.fronted + s.swapping, s.queue);
    NoDupParts(s.fronted, s.swapping);
  }

  /** Presentation order: what finishSwap has committed is a prefix of what dequeueBuffer has
      returned, in the same order, and only the buffers of the queue are missing from it. */
  lemma CommitsFollowDequeues(want: Geometry, make: Geometry, ops: seq<Op>)
    ensures var s := Reached(want, make, ops);
            && s.log.committed <= s.log.dequeued
            && s.log.dequeued[|s.log.committed|..] == s.swapping + s.queue
  {
    hide Shape, Partition, Agrees, Throttled, YoungestIsLast;
    var s := Reached(want, make, ops);
    var rest := s.swapping + s.queue;
    assert s.log.dequeued == s.log.committed + rest;
  }

  /** Throttling: of the commits made with swap interval 1, at most one has not been answered by
      a frame event, and there is one exactly while frame_callback is set. */
  lemma OneUnansweredFrame(want: Geometry, make: Geometry, ops: seq<Op>)
    ensures var s := Reached(want, make, ops);
            s.log.throttled - s.log.frameEvents == if s.frame then 1 else 0
  {
  }

  /** At most one buffer is marked youngest, and it is the one released last. */
  lemma AtMostOneYoungest(want: Geometry, make: Geometry, ops: seq<Op>, b: Buffer)
    ensures var s := Reached(want, make, ops);
            b in s.cell && s.cell[b].youngest == 1 ==>
              s.log.last == Some(b) &&
              forall c | c in s.cell :: s.cell[c].youngest == 1 ==> c == b
  {
    var s := Reached(want, make, ops);
    hide Shape, Partition, Agrees;
  }

  /** What one dequeue does, in any state a run can reach: the buffer goes to the back of the
      queue and was not in it; it has the wanted geometry or is newly made, the latter only if some
      buffer of the list does not have it; the list keeps its length; the buffer released last is
      handed out only when it was the only idle one; and a call that blocks does so because nothing
      is idle. */
  lemma DequeueHandsOut(s: State, script: seq<Batch>, nb: Buffer)
    requires Inv(s) && nb !in s.log.seen
    ensures var (t, r) := Dequeue(s, script, nb);
            && |t.bufs| == |s.bufs|
            && (r.Got? ==>
                  && t.queue == s.queue + [r.buffer] && r.buffer !in s.queue
                  && t.log.dequeued == s.log.dequeued + [r.buffer]
                  && (r.buffer == nb || (r.buffer in s.bufs && r.buffer.geometry == s.want && t.bufs == s.bufs))
                  && (r.buffer == nb ==> exists b :: b in s.bufs && b.geometry != s.want)
                  && (t.log.last == Some(r.buffer) ==> Idle(t) == {}))
            && (!r.Got? ==> r == Blocked && t.queue == s.queue && Idle(t) == {})
  {
    hide Inv, Idle, Dispatch, WaitFree, Select, Destroy, AddBuffer;
    DequeueKeepsInv(s, script, nb);
    DispatchKeepsInv(s, Head(script));
    var s0 := Dispatch(s, Head(script));
    WaitFreeKeepsInv(s0, Rest(script));
    var (s1, rest) := WaitFree(s0, Rest(script));
    if s1.free == 0 {
      NoneIdle(s1);
    } else {
      SelectIsNew(s1);
      var i := Select(s1);
      AllSeen(s);
      assert s1.bufs[i] in s.bufs;
      if s1.bufs[i].geometry == s1.want {
        TakeCells(s1, i);
      } else {
        ReallocKeepsQueue(s1, i, Head(rest), Head(Rest(rest)), nb);
      }
    }
  }

  lemma AllSeen(s: State)
    requires Inv(s)
    ensures forall b | b in s.bufs :: b in s.log.seen
  {
    forall b | b in s.bufs ensures b in s.log.seen {
      assert b in Elems(s.bufs);
    }
  }

  lemma NoneIdle(s: State)
    requires Inv(s) && s.free == 0
    ensures Idle(s) == {}
  {
  }

  lemma IdleNotQueued(s: State, b: Buffer)
    requires Partition(s) && b in Idle(s)
    ensures b !in s.queue
  {
    assert b in s.queue ==> b in Elems(Out(s));
  }

  lemma ReallocKeepsQueue(s: State, i: nat, one: Batch, two: Batch, nb: Buffer)
    requires Inv(s) && i < |s.bufs| && s.bufs[i] in Idle(s) && nb !in s.log.seen
    ensures var t := AddBuffer(Destroy(s, i, one), two, nb);
            && |t.bufs| == |s.bufs| && t.bufs[|t.bufs| - 1] == nb && t.queue == s.queue
            && t.log.dequeued == s.log.dequeued && t.log.last != Some(nb) && nb !in s.queue
  {
    DestroyKeepsInv(s, i, one);
    DispatchKeepsInv(s, one);
    var u := Destroy(s, i, one);
    AddBufferKeepsInv(u, two, nb);
    DispatchKeepsInv(u, two);
    assert nb in s.queue ==> nb in Elems(Out(s));
  }

  /** finishSwap presents the oldest buffer of the queue; it blocks only for an outstanding frame
      event, with that buffer taken from the queue and still busy. */
  lemma SwapPresentsOldest(s: State, script: seq<Batch>)
    requires Inv(s) && s.swapping == [] && s.queue != []
    ensures var (t, r) := FinishSwap(s, script);
            && t.queue == s.queue[1..]
            && (r == Done ==>
                  && t.log.committed == s.log.committed + [s.queue[0]]
                  && t.fronted != [] && t.fronted[|t.fronted| - 1] == s.queue[0]
                  && t.frame == (s.interval > 0))
            && (r != Done ==> r == Blocked && t.frame && t.swapping == [s.queue[0]])
  {
    SwapBeginKeepsInv(s);
    var s1 := SwapBegin(s);
    hide Inv;
    DispatchKeepsInv(s1, Head(script));
    var s2 := Dispatch(s1, Head(script));
    WaitFrameKeepsInv(s2, Rest(script));
    CommitPresents(WaitFrame(s2, Rest(script)));
    hide Commit, WaitFrame, Dispatch;
  }

  lemma CommitPresents(u: State)
    requires |u.swapping| == 1
    ensures var t := Commit(u);
            && t.queue == u.queue && t.fronted == u.fronted + [u.swapping[0]]
            && t.log.committed == u.log.committed + [u.swapping[0]]
            && t.frame == (u.frame || u.interval > 0)
  {
  }
}
