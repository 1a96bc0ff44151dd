# libhybris: a verified model of its stateful parts

libhybris lets programs built for one C library use Android drivers built for another. Most of it
looks up a symbol and calls it. This project models the parts that keep state of their own and
proves what holds of them in every run.

Each part has a specification, a state with a step function and an invariant, or functions on
values, and beside it the code itself: classes whose methods update their fields in place and are
proved to perform the steps of the specification. The lemmas about whole runs are stated on the
specification. `WaylandCalls`, `FbDevCalls`, `HwcCalls`, `WleglCalls`, `PthreadCalls` and `ThreadRuns`
say what each call gives and takes in terms of lists, flags, events and errors alone, which calls undo
each other, and what comes back of them later in a run.

* **Three window buffer queues.** `WaylandQueue`/`WaylandWindow` keep a counter, flags and three
  lists that compositor events change in the middle of any call. `FbDevQueue`/`FbDevWindow` are a
  mutex and condition-variable protocol with a post outside the mutex; every critical section is a
  step and any number of threads interleave. `HwcQueue`/`HwcWindow` are a ring without busy flags
  whose buffers carry fence descriptors. What the client owes (return only what it holds;
  dequeue from the ring only after returning what it got n dequeues before; reallocate only when
  nothing is out) is the predicate `Permitted` of each.
* **The native-handle protocol.** `NativeHandle`, `WleglProtocol` and `WleglServer`: handles are
  taken apart, sent a descriptor at a time and rebuilt, and every descriptor has one owner.
  `RefCount` models the atomic counts that decide when the last owner lets go, as both
  BaseNativeWindowBuffer and BaseNativeWindow keep them, and `BufferLife` puts the two together.
* **The pthread emulation.** `PthreadSync`/`PthreadLibc` show that Android words lazily bound to
  real objects behave as the real objects. `ThreadCreate` is the handshake of pthread_create over
  a container on the creator's stack, `TidTable` the table it registers in.
* **Exact cores.** `Strl` (strlcpy, strlcat), `Bits` and `SigSet` (signal sets), `SigMask`,
  `JmpBuf` and `JmpMachine` (sigsetjmp and siglongjmp on a register file and a memory), and
  `AddrInfo` (address lists).

`Lists` holds facts about sequences. Each call into code that is not modelled is a parameter or a
nondeterministic choice: which events a dispatch delivers, how many buffers the allocator can
provide, which block malloc returns, what present does with a fence, what glibc answers, which
registers and how much stack a C function uses. A wait takes a finite script of what happens
during it; a call whose script runs out is still waiting.

Some promises do not hold of the code for every caller. The model keeps the code and states exactly
when they do: `WaylandQueue.CountReachedIff`, `WaylandQueue.DestroyKeepsInvIff`,
`WaylandQueue.ShrinkIsSafeIff`, `FbDevQueue.EnterKeepsInvIff`, `FbDevQueue.SettersAreHonouredIff`,
`FbDevQueue.FirstDequeueIff`, `HwcQueue.SafeRunIff`, `HwcQueue.DestroyKeepsInvIff`,
`HwcQueue.SetKeepsInvIff`, `HwcCalls.CountIsHonouredIff`, `PthreadSync.UnlockAgreesIff`,
`PthreadSync.ReinitKeepsInvariantIff`, `TidTable.RegistrationTakesIff`, `JmpBuf.WholeMaskReturnsIff`
and `AddrInfo.FreeUndoesIff`; and `WleglProtocol.HugeHandlesNeverFill` beside
`WleglProtocol.TransferRebuilds`, which between them split the handles by their count.

Verify with `dafny verify dfyconfig.toml`.

## Model

| member | source | states |
|---|---|---|
| `WaylandQueue.ReleaseAssertsHold` | libEGL/platforms/wayland/wayland_window.cpp:287-309 | both asserts of releaseBuffer hold whenever the compositor releases a buffer it holds: the buffer is on `fronted` and is one of the window's |
| `WaylandQueue.DeliverKeepsInv` | libEGL/platforms/wayland/wayland_window.cpp:228-321 | a release or frame event in the middle of any call keeps lists, flags, counter, compositor and log in agreement, and leaves the client's lists and idle buffers alone |
| `WaylandQueue.SelectFinds` | libEGL/platforms/wayland/wayland_window.cpp:342-368 | once the counter is not zero the search finds an idle buffer, so the "no free buffers" exit is dead, and it picks the buffer released last only when that is the sole idle one |
| `WaylandQueue.DequeueKeepsInv` | libEGL/platforms/wayland/wayland_window.cpp:324-398 | dequeueBuffer keeps the invariant over every delivery of events, reallocation included, and ends with a buffer or still waiting |
| `WaylandQueue.DequeueHandsOut` | libEGL/platforms/wayland/wayland_window.cpp:324-398 | one dequeue appends a buffer that was not queued; it is one of the list, of the wanted geometry, and the list stays, or it is new, and then some buffer did not have that geometry; the list keeps its length and the call waits only while nothing is idle |
| `WaylandCalls.DequeueReplacesIff` | libEGL/platforms/wayland/wayland_window.cpp:373-387 | the buffer chosen goes to the client and the list stays exactly when it has the wanted geometry; any other is destroyed, and a new buffer at the end of the list goes to the client |
| `WaylandCalls.FittingIsReused` | libEGL/platforms/wayland/wayland_window.cpp:373-387 | a window whose buffers all have the wanted geometry destroys and makes none, over every delivery of events |
| `WaylandCalls.NewIffReplaced` | libEGL/platforms/wayland/wayland_window.cpp:373-387 | the new buffer is handed out exactly when a buffer left the list, which was idle and did not fit |
| `WaylandCalls.SelectsFirst` | libEGL/platforms/wayland/wayland_window.cpp:342-368 | the buffer chosen is the first idle one of the list, the one released last being passed over while another is idle |
| `WaylandCalls.DequeueBlocksIff` | libEGL/platforms/wayland/wayland_window.cpp:331-340 | dequeueBuffer still waits exactly when nothing was idle and no event it reads releases a buffer the compositor held |
| `WaylandCalls.WaitFreeStops` | libEGL/platforms/wayland/wayland_window.cpp:337-340 | the wait reads batch by batch and stops at the first after which m_freeBufs is not zero |
| `WaylandCalls.DispatchDelivers` | libEGL/platforms/wayland/wayland_window.cpp:462-504 | a dispatch delivers every event of its batch, in order |
| `WaylandCalls.ReleaseFrees` | libEGL/platforms/wayland/wayland_window.cpp:267-321 | a release makes exactly the released buffer idle, counts it, makes it the last one released and takes it off `fronted` and nothing else |
| `WaylandCalls.FrameEventAnswers` | libEGL/platforms/wayland/wayland_window.cpp:228-234 | a frame event clears frame_callback and touches no buffer |
| `WaylandCalls.EventsBeforeDequeue` | libEGL/platforms/wayland/wayland_window.cpp:331-340 | events delivered before a dequeue are as if it had read them first |
| `WaylandCalls.GeometryDecides` | libEGL/platforms/wayland/wayland_window.cpp:373-387 | after a change of geometry the next buffer handed out has the new one or is new |
| `WaylandQueue.FinishSwapKeepsInv` | libEGL/platforms/wayland/wayland_window.cpp:506-563 | finishSwap keeps the invariant over every delivery of events and waits only for an outstanding frame event |
| `WaylandQueue.SwapPresentsOldest` | libEGL/platforms/wayland/wayland_window.cpp:506-563 | finishSwap commits the oldest buffer of `queue`, puts it last on `fronted`, and requests a frame event exactly with a positive swap interval |
| `WaylandCalls.FinishSwapBlocksIff` | libEGL/platforms/wayland/wayland_window.cpp:518-528 | finishSwap still waits exactly when a frame event was outstanding and none is read |
| `WaylandCalls.WaitFrameStops` | libEGL/platforms/wayland/wayland_window.cpp:518-528 | its wait stops at the first batch after which no frame event is outstanding |
| `WaylandCalls.CommitAttaches` | libEGL/platforms/wayland/wayland_window.cpp:530-555 | the commit hands the compositor the buffer's wl_buffer, the one it had or else a new one |
| `WaylandCalls.IntervalDecides` | libEGL/platforms/wayland/wayland_window.cpp:237-254 | a swap interval of 1 or more makes the next swap ask for a frame event, one of 0 or less does not |
| `WaylandCalls.SettingsStay` | libEGL/platforms/wayland/wayland_window.cpp:237-254 | over every run without the setters interval and geometry stay |
| `WaylandCalls.WlBufferLasts` | libEGL/platforms/wayland/wayland_window.cpp:530-555 | over every run a buffer gets at most one wl_buffer, and a destroyed buffer never comes back |
| `WaylandQueue.DestroyKeepsInv` | libEGL/platforms/wayland/wayland_window.cpp:703-723 | destroyBuffer of an idle buffer, with the events it reads, keeps the invariant and removes that buffer alone |
| `WaylandQueue.DestroyKeepsInvIff` | libEGL/platforms/wayland/wayland_window.cpp:703-723 | destroyBuffer keeps the invariant exactly when the buffer is idle once the pending events have been read |
| `WaylandQueue.AddBufferKeepsInv` | libEGL/platforms/wayland/wayland_window.cpp:739-756 | addBuffer, with the round trip's events before the append, keeps the invariant and adds one idle buffer |
| `WaylandCalls.EventsComeFirst` | libEGL/platforms/wayland/wayland_window.cpp:703-757 | destroyBuffer and addBuffer read the pending events before anything else |
| `WaylandCalls.DestroyUndoesAdd` | libEGL/platforms/wayland/wayland_window.cpp:703-757 | destroying the buffer just made leaves the window as it was |
| `WaylandQueue.StepKeepsInv` | libEGL/platforms/wayland/wayland_window.cpp:237-398 | every call of the client and every batch of events keeps the invariant |
| `WaylandQueue.RunKeepsInv` | libEGL/platforms/wayland/wayland_window.cpp:175-789 | the invariant holds after every run of calls and events |
| `WaylandQueue.BuffersAreConserved` | libEGL/platforms/wayland/wayland_window.cpp:267-398 | in every run each buffer is in exactly one of the idle set, `queue`, the swap in progress and `fronted`, none lists a buffer twice, and m_freeBufs makes up the rest of the list |
| `WaylandQueue.CommitsFollowDequeues` | libEGL/platforms/wayland/wayland_window.cpp:369-390 | in every run the commits are a prefix of the dequeues in the same order, and what is missing is the queue |
| `WaylandQueue.OneUnansweredFrame` | libEGL/platforms/wayland/wayland_window.cpp:506-563 | in every run throttled commits exceed frame events by 1 exactly while frame_callback is set, else by 0 |
| `WaylandQueue.AtMostOneYoungest` | libEGL/platforms/wayland/wayland_window.cpp:309-317 | in every run at most one buffer is marked youngest, the one released last |
| `WaylandQueue.ShrinkLeaves` | libEGL/platforms/wayland/wayland_window.cpp:770-778 | which buffers the moving loop bound leaves, for every start and target: the last ones, in closed form |
| `WaylandQueue.ShrinkKeepsInvIff` | libEGL/platforms/wayland/wayland_window.cpp:770-778 | the shrinking loop keeps the invariant round by round exactly when each buffer it destroys is idle at its turn |
| `WaylandQueue.ShrinkIsSafeIff` | libEGL/platforms/wayland/wayland_window.cpp:770-778 | whatever events come during it, a shrink destroys idle buffers only exactly when the first k of the list are idle at the call, k being the number it destroys |
| `WaylandQueue.NothingOutHeadsIdle` | libEGL/platforms/wayland/wayland_window.cpp:770-778 | a client with nothing out may shrink to any count |
| `WaylandQueue.CountReachedIff` | libEGL/platforms/wayland/wayland_window.cpp:759-789 | setBufferCount never ends below the number asked for and ends exactly at it if and only if it was at most two below the old one |
| `WaylandWindow.Window.constructor` | libEGL/platforms/wayland/wayland_window.cpp:175-212 | a new window satisfies the invariant and has three buffers |
| `WaylandWindow.Window.SetSwapInterval` | libEGL/platforms/wayland/wayland_window.cpp:237-254 | clamps the interval to 0 or 1 and keeps the invariant |
| `WaylandWindow.Window.FindFronted` | libEGL/platforms/wayland/wayland_window.cpp:287-295 | the list search stops at the first entry with the given wl_buffer, or at the end |
| `WaylandWindow.Window.MarkYoungest` | libEGL/platforms/wayland/wayland_window.cpp:313-317 | after the loop the given buffer is the only youngest one |
| `WaylandWindow.Window.ReleaseBuffer` | libEGL/platforms/wayland/wayland_window.cpp:267-321 | the in-place release of a buffer that was not posted is the release step of the specification, with both asserts proved in place |
| `WaylandWindow.Window.ReadQueue` | libEGL/platforms/wayland/wayland_window.cpp:462-496 | one dispatch of the thread that leads delivers the events of the batch in order |
| `WaylandWindow.Window.SelectBuffer` | libEGL/platforms/wayland/wayland_window.cpp:342-360 | the two search loops are the specification's selection |
| `WaylandWindow.Window.WaitForFree` | libEGL/platforms/wayland/wayland_window.cpp:337-340 | the wait loop is the specification's wait and ends with a free buffer or an exhausted script |
| `WaylandWindow.Window.DequeueBuffer` | libEGL/platforms/wayland/wayland_window.cpp:324-398 | the in-place dequeue is the specification's and never takes the "no free buffers" exit; a new buffer has the window's own geometry, an old one the wanted geometry with the list left alone, and none is new if all fit |
| `WaylandWindow.Window.WaitForFrame` | libEGL/platforms/wayland/wayland_window.cpp:518-528 | the frame wait loop is the specification's |
| `WaylandWindow.Window.FinishSwap` | libEGL/platforms/wayland/wayland_window.cpp:506-563 | the in-place finishSwap of a queued buffer is the specification's |
| `WaylandWindow.Window.DestroyBuffer` | libEGL/platforms/wayland/wayland_window.cpp:703-723 | the in-place destroy and erase of any buffer are the specification's, and keep the invariant exactly for one that is idle |
| `WaylandWindow.Window.AddBuffer` | libEGL/platforms/wayland/wayland_window.cpp:739-756 | the in-place append of a new buffer is the specification's |
| `WaylandWindow.Window.ShrinkTo` | libEGL/platforms/wayland/wayland_window.cpp:770-778 | the shrinking loop is the specification's, and its unsigned bound never wraps |
| `WaylandWindow.Window.SetBufferCount` | libEGL/platforms/wayland/wayland_window.cpp:759-789 | the in-place setBufferCount is the specification's, keeps the invariant, and makes as many new buffers as a growing list lacks |
| `FbDevQueue.QueueAssertHolds` | libEGL/platforms/fbdev/fbdev_window.cpp:256-260 | assert(busy == 1) in queueBuffer holds for every buffer a thread holds |
| `FbDevQueue.DequeueHandsOutFree` | libEGL/platforms/fbdev/fbdev_window.cpp:148-228 | a dequeue hands out a list buffer that no thread holds and that is not the front one |
| `FbDevCalls.SearchTakesFirst` | libEGL/platforms/fbdev/fbdev_window.cpp:176-214 | the search hands out the first buffer of the list that no thread has and that is not the front one, or sleeps with nothing else changed |
| `FbDevCalls.SleepsWhere` | libEGL/platforms/fbdev/fbdev_window.cpp:171-219 | a thread that gets nothing sleeps for the counter when nothing is free and in the search when only the front buffer is |
| `FbDevCalls.EnterUsesRequest` | libEGL/platforms/fbdev/fbdev_window.cpp:155-162 | a dequeue works on the new list exactly when one was asked for, which uses the request up |
| `FbDevCalls.ReallocatesOnce` | libEGL/platforms/fbdev/fbdev_window.cpp:155-162 | the list a dequeue finds or makes stays over every interleaving without setters |
| `FbDevQueue.QueueBeginKeepsInv` | libEGL/platforms/fbdev/fbdev_window.cpp:249-262 | the critical section before the post keeps flags, counter, front and holders in agreement |
| `FbDevQueue.QueueEndKeepsInv` | libEGL/platforms/fbdev/fbdev_window.cpp:264-287 | the critical section after the post keeps them in agreement |
| `FbDevQueue.CancelKeepsInv` | libEGL/platforms/fbdev/fbdev_window.cpp:315-330 | cancelBuffer keeps them in agreement |
| `FbDevCalls.CancelGivesBack` | libEGL/platforms/fbdev/fbdev_window.cpp:315-330 | a cancelled buffer is free, its thread holds it no more, the counter is one higher, the next search may take it, and the front buffer and every other flag stay |
| `FbDevCalls.PostBegins` | libEGL/platforms/fbdev/fbdev_window.cpp:249-262 | the buffer passes from held to being posted, flag 1 to 2, and nothing becomes free |
| `FbDevCalls.PostEnds` | libEGL/platforms/fbdev/fbdev_window.cpp:264-287 | the buffer is free and the front one, the counter is one higher, and the next search may take what was free before, the old front buffer included |
| `FbDevCalls.CancelUndoesDequeue` | libEGL/platforms/fbdev/fbdev_window.cpp:148-330 | a dequeue and its cancel leave no trace |
| `FbDevCalls.PostAfterDequeue` | libEGL/platforms/fbdev/fbdev_window.cpp:148-287 | a dequeue and its post leave the buffer the front one and no other trace |
| `FbDevQueue.StepKeepsInv` | libEGL/platforms/fbdev/fbdev_window.cpp:148-330 | every critical section of every thread, and every setter, keeps the invariant |
| `FbDevQueue.RunKeepsInv` | libEGL/platforms/fbdev/fbdev_window.cpp:148-330 | the invariant holds after every interleaving |
| `FbDevQueue.NoBufferIsShared` | libEGL/platforms/fbdev/fbdev_window.cpp:148-330 | in every interleaving no two threads hold or post one buffer, and a buffer that is held or posted is in the list with the matching flag and is not the front one |
| `FbDevQueue.FrontIsNobodys` | libEGL/platforms/fbdev/fbdev_window.cpp:148-330 | in every interleaving, whether or not anything is out, a posted front buffer is in the list, free, with nobody, and not what the next dequeue finds |
| `FbDevQueue.CounterIsExact` | libEGL/platforms/fbdev/fbdev_window.cpp:148-330 | m_freeBufs plus the buffers held and being posted is the length of the list |
| `FbDevQueue.EnterKeepsInvIff` | libEGL/platforms/fbdev/fbdev_window.cpp:148-228 | entering dequeueBuffer keeps the invariant exactly when it does not reallocate while a buffer is held or being posted |
| `FbDevQueue.SearchFindsIff` | libEGL/platforms/fbdev/fbdev_window.cpp:176-214 | the search succeeds exactly when a free buffer exists besides the front one, and there are free-count minus one of these once a front is set |
| `FbDevQueue.DequeueProceedsIff` | libEGL/platforms/fbdev/fbdev_window.cpp:171-219 | a dequeue with nothing to reallocate proceeds without sleeping exactly when m_freeBufs exceeds 1 with a front buffer and 0 without one; the same test decides each wake-up |
| `FbDevQueue.NoneOutNeverBlocks` | libEGL/platforms/fbdev/fbdev_window.cpp:171-219 | with two or more buffers and none out a dequeue never sleeps |
| `FbDevQueue.FrontIsKeptBack` | libEGL/platforms/fbdev/fbdev_window.cpp:273-283 | once something has been posted at most n - 1 buffers are out |
| `FbDevQueue.OncePostedOneStays` | libEGL/platforms/fbdev/fbdev_window.cpp:264-287 | after a post has ended at most n - 1 buffers are held or being posted over every interleaving without setters |
| `FbDevQueue.SingleBufferIsStuck` | libEGL/platforms/fbdev/fbdev_window.cpp:171-219 | a window of one buffer hands out none after its first post over every run without a setter |
| `FbDevQueue.CountIsHonouredIff` | libEGL/platforms/fbdev/fbdev_window.cpp:458-494 | a pending buffer count survives a following setUsage exactly when the usage differs from the one in force |
| `FbDevQueue.SettersAreHonouredIff` | libEGL/platforms/fbdev/fbdev_window.cpp:458-494 | after any sequence of setters, of a window with or without buffers and with or without a pending request, the next dequeue makes new buffers exactly when some setter changed its value and no setUsage came after that one, or a request was pending and no setUsage came at all |
| `FbDevCalls.LastSetterStands` | libEGL/platforms/fbdev/fbdev_window.cpp:458-494 | after any setters count, usage and format are the ones set last |
| `FbDevCalls.UnsetStays` | libEGL/platforms/fbdev/fbdev_window.cpp:458-494 | a value that none of them sets stays |
| `FbDevQueue.FirstDequeueIff` | libEGL/platforms/fbdev/fbdev_window.cpp:148-162 | after any setters of a new window its first dequeue finds buffers, and is one the client contract allows, exactly when there was no setUsage or some setter changed its value and no setUsage came after that one |
| `FbDevQueue.FirstUsageIff` | libEGL/platforms/fbdev/fbdev_window.cpp:458-464 | one setUsage just before a dequeue of a window without buffers leaves a request exactly when it names another usage than the window's |
| `FbDevQueue.LaterSettersDecide` | libEGL/platforms/fbdev/fbdev_window.cpp:458-494 | of a new window, naming its own usage is mended by a later change of the count, and naming another usage is undone by naming it again |
| `FbDevWindow.Window.constructor` | libEGL/platforms/fbdev/fbdev_window.cpp:68-87 | a new window has a pending request for its buffers and nothing handed out |
| `FbDevWindow.Window.DestroyBuffers` | libEGL/platforms/fbdev/fbdev_window.cpp:99-112 | empties the list, the counter and the front pointer and nothing else |
| `FbDevWindow.Window.ReallocateBuffers` | libEGL/platforms/fbdev/fbdev_window.cpp:496-524 | the allocation loop makes new free buffers up to the count or to the first failure |
| `FbDevWindow.Window.FindFree` | libEGL/platforms/fbdev/fbdev_window.cpp:178-188 | the search loop stops at the first free buffer that is not the front one |
| `FbDevWindow.Window.DequeueBuffer` | libEGL/platforms/fbdev/fbdev_window.cpp:148-228 | the first critical section of dequeueBuffer is the specification's for every caller, makes as many buffers as asked for or as the allocator provides, and keeps the invariant exactly when it does not reallocate while a buffer is out |
| `FbDevWindow.Window.DequeueResume` | libEGL/platforms/fbdev/fbdev_window.cpp:171-219 | each section between two waits is the specification's wake-up |
| `FbDevWindow.Window.QueueBegin` | libEGL/platforms/fbdev/fbdev_window.cpp:249-262 | the section before the post is the specification's, with the assert proved in place |
| `FbDevWindow.Window.QueueEnd` | libEGL/platforms/fbdev/fbdev_window.cpp:264-287 | the section after the post is the specification's, and the post's result is returned |
| `FbDevWindow.Window.CancelBuffer` | libEGL/platforms/fbdev/fbdev_window.cpp:315-330 | the in-place cancel is the specification's |
| `FbDevWindow.Window.MustWaitToLock` | libEGL/platforms/fbdev/fbdev_window.cpp:334-353 | lockBuffer waits for the front buffer alone, which nobody holds |
| `FbDevWindow.Window.SetUsage` | libEGL/platforms/fbdev/fbdev_window.cpp:458-464 | a usage overwrites a pending request, a usage like the old one withdrawing it |
| `FbDevWindow.Window.SetBuffersFormat` | libEGL/platforms/fbdev/fbdev_window.cpp:473-479 | a format adds to a pending request |
| `FbDevWindow.Window.SetBufferCount` | libEGL/platforms/fbdev/fbdev_window.cpp:486-494 | a new count makes a request |
| `HwcQueue.HeldIsDistinct` | libEGL/platforms/hwcomposer/hwcomposer_window.cpp:195-229 | a client that never dequeues while overdue holds no buffer twice, in whatever order it returns them |
| `HwcQueue.NextIsHeldIff` | libEGL/platforms/hwcomposer/hwcomposer_window.cpp:195-229 | the buffer at m_nextBuffer is one the client holds exactly when it has not returned what it got n dequeues before, whatever else it has returned |
| `HwcQueue.DequeueIsSafeIff` | libEGL/platforms/hwcomposer/hwcomposer_window.cpp:195-229 | dequeueBuffer hands out a buffer that is not held, and keeps ring and ledger, exactly when the client is not overdue; it aborts exactly when no buffer could be allocated |
| `HwcQueue.SafeRunIff` | libEGL/platforms/hwcomposer/hwcomposer_window.cpp:195-316 | over every run and every order of returns, no buffer is handed out while held if and only if no dequeue is made while the one n before it is still out |
| `HwcQueue.OverdueInOrderIff` | libEGL/platforms/hwcomposer/hwcomposer_window.cpp:195-316 | for a client that returns the oldest first, being overdue is holding all n buffers |
| `HwcQueue.InOrderRunIsSafe` | libEGL/platforms/hwcomposer/hwcomposer_window.cpp:195-316 | so such a client is safe over every run in which it never asks for more than n |
| `HwcQueue.CancelKeepsInv` | libEGL/platforms/hwcomposer/hwcomposer_window.cpp:303-316 | cancelBuffer of any held buffer keeps ring and ledger |
| `HwcQueue.QueueKeepsInv` | libEGL/platforms/hwcomposer/hwcomposer_window.cpp:250-266 | queueBuffer of any held buffer, with any use of the fence by present, keeps ring and ledger |
| `HwcQueue.StepKeepsInv` | libEGL/platforms/hwcomposer/hwcomposer_window.cpp:195-316 | every call of a client that is not overdue, returning in any order, keeps ring and ledger |
| `HwcQueue.RunKeepsInv` | libEGL/platforms/hwcomposer/hwcomposer_window.cpp:195-500 | ring and ledger hold after every run |
| `HwcQueue.RingIsSafe` | libEGL/platforms/hwcomposer/hwcomposer_window.cpp:195-316 | in every run nothing is held twice, m_nextBuffer is in range, and queueBuffer's fence assert holds of every held buffer |
| `HwcQueue.FencesAreConserved` | libEGL/platforms/hwcomposer/hwcomposer_window.cpp:217-276 | in every run each open descriptor is the client's or stored in exactly one buffer, and none is closed twice |
| `HwcQueue.DequeueReturnsSlot` | libEGL/platforms/hwcomposer/hwcomposer_window.cpp:195-229 | the i-th dequeue since the allocation returns buffer i mod n, new to the client, with one duplicate of exactly the fence it stored, whose original is closed |
| `HwcQueue.StoredFenceStays` | libEGL/platforms/hwcomposer/hwcomposer_window.cpp:217-276 | over every run without a dequeue of its buffer a stored fence keeps its descriptor and its fence, and that dequeue closes it |
| `HwcQueue.DestroyKeepsInvIff` | libEGL/platforms/hwcomposer/hwcomposer_window.cpp:147-159 | destroyBuffers keeps ring and ledger exactly when nothing is out and no buffer stores a fence; the descriptors it loses are the stored ones |
| `HwcQueue.SetKeepsInvIff` | libEGL/platforms/hwcomposer/hwcomposer_window.cpp:429-470 | a setter keeps them exactly when it changes nothing, or nothing is out and no fence is stored |
| `HwcCalls.SetStores` | libEGL/platforms/hwcomposer/hwcomposer_window.cpp:429-470 | a setter stores its value, and destroys the buffers exactly when it differs from the old one |
| `HwcCalls.CountIsHonouredIff` | libEGL/platforms/hwcomposer/hwcomposer_window.cpp:202-203 | after a setter names n buffers the next dequeue, n being to be had, leaves n exactly when something changed, or there were none, or there were n |
| `HwcCalls.CountIsHonoured` | libEGL/platforms/hwcomposer/hwcomposer_window.cpp:202-203 | over every run in which the allocator never fails, the next dequeue after a setter names n leaves n buffers |
| `HwcCalls.NeverMoreThanAsked` | libEGL/platforms/hwcomposer/hwcomposer_window.cpp:472-500 | in no run are there more buffers than m_bufferCount |
| `HwcCalls.CancelStores` | libEGL/platforms/hwcomposer/hwcomposer_window.cpp:303-316 | a cancelled buffer stores exactly the descriptor given with it, which is the client's no more, and no other buffer changes |
| `HwcCalls.QueueStores` | libEGL/platforms/hwcomposer/hwcomposer_window.cpp:250-266 | a queued buffer stores that descriptor, or has it closed and stores a new one for the release fence, or none |
| `HwcCalls.UnwantedFenceIsClosed` | libEGL/platforms/hwcomposer/hwcomposer_window.cpp:217-224 | a caller that wants no fence gets none, and the stored one is closed |
| `HwcCalls.FenceComesBack` | libEGL/platforms/hwcomposer/hwcomposer_window.cpp:217-276 | over every run, the fence given back with a buffer is the one that comes with it the next time it is dequeued, under a new descriptor, the old one closed |
| `HwcQueue.OutOfOrderHoldsTwice` | libEGL/platforms/hwcomposer/hwcomposer_window.cpp:195-266 | in a run from a new window, the smallest overdue client: of its two buffers it returns the younger, is handed the one it still holds, and the fence assert fires |
| `HwcQueue.OutOfOrderCanBeSafe` | libEGL/platforms/hwcomposer/hwcomposer_window.cpp:195-266 | of three buffers out the second may go back before the first |
| `HwcWindow.Window.constructor` | libEGL/platforms/hwcomposer/hwcomposer_window.cpp:123-133 | a new window satisfies the invariant and has no buffers |
| `HwcWindow.Window.DestroyBuffers` | libEGL/platforms/hwcomposer/hwcomposer_window.cpp:147-159 | the in-place destroy is the specification's |
| `HwcWindow.Window.AllocateBuffers` | libEGL/platforms/hwcomposer/hwcomposer_window.cpp:472-500 | the allocation loop makes new buffers without fences and starts the ring at 0 |
| `HwcWindow.Window.TakeFence` | libEGL/platforms/hwcomposer/hwcomposer_window.cpp:217-224 | the fence is duplicated for the caller, closed, and forgotten |
| `HwcWindow.Window.DequeueBuffer` | libEGL/platforms/hwcomposer/hwcomposer_window.cpp:195-229 | the in-place dequeue is the specification's for every client, with the index assert proved in place; it makes m_bufferCount buffers or as many as the allocator provides, only when there are none, and keeps the invariant exactly for a client that is not overdue |
| `HwcWindow.Window.QueueBuffer` | libEGL/platforms/hwcomposer/hwcomposer_window.cpp:250-266 | the in-place queue of any held buffer is the specification's, with the fence assert proved in place |
| `HwcWindow.Window.CancelBuffer` | libEGL/platforms/hwcomposer/hwcomposer_window.cpp:303-316 | the in-place cancel of any held buffer is the specification's |
| `HwcWindow.Window.PresentNow` | libEGL/platforms/hwcomposer/hwcomposer_window.cpp:72-80 | present's use of the fence accessors is the specification's |
| `HwcWindow.Window.ChangeSettings` | libEGL/platforms/hwcomposer/hwcomposer_window.cpp:429-470 | a changed count, usage or format destroys the buffers, then is stored; the invariant survives exactly when nothing changed, or nothing is out and no fence is stored |
| `NativeHandle.AssembleParts` | libEGL/platforms/common/native_handle.c:28-37 | a handle is determined by its descriptors and its ints |
| `NativeHandle.Handle.Create` | libEGL/platforms/common/native_handle.c:28-37 | a new handle has the counts asked for and room for both parts |
| `NativeHandle.Handle.Close` | libEGL/platforms/common/native_handle.c:49-60 | every descriptor is closed once, in order, and no int is; a handle of another version is refused and nothing closed |
| `NativeHandle.Handle.CopyIn` | libEGL/platforms/common/server_wlegl_handle.cpp:97-115 | a memcpy writes its words and leaves the rest |
| `NativeHandle.Handle.Serialize` | libEGL/platforms/common/eglplatformcommon.cpp:168-180 | the two arrays are the descriptors and the ints of the handle |
| `NativeHandle.Build` | libEGL/platforms/common/eglplatformcommon.cpp:182-202 | the handle built has these descriptors and these ints |
| `NativeHandle.SendAndRebuild` | libEGL/platforms/common/eglplatformcommon.cpp:168-202 | serializing and rebuilding keeps counts, ints, and the position of every descriptor, and there is no buffer when gralloc refuses |
| `WleglProtocol.AddFdKeepsInv` | libEGL/platforms/common/server_wlegl_handle.cpp:31-46 | add_fd, accepted or refused, keeps the ledger |
| `WleglProtocol.BufferMadeKeepsInv` | libEGL/platforms/common/server_wlegl.cpp:69-111 | a buffer that registers takes the handle's descriptors over |
| `WleglProtocol.BufferRefusedKeepsInv` | libEGL/platforms/common/server_wlegl.cpp:69-111 | a buffer whose registration is refused closes them |
| `WleglProtocol.DestroyHandleKeepsInv` | libEGL/platforms/common/server_wlegl_handle.cpp:59-74 | destroying a handle closes what it still has |
| `WleglProtocol.ReleaseKeepsInv` | libEGL/platforms/common/windowbuffer.cpp:28-37 | the last release of a buffer closes its descriptors |
| `WleglProtocol.StepKeepsInv` | libEGL/platforms/common/server_wlegl.cpp:46-111 | every request, good or refused, keeps the ledger |
| `WleglCalls.HandleMadeIff` | libEGL/platforms/common/server_wlegl.cpp:46-67 | a handle is made exactly of a count that is not negative, else an error is posted |
| `WleglCalls.FdTakenIff` | libEGL/platforms/common/server_wlegl_handle.cpp:31-46 | a descriptor joins the back of its handle exactly while there is room in the 32-bit byte count, else it is closed with an error |
| `WleglCalls.HandleGoes` | libEGL/platforms/common/server_wlegl_handle.cpp:59-74 | the descriptors a handle still has are closed, in order |
| `WleglCalls.BufferMadeIff` | libEGL/platforms/common/server_wlegl.cpp:69-111 | a buffer is made exactly of a positive size, a complete handle and gralloc's consent, around the handle's descriptors and ints |
| `WleglCalls.BufferRefused` | libEGL/platforms/common/server_wlegl.cpp:69-111 | which error refuses a buffer and what then becomes of the descriptors |
| `WleglCalls.NeverOverfull` | libEGL/platforms/common/server_wlegl_handle.cpp:31-46 | over every sequence of requests no handle has more descriptors than it declared |
| `WleglProtocol.RunKeepsInv` | libEGL/platforms/common/server_wlegl.cpp:46-111 | the ledger holds after every sequence of requests |
| `WleglProtocol.ReceivedAreOwned` | libEGL/platforms/common/server_wlegl_handle.cpp:31-46 | the ledger speaks of every descriptor received in the run and of no other |
| `WleglProtocol.EveryFdHasOneOwner` | libEGL/platforms/common/server_wlegl_handle.cpp:31-115 | after every sequence of requests each descriptor received is in exactly one handle, or in exactly one native handle, or closed, and exactly once |
| `WleglProtocol.FdsArrive` | libEGL/platforms/common/server_wlegl_handle.cpp:31-46 | descriptors sent one by one arrive in order |
| `WleglProtocol.TransferRebuilds` | libEGL/platforms/wayland/wayland_window.cpp:58-87 | a handle taken apart by the client is rebuilt by the server with its counts, its ints and its descriptors in order, the carrier handle is gone, and no error is posted |
| `WleglProtocol.HugeHandlesNeverFill` | libEGL/platforms/common/server_wlegl_handle.cpp:31-46 | over every sequence of requests a handle declared with 2^30 descriptors or more never becomes a buffer, because the byte limit wraps |
| `WleglServer.Server.CloseList` | libEGL/platforms/common/server_wlegl_handle.cpp:59-74 | the close loop closes each descriptor once, in order |
| `WleglServer.Server.HandleCreate` | libEGL/platforms/common/server_wlegl.cpp:46-67 | create_handle is the specification's request |
| `WleglServer.Server.HandleAddFd` | libEGL/platforms/common/server_wlegl_handle.cpp:31-46 | add_fd is the specification's request |
| `WleglServer.Server.HandleDestroy` | libEGL/platforms/common/server_wlegl_handle.cpp:59-74 | the handle's destructor is the specification's request |
| `WleglServer.Server.HandleToNative` | libEGL/platforms/common/server_wlegl_handle.cpp:97-115 | a full handle gives its descriptors up and keeps its ints; one that is not full is left alone |
| `WleglServer.Server.BufferCreate` | libEGL/platforms/common/server_wlegl.cpp:69-111 | create_buffer in all four outcomes is the specification's request |
| `WleglServer.Server.BufferRelease` | libEGL/platforms/common/windowbuffer.cpp:28-37 | the buffer's end is the specification's request |
| `WleglServer.ServerBuffer.OnBuffer` | libEGL/platforms/wayland/wayland_window.cpp:843-870 | the handle made from the events takes the descriptors over, and the wl_buffer is kept only if gralloc registers it |
| `WleglServer.SendServerBuffer` | libEGL/platforms/common/server_wlegl.cpp:113-148 | an empty size is refused; else the server makes its own allocated buffer, and the handle reaches the client with its counts, its ints and its descriptors in order |
| `RefCount.StepKeepsInv` | libEGL/platforms/common/nativewindowbase.cpp:55-77 | every atomic step keeps the count equal to the references held |
| `RefCount.HandleIsReturnedOnce` | libEGL/platforms/common/nativewindowbase.cpp:55-77 | for each of the four makers and every interleaving the count is the number of references, the buffer is destroyed once and only without references, and its handle is then given back exactly once by the branch matching how it was obtained |
| `RefCount.AllocatedKnowsItsAllocator` | libEGL/platforms/common/windowbuffer.cpp:28-37 | no maker and no run produces an allocated buffer without an allocator, so the destructor always gives the handle back |
| `RefCount.LastDropDestroys` | libEGL/platforms/common/nativewindowbase.cpp:55-67 | the step that drops the last reference, and no other, starts the destruction |
| `RefCount.MadeIff` | libEGL/platforms/common/server_wlegl_buffer.cpp:54-106 | which makers make a buffer, and with what flags, count and references |
| `RefCount.DropUndoesTake` | libEGL/platforms/common/nativewindowbase.cpp:55-77 | a reference taken is held until it is dropped, which puts everything back |
| `RefCount.AcquireTakesIff` | libEGL/platforms/common/eglplatformcommon.cpp:139-154 | acquiring adds a reference exactly to a buffer that was allocated |
| `RefCount.RemoteWindowBuffer.constructor` | libEGL/platforms/common/windowbuffer.h:36-54 | a new buffer is unallocated and has no reference |
| `RefCount.RemoteWindowBuffer.AddRef` | libEGL/platforms/common/nativewindowbase.cpp:70-77 | the atomic increment is the specification's step |
| `RefCount.RemoteWindowBuffer.AcquireNative` | libEGL/platforms/common/eglplatformcommon.cpp:139-154 | adds a reference for a server-allocated buffer and refuses any other |
| `RefCount.RemoteWindowBuffer.FetchAndSub` | libEGL/platforms/common/nativewindowbase.cpp:55-67 | the atomic decrement returns 1 exactly to the holder of the last reference |
| `RefCount.RemoteWindowBuffer.Destroy` | libEGL/platforms/common/windowbuffer.cpp:28-37 | the destructor gives the handle back the way it was obtained |
| `RefCount.RemoteWindowBuffer.Drop` | libEGL/platforms/common/nativewindowbase.cpp:55-67 | a drop destroys exactly when it is the last |
| `RefCount.CreateClientBuffer` | libEGL/platforms/common/server_wlegl_buffer.cpp:54-82 | a client's handle that gralloc registers becomes a buffer to be unregistered and closed |
| `RefCount.CreateServerBuffer` | libEGL/platforms/common/server_wlegl_buffer.cpp:84-106 | a server-allocated buffer knows the allocator its handle came from |
| `RefCount.CreateRemoteBuffer` | libEGL/platforms/common/eglplatformcommon.cpp:182-202 | a rebuilt handle that gralloc registers becomes a buffer to be unregistered and closed |
| `RefCount.CreateNativeBuffer` | libEGL/platforms/common/eglplatformcommon.cpp:204-226 | an allocated buffer knows the allocator its handle came from |
| `BufferLife.StepKeepsInv` | libEGL/platforms/common/server_wlegl_buffer.cpp:46-82 | every request and every reference taken or dropped keeps the server's native handles and the buffers' counts in step |
| `BufferLife.CreatedIsHeld` | libEGL/platforms/common/server_wlegl.cpp:69-111 | a request makes a buffer exactly of a good size, a complete handle and gralloc's consent, and the buffer is then held by one reference |
| `BufferLife.HandleLivesWithReferences` | libEGL/platforms/common/server_wlegl_buffer.cpp:46-82 | over every interleaving of requests and references, no descriptor of a buffer is closed while anyone holds a reference to it, and once the last is gone and the buffer deleted each has been closed exactly once |
| `BufferLife.ReleasedAtDeletionIff` | libEGL/platforms/common/nativewindowbase.cpp:55-67 | a buffer's handle leaves the server at its deletion and at no other step, which closes exactly its descriptors and can be taken exactly when the last reference has been dropped |
| `PthreadSync.StepSimulates` | fake_libc.c:741-980 | one call through Android words, and the end of a wait, leaves the words standing for what the same call on real objects leaves, and returns the same exactly when it is no destroy and no unlock of an unbound word |
| `PthreadSync.RunSimulates` | fake_libc.c:741-980 | every serial run over any number of objects, waits and their ends included, leaves the objects as the direct program does, and call by call returns the same exactly when the call is no destroy and no unlock of a word not bound before |
| `PthreadSync.UnlockAgreesIff` | fake_libc.c:761-767 | over a run from static words an unlock returns what the real one returns exactly when an earlier call of the run locked that mutex, waited with it or initialised it |
| `PthreadSync.ReinitKeepsInvariantIff` | fake_libc.c:1422-1429 | an init of a mutex keeps every word the one its sleepers will take again exactly when no thread is asleep with that mutex |
| `PthreadSync.WordChangesIff` | fake_libc.c:741-980 | a call that is no init or destroy of a word changes it exactly at its first use, to the new block |
| `PthreadSync.BindingLasts` | fake_libc.c:741-980 | a bound word keeps its object over every run without a re-init or destroy of it |
| `PthreadSync.BoundApart` | fake_libc.c:741-980 | after every run two bound words, mutex or condition, have different objects |
| `PthreadSync.StaticKindDecides` | fake_libc.c:574-594 | the owner's second lock of a static mutex returns 0 exactly when bit 0x4000 of its word is set, EDEADLK exactly when 0x8000 is set and 0x4000 is not, and sleeps otherwise |
| `PthreadCalls.InitKindDecides` | fake_libc.c:1422-1429 | the kind an init asks for decides the owner's second lock |
| `PthreadCalls.OwnerExcludes` | fake_libc.c:743-767 | over every run a locked mutex stays its owner's, and every other thread's lock sleeps, until the owner gives it up |
| `PthreadCalls.UnlockFrees` | fake_libc.c:761-767 | the owner's last unlock lets anyone's next lock in |
| `PthreadCalls.UnlockOtherwise` | fake_libc.c:761-767 | an unlock of a nested lock takes one level off, and one by a stranger fails unless the mutex is a normal one |
| `PthreadCalls.WaitHandsOver` | fake_libc.c:741-980 | a wait gives the mutex to another thread, and after that thread's signal and unlock the waiter returns with it, all through two words in memory |
| `PthreadCalls.SignalWakesOne` | fake_libc.c:967-980 | a signal takes one waiter off and touches no mutex |
| `PthreadCalls.BroadcastWakesAll` | fake_libc.c:951-965 | a broadcast takes all of them |
| `PthreadCalls.DestroyForgets` | fake_libc.c:919-935 | a destroy sets the word of a used condition to 0, and fails on one never used |
| `PthreadLibc.Libc.AllocInitMutex` | fake_libc.c:574-594 | a new free mutex, recursive if bit 0x4000 is set, else errorcheck if 0x8000 is, else normal |
| `PthreadLibc.Libc.RealMutex` | fake_libc.c:747-755 | the word points at its object, bound now if it was static |
| `PthreadLibc.Libc.MutexInit` | fake_libc.c:1422-1429 | pthread_mutex_init is the specification's call, and strands no sleeper exactly when none is asleep with the mutex |
| `PthreadLibc.Libc.MutexLock` | fake_libc.c:743-757 | pthread_mutex_lock is the specification's call |
| `PthreadLibc.Libc.MutexUnlock` | fake_libc.c:761-767 | pthread_mutex_unlock of a bound or unbound word is the specification's call |
| `PthreadLibc.Libc.CondInit` | fake_libc.c:937-949 | pthread_cond_init is the specification's call |
| `PthreadLibc.Libc.CondDestroy` | fake_libc.c:919-935 | pthread_cond_destroy is the specification's call |
| `PthreadLibc.Libc.CondWait` | fake_libc.c:832-855 | pthread_cond_wait is the specification's call, binding both words, until the thread sleeps |
| `PthreadLibc.Libc.CondWaitEnds` | fake_libc.c:854 | the end of a wait takes again the object that glibc was given |
| `PthreadLibc.Libc.CondSignal` | fake_libc.c:967-980 | pthread_cond_signal is the specification's call |
| `PthreadLibc.Libc.CondBroadcast` | fake_libc.c:951-965 | pthread_cond_broadcast is the specification's call |
| `ThreadCreate.StepKeepsInv` | fake_libc.c:776-817 | every step of any number of creations keeps each handshake, the separation of stacks, and the table |
| `ThreadCreate.RunKeepsInv` | fake_libc.c:776-817 | the invariant holds after every interleaving |
| `ThreadCreate.ContainerOutlivesChild` | fake_libc.c:776-817 | in every interleaving a child that is about to touch its container finds its creator still inside pthread_create and the container as written |
| `ThreadCreate.RunsWhatWasPassed` | fake_libc.c:776-817 | a thread runs exactly the routine and argument passed for it |
| `ThreadCreate.CreatorLeavesIff` | fake_libc.c:805-815 | the spin ends exactly when the child is past its container, and then it has registered |
| `ThreadRuns.ReturnedHasEntered` | fake_libc.c:776-817 | when pthread_create has returned, its thread has entered its handle and id in the table |
| `ThreadRuns.TableFollowsRegistrations` | pthread_gettid_helpers.cpp:20-62 | in every interleaving the table is what the children's registrations and removals make of an empty one |
| `ThreadRuns.FoundUntilItEnds` | fake_libc.c:776-791 | a thread that registers into an empty table is found under its id until it ends, over every interleaving with other threads |
| `ThreadRuns.EndIsForgotten` | fake_libc.c:791 | a thread that has just ended is not found |
| `ThreadRuns.ChildRunsAlone` | fake_libc.c:776-788 | the accesses of my_start_routine one after the other do what the routine does as a whole |
| `ThreadRuns.CreationCompletes` | fake_libc.c:776-817 | from the call to its return pthread_create starts a thread that runs the routine and argument passed and is found under its id if the table was empty |
| `ThreadCreate.LookupIsSound` | pthread_gettid_helpers.cpp:34-48 | in every interleaving a lookup that is not 0 is the id registered by a thread alive now |
| `ThreadCreate.MyStartRoutine` | fake_libc.c:776-788 | the child returns with the routine and argument it was passed, its entry in every slot that was empty, and the flag cleared; ChildStep gives the order of these accesses |
| `TidTable.Registry.SetTidToThread` | pthread_gettid_helpers.cpp:20-32 | registration fills every empty slot |
| `TidTable.Registry.GetTidFromThread` | pthread_gettid_helpers.cpp:34-48 | lookup returns the id in the thread's first slot, or 0 |
| `TidTable.Registry.RemTid` | pthread_gettid_helpers.cpp:50-62 | removal empties every slot of the thread |
| `TidTable.TableIsOneRegister` | pthread_gettid_helpers.cpp:20-62 | over every run the 512 slots are one register |
| `TidTable.LookupIsSound` | pthread_gettid_helpers.cpp:20-62 | over every run a lookup returns 0 or the id the living thread registered |
| `TidTable.RegistrationTakesIff` | pthread_gettid_helpers.cpp:20-32 | a new thread can be looked up exactly when it registered into an empty table |
| `TidTable.SecondThreadIsLost` | pthread_gettid_helpers.cpp:20-32 | two live threads of which the second is not found |
| `Strl.StrlCpy` | strlcpy.c:27-51 | memory afterwards is the text cut to size with its NUL, nothing past it is touched, and the length of the source is returned, for every size |
| `Strl.FindEnd` | strlcat.c:41-45 | the first loop finds the end of the destination although its counter wraps |
| `Strl.StrlCat` | strlcat.c:33-59 | memory afterwards is the destination with what fits of the text, and min(size, old length) plus the source's length is returned |
| `Strl.CopyThenAppend` | strlcat.c:33-59 | strlcpy then strlcat leave exactly what one strlcpy of both texts leaves |
| `Strl.BuildsTheConcatenation` | strlcat.c:33-59 | the same for any number of appends |
| `Strl.CopyTruncatesIff` | strlcpy.c:27-51 | strlcpy's result reads back whole exactly when the return value is below the size |
| `Strl.CopyWritesOnly` | strlcpy.c:27-51 | strlcpy writes what it copies and the NUL and nothing behind it |
| `Strl.AppendWritesOnly` | strlcat.c:33-59 | strlcat leaves the text before it and everything behind the new NUL |
| `Strl.AppendTruncatesIff` | strlcat.c:33-59 | strlcat's result reads back whole exactly when the return value is below the size, and without a NUL in reach nothing is written |
| `Strl.BothTruncateIff` | strlcat.c:33-59 | the pair keeps everything exactly when both return values are below the size |
| `SigSet.IndexIsBijection` | setjmp/sigaddset.cpp:32-41 | word and bit number name each signal once |
| `SigSet.MembersDetermineWords` | setjmp/sigismember.cpp:33-41 | arrays with the same members are the same words |
| `SigSet.SigEmptySet` | setjmp/sigemptyset.cpp:33-40 | the set is empty, or -1 for a null set |
| `SigSet.SigFillSet` | setjmp/sigfillset.cpp:33-40 | the set has every signal there is room for, or -1 for a null set |
| `SigSet.SigAddSet` | setjmp/sigaddset.cpp:32-41 | adds exactly the signal, or returns -1 and changes nothing |
| `SigSet.SigDelSet` | setjmp/sigdelset.cpp:34-43 | removes exactly the signal, or returns -1 and changes nothing |
| `SigSet.SigIsMember` | setjmp/sigismember.cpp:33-41 | -1 for a null set or out of range, else membership |
| `SigSet.WordsAreSets` | setjmp/sigaddset.cpp:32-41 | after any calls on any number of words, membership reads back what they did to a mathematical set |
| `SigMask.MaskedIsSetOperation` | setjmp/sigprocmask.cpp:37-54 | blocking, unblocking and setting are union, difference and replacement on signals 1 to 32, never with 9 or 19 |
| `SigMask.HighSignals` | setjmp/sigprocmask.cpp:37-54 | signals above 32 stay, except that setting unblocks them, and any other `how` changes nothing |
| `SigMask.SignalOfBit` | setjmp/sigaddset.cpp:32-41 | bit n - 1 of a word is signal n |
| `SigMask.Process.SigProcMask` | setjmp/sigprocmask.cpp:37-54 | the kernel's mask changes by the widened set and the old low word is returned on success |
| `SigMask.Process.SigBlock` | setjmp/sigblock.c:31-48 | returns the old mask and adds the given one |
| `SigMask.Process.SigSetMask` | setjmp/sigsetmask.c:31-49 | returns the old mask and sets the given one |
| `JmpBuf.SetJmpSaves` | setjmp/setjmp.S:84-121 | after sigsetjmp every region of the save area reads back whole, so none overlaps another |
| `JmpBuf.SetJmpWritesOnly` | setjmp/setjmp.S:84-121 | sigsetjmp writes its area and, only for the mask, the stack below the caller's |
| `JmpBuf.SetJmpReturnsToCaller` | setjmp/setjmp.S:84-121 | sigsetjmp returns 0 to its caller with r4 to r11, sp, lr, the floating-point registers and the mask as they were |
| `JmpBuf.LongJmpRestores` | setjmp/setjmp.S:124-170 | siglongjmp loads any saved area whole, returns the value or 1, and errs exactly for a zero sp or lr |
| `JmpBuf.JumpReturns` | setjmp/setjmp.S:84-170 | whatever happens between, if the area is left alone the jump brings back r4 to r11, sp, lr, d8 to d15 and FPSCR as they were, r12 as saved, returns the value or 1, and restores the low mask exactly if it was saved |
| `JmpBuf.WholeMaskReturnsIff` | setjmp/sigsetmask.c:31-49 | the 64-bit mask comes back whole exactly when no signal above 32 was blocked |
| `JmpMachine.Machine.SigSetJmp` | setjmp/setjmp.S:84-121 | the instructions leave the machine as the specification says |
| `JmpMachine.Machine.PlainSetJmp` | setjmp/setjmp.S:73-81 | setjmp and _setjmp are sigsetjmp with and without the mask |
| `JmpMachine.Machine.SigLongJmp` | setjmp/setjmp.S:124-170 | the instructions leave the machine as the specification says |
| `AddrInfo.Node.Swap` | helpers.c:105-110 | the two fields are exchanged and nothing else |
| `AddrInfo.SwapAll` | helpers.c:129-134 | the walk ends, keeps the chain, and exchanges the fields exactly once in every node |
| `AddrInfo.GetAddrInfo` | helpers.c:116-136 | it faults exactly when there are no hints, or glibc fails and the caller's `*res` was never set; else glibc sees the exchanged copy of the hints, the caller's hints keep their value, and every node of the list in `*res` is exchanged once, also after a failure |
| `AddrInfo.FreeAddrInfo` | helpers.c:138-142 | only the first node is exchanged back, and a null list faults |
| `AddrInfo.FreeUndoesIff` | helpers.c:116-142 | glibc gets back the list it made exactly when every later node reads the same either way |
| `AddrInfo.GetAndFree` | helpers.c:116-142 | a list of two comes back with the second node exchanged |

## Left out

Whole parts:

* Everything that only forwards: symbol lookup, the GL, stdio, float and wide-character wrappers.
* Logging, tracing, buffer dumps, damage rectangles and m_lastBuffer.
* Geometry changes of the Wayland window are one overwrite of the wanted geometry; the bits that
  setUsage ors in are not modelled, in the HWComposer window either.

Wayland window:

* cancelBuffer leaves its buffer in `queue`, so conservation and order hold of runs without it.
- WaylandWindow.Window.ReleaseBuffer: the list of posted buffers is empty; postBuffer and the branch
  for posted buffers, which unlocks the mutex itself, are not modelled.
- WaylandWindow.Window.FinishSwap: requires a queued buffer; the front of an empty deque is undefined,
  and the return on a display error leaves the mutex locked.
* destroyBuffers, whose loop advances an iterator past an erase.
- WaylandWindow.Window.ReadQueue: the thread that leads; the wait of a follower is not modelled, since
  the leader keeps the mutex while it dispatches.
- WaylandWindow.Window.ShrinkTo: requires that it comes upon idle buffers only, as
  `WaylandQueue.ShrinkKeepsInvIff` shows it must; what follows once the counter is wrong is not modelled.
  `WaylandQueue.ShrinkIsSafeIff` says when a caller can rely on it.
- WaylandWindow.Window.SetBufferCount: requires the same of a shrink.

Framebuffer window:

* The fallback for Android before 4.2 that hands out the front buffer.
* Wake-up liveness: one signal serves the waiters of dequeueBuffer and of lockBuffer, so what is
  proved is when a dequeue can proceed, not that it is eventually woken.
* What follows once a window has reallocated with a buffer out, or is dequeued from after its first
  request was withdrawn.

HWComposer window:

* The fences still stored when buffers are destroyed, beyond the statement that they are lost;
  reuse of descriptor numbers; a failing dup.

Native handles and counting:

* native_handle_delete; the resource destructor after a refused registerBuffer on other paths than
  create_buffer; an allocation that fails in server_wlegl_get_server_buffer_handle, which is not
  looked at.
* The wrap of a 32-bit reference count.

Pthreads:

* Concurrent first use of a static word, trylock, pthread_mutex_destroy, timed waits, malloc failure,
  and what glibc does with a static value for a pointer.
* A thread asleep with a mutex that is initialised again: the run is followed up to that init only.
- PthreadSync.StepSimulates: of pthread_cond_destroy it says only that its answer is not the real
  one's, being a variable that was never set, or EINVAL for a condition that was never used.
* pthread_create when thread creation fails: the creator would spin. Its body is a sequence of
  steps of `ThreadCreate` rather than a method, since the spin needs the other thread to move.
* Threads that end without returning from their routine, whose entry would stay in the table.

Exact cores:

* errno.
* kernel_sigset_t is not part of this model; it is taken to be a 64-bit set whose low word
  is the library's set and whose high word `set` clears.
- JmpBuf.JumpReturns: r12 comes back as saved, which is as it was at the call only without the mask,
  because my_sigblock need not keep r12.
* my_longjmperror, which does not return; condition flags; d0 to d7, which calls need not keep.
* Overlapping strings, and strings so long that the sum of two lengths exceeds a size_t.
