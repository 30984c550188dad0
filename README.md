# Frame-counted reclamation in VulkanSceneGraph, modelled in Dafny

This project models the bookkeeping that VulkanSceneGraph uses to reclaim
GPU-visible resources only after the device can no longer be using them.
It covers three pieces:

- `vsg::DeleteQueue` (module `Threading`, `delete_queue.dfy`). Each object handed
  to the queue is stamped with `frameCount + retainForFrameCount`, in
  unsigned 64-bit arithmetic, and appended to the list. Entries are
  released from the front while their stamp has been reached. When the
  stamps are ordered (a fixed window, a frame count that never goes down,
  and no wrap), this releases exactly the entries whose stamp has been
  reached.
- `vsg::CopyAndReleaseBuffer` (module `Commands`, `copy_and_release_buffer.dfy`).
  Copy requests `CopyData{source, destination}` pass through the `_pending`,
  `_completed` and `_readyToClear` lists, moving one list on at each
  `record`. Their staging sources are released only when they leave
  `_readyToClear`.
- The lifecycle slice of `vsg::Viewer` (module `App`, `viewer.dfy`). This is
  the `_close` flag with `active()` and `close()`, `advanceToNextFrame` and
  the frame stamp it replaces, and the event-handler and window lists.

Shared types are in module `Core` (`core.dfy`). `uint64` is a subset of
`int`, and `AddU64` is the wrapping 64-bit addition that C++ performs.
Every object, buffer, pool, window and event handler is an opaque integer
id. Each class keeps the fields of its vsg counterpart, and its methods
change them in place and say what the new state is. Locks and condition variables are
concurrency, so every method is treated as one atomic step.

Each of the modules `Threading`, `Commands` and `App` ends with a scenario
method that exercises the operations together:

- With the default window of 3, an object queued at frame 10 is kept at
  frame 12 and released at frame 13.
- Two copies are recorded once and their sources released two records later.
- A viewer closes and then stops advancing.

Assumptions: `DeleteQueue.cpp`, `CopyAndReleaseBuffer.cpp` and
`Viewer.cpp` are not part of this model. Only their headers are. The
behaviour of the following operations is therefore an assumption of this
model, not something read from their code:

- `DeleteQueue::advance` takes the frame stamp's frame count as the current frame.
- `DeleteQueue::clear` empties the list and releases every entry.
- Retirement (`Threading.DeleteQueue.ReleaseDue`) is a modelling assumption.
  It is the non-blocking release of due entries: walk from the front and
  release entries while their stamp is at most the current frame.
  `DuePrefixIsDue` proves that, on a list whose stamps are ordered, this is
  exactly "release every entry whose stamp has been reached".
- `CopyAndReleaseBuffer::record` releases the sources of `_readyToClear` and
  moves `_completed` to `_readyToClear`. It emits every `_pending` request
  into the command buffer and moves `_pending` to `_completed`.
- `CopyAndReleaseBuffer::copy` registers `(staging, dest)` as pending. The
  staging buffer is the one the pool hands out, passed in as `reserved`.
  It does so only when a pool is set, the data is not empty and a staging
  buffer was obtained. Otherwise it does nothing.
- `Viewer::addWindow` appends, as `std::vector::push_back` does.
  `Viewer::removeWindow` erases the first occurrence found by a search from
  the front, as `std::find` followed by `erase` does.
- `Viewer::advanceToNextFrame` makes frame 0 first, then numbers each frame
  one after the previous stamp's, in `uint64_t` arithmetic.

## Model

| member | source | states |
|---|---|---|
| `Core.AddU64` | include/vsg/threading/DeleteQueue.h:48 | the stamp `frameCount + retainForFrameCount` is the sum modulo 2^64; it equals the true sum, and is at least the frame count, exactly when the sum fits in 64 bits |
| `Threading.Tagged` | include/vsg/threading/DeleteQueue.h:52-61 | a batch add appends one entry per object, in the collection's order, all with the same stamp |
| `Threading.Due` | include/vsg/threading/DeleteQueue.h:63 | an entry is due at frame `now` exactly when it is queued and its stamp is at most `now` |
| `Threading.Retained` | include/vsg/threading/DeleteQueue.h:63 | an entry is not yet due at frame `now` exactly when it is queued and its stamp is beyond `now` |
| `Threading.DueAndRetainedPartition` | include/vsg/threading/DeleteQueue.h:72 | the released and the kept entries together are the whole list, counted with multiplicity |
| `Threading.NoneDue` | include/vsg/threading/DeleteQueue.h:63 | when no stamp has been reached, nothing is released and the list is kept as it is |
| `Threading.DuePrefixIsDue` | include/vsg/threading/DeleteQueue.h:63-72 | with ordered stamps, the longest due prefix is exactly the due entries and the rest is exactly the kept ones: no premature release and no entry left behind |
| `Threading.AppendKeepsOrder` | include/vsg/threading/DeleteQueue.h:48-58 | appending entries stamped at least as late as every queued entry keeps the stamps non-decreasing along the list |
| `Threading.DeleteQueue.constructor` | include/vsg/threading/DeleteQueue.h:27-38 | a fresh queue is at frame 0, retains for 3 frames and is empty, so its first objects are stamped 3 |
| `Threading.DeleteQueue.Advance` | include/vsg/threading/DeleteQueue.h:43 | the frame count becomes the new stamp's frame count and the list is unchanged; a non-decreasing advance keeps the stamps ordered |
| `Threading.DeleteQueue.Add` | include/vsg/threading/DeleteQueue.h:45-50 | exactly one entry `(frameCount + retainForFrameCount, object)` is appended at the back; earlier entries, the frame count and the window are unchanged; without overflow the stamps stay ordered |
| `Threading.DeleteQueue.AddAll` | include/vsg/threading/DeleteQueue.h:52-61 | the list grows by the collection, one entry per object in order with the same stamp; an empty collection changes nothing; the frame count and window are unchanged |
| `Threading.DeleteQueue.CountDue` | include/vsg/threading/DeleteQueue.h:63-72 | returns the length of the leading run of entries whose stamp has been reached |
| `Threading.DeleteQueue.ReleaseDue` | include/vsg/threading/DeleteQueue.h:63-72 | the old list is the released entries followed by the kept ones; every released stamp is at most the current frame; with ordered stamps, the released entries are all the due ones and the kept ones are all the rest |
| `Threading.DeleteQueue.Clear` | include/vsg/threading/DeleteQueue.h:65 | every entry is released and the queue holds none |
| `Commands.Next` | include/vsg/commands/CopyAndReleaseBuffer.h:50-52 | one record moves a request exactly one stage on; a released request stays released |
| `Commands.AfterIsMonotone` | include/vsg/commands/CopyAndReleaseBuffer.h:50-52 | a request never returns to an earlier list |
| `Commands.ReleasedAfterRemainingStages` | include/vsg/commands/CopyAndReleaseBuffer.h:24-52 | a request is released after exactly as many records as it has stages left (three from pending), and not one sooner |
| `Commands.PendingOnlyUntilFirstRecord` | include/vsg/commands/CopyAndReleaseBuffer.h:36-50 | a request is pending until the first record and never afterwards, so only one record emits it |
| `Commands.StageLocatesRequest` | include/vsg/commands/CopyAndReleaseBuffer.h:50-52 | the three lists partition the unreleased requests in insertion order; each request's stage names the one list that holds it, at the place its position gives |
| `Commands.Sources` | include/vsg/commands/CopyAndReleaseBuffer.h:41-44 | the buffers released for a list of requests are their sources, one per request, in order |
| `Commands.CopyAndReleaseBuffer.constructor` | include/vsg/commands/CopyAndReleaseBuffer.h:27-32 | the staging pool is optional and kept as given; all three lists start empty |
| `Commands.CopyAndReleaseBuffer.Add` | include/vsg/commands/CopyAndReleaseBuffer.h:29 | exactly one `CopyData{src, dest}` is appended to the pending list; the other lists and the stage of every earlier request are unchanged |
| `Commands.CopyAndReleaseBuffer.Copy` | include/vsg/commands/CopyAndReleaseBuffer.h:31-34 | one pending request `(staging buffer, dest)` is queued exactly when a pool is set, the data is not empty and a staging buffer was obtained; otherwise nothing changes |
| `Commands.CopyAndReleaseBuffer.Record` | include/vsg/commands/CopyAndReleaseBuffer.h:36 | emits exactly the requests pending when it started, in order; releases exactly the sources of the ready-to-clear requests; every request moves one stage on; only ready-to-clear requests become released |
| `Commands.RecordRepeatedly` | include/vsg/commands/CopyAndReleaseBuffer.h:36-52 | after `n` records every request has the stage `After` gives from its stage before them, so the forward-only and release-after-three-records lemmas hold of the lists |
| `App.NextFrameStamp` | include/vsg/app/Viewer.h:99-102 | the first stamp is frame 0; each later one is the previous frame count plus one modulo 2^64, so it is larger than the previous one exactly when the count does not wrap |
| `App.StampAfterCountsFrames` | include/vsg/app/Viewer.h:160 | the n-th successful advance of a new viewer produces frame n - 1, with no gap and no repeat |
| `App.RemoveFirstAt` | include/vsg/app/Viewer.h:43-44 | erasing at the index of the first occurrence of a window is removal of that occurrence |
| `App.RemoveFirstAbsent` | include/vsg/app/Viewer.h:43-44 | removing a window that is not in the list leaves the list unchanged |
| `App.RemoveFirstRemovesOne` | include/vsg/app/Viewer.h:43-47 | removal takes away exactly one occurrence of the window, if there is one, and no other window |
| `App.RemoveFirstOfSingle` | include/vsg/app/Viewer.h:43-47 | a window present at most once is gone from `windows()` after its removal |
| `App.Viewer.constructor` | include/vsg/app/Viewer.h:154-165 | a new viewer is not closed, is in its first frame, is not threading, and has no windows, event handlers or frame stamp |
| `App.Viewer.Active` | include/vsg/app/Viewer.h:55-56 | `active()` is `!closed`; the per-window validity check is left out |
| `App.Viewer.Close` | include/vsg/app/Viewer.h:58-59 | after `close()`, `active()` is false; no other member changes `_close`, so it stays false |
| `App.Viewer.AdvanceToNextFrame` | include/vsg/app/Viewer.h:99-102 | returns true exactly when the viewer is active; then the frame stamp is replaced by the next frame's; otherwise the frame stays as it was |
| `App.Viewer.AddEventHandler` | include/vsg/app/Viewer.h:71 | exactly the handler is appended after the existing ones |
| `App.Viewer.AddEventHandlers` | include/vsg/app/Viewer.h:73 | all the given handlers are appended, in order, after the existing ones; the length grows by their number |
| `App.Viewer.AddWindow` | include/vsg/app/Viewer.h:40-41 | the window is appended to the window list and is in `windows()` afterwards |
| `App.Viewer.FindWindow` | include/vsg/app/Viewer.h:43-47 | returns the index of the window's first occurrence, or the list's length exactly when the window is absent |
| `App.Viewer.RemoveWindow` | include/vsg/app/Viewer.h:43-44 | the first occurrence of the window is erased and the others keep their order; an absent window changes nothing; a window added once is no longer in `windows()` |

## Left out

- Locking and waking: the mutexes, `std::condition_variable` and `notify_one`, and the atomic on `frameCount`. Each modelled call is one atomic step.
- The blocking half of `wait_then_clear`. Its waiting is concurrency, so only the release of due entries is modelled, in `ReleaseDue`.
- `ActivityStatus` and `getStatus`: cancellation is a cross-thread signal. The queue's constructor therefore takes no status.
- Object destruction: "release" is the removal of an id from a list, returned to the caller, and no destructor runs.
- `retainForFrameCount` is a public field that callers may assign directly. The ordering invariant (`Threading.DeleteQueue.Ordered`) is claimed only for a fixed window.
- The Vulkan copy command written by `CopyData::record` into the `CommandBuffer`. It is modelled as the list of emitted requests.
- Staging allocation and the data upload through `MemoryBufferPools`. The pool's reservation is the `reserved` parameter of `Copy`.
- Completion of the device work is not confirmed by a fence here. A request becomes ready to clear at the record after the one that emitted it, as the three lists imply.
- Viewer threading: `threads`, `setupThreading`, `stopThreading`, `Barrier` and `FrameBlock`.
- Viewer device and windowing work: `pollEvents`, `getEvents`, `acquireNextFrame`, `waitForFences`, `recordAndSubmit`, `present`, `deviceWaitIdle`, `compile`, `update` and `handleEvents`.
- Viewer collaborators: `assignRecordAndSubmitTaskAndPresentation`, `addRecordAndSubmitTaskAndPresentation`, update operations, animation and compile managers, instrumentation and `updateViewer`.
- Clock time, the `double` simulation time and the `UseTimeSinceStartPoint` sentinel, which are floating point. A frame stamp keeps only its frame count.
- App.Viewer.AdvanceToNextFrame: polling events and the per-window acquisition of the next swapchain image are not modelled. So an active viewer always advances here.
- App.Viewer.Active: `active()` is modelled as "not closed". The per-window validity check is left out, because `Window` is not part of this model.
- Commands.CopyAndReleaseBuffer.Copy: what `copy` does when no staging pool is set, or when the pool has no buffer, is not known. The model treats both as a no-op.
- App.Viewer.AddEventHandlers: passing the viewer's own handler list (`addEventHandlers(getEventHandlers())`) makes `std::vector::insert` undefined behaviour in C++. The model instead doubles the list, because handler lists are values here and cannot alias.
- Entries behind one that is not yet due: after `retainForFrameCount` is lowered, or after a stamp wraps, stamps can be out of order. `ReleaseDue` then keeps a due entry that sits behind one not yet due. The model states this and does not claim such an entry is released.
- `_firstFrame`: the model keeps its initial value. What later clears it is in `Viewer.cpp`, which is not part of this model.
