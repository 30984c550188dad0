/** The lifecycle slice of the viewer: closing, advancing from frame to frame,
    and the lists of windows and event handlers it keeps. */
module App {
  import opened Core

  /** A window, known only by an opaque id. */
  type WindowId = nat

  /** An event handler (a visitor), known only by an opaque id. */
  type HandlerId = nat

  /** The frame stamp made for the next frame: the first one is frame 0, every
      later one numbers the frame after the previous stamp's, in 64-bit
      unsigned arithmetic. */
  function NextFrameStamp(previous: Option<FrameStamp>): (next: FrameStamp)
    ensures previous.None? ==> next.frameCount == 0
    ensures previous.Some? ==>
              (next.frameCount > previous.value.frameCount <==> previous.value.frameCount < UINT64_LIMIT - 1)
    ensures previous.Some? && previous.value.frameCount < UINT64_LIMIT - 1 ==>
              next.frameCount == previous.value.frameCount + 1
    ensures previous.Some? ==> next.frameCount == (previous.value.frameCount + 1) % UINT64_LIMIT
  {
    match previous
    case None => FrameStamp(0)
    case Some(stamp) => FrameStamp(AddU64(stamp.frameCount, 1))
  }

  /** The frame stamp after `frames` successful advances of a new viewer. */
  function StampAfter(frames: nat): Option<FrameStamp>
  {
    if frames == 0 then None else Some(NextFrameStamp(StampAfter(frames - 1)))
  }

  /** The n-th advance produces frame n - 1: frames are numbered 0, 1, 2, ...
      with no gap and no repeat, as long as the count fits in 64 bits. */
  lemma {:induction false} StampAfterCountsFrames(frames: nat)
    requires 0 < frames <= UINT64_LIMIT
    ensures StampAfter(frames) == Some(FrameStamp(frames - 1))
  {
    if frames > 1 {
      StampAfterCountsFrames(frames - 1);
    }
  }

  /** The windows left after erasing the first occurrence of `w`, the others
      in their order. */
  function RemoveFirst(ws: seq<WindowId>, w: WindowId): seq<WindowId>
  {
    if ws == [] then []
    else if ws[0] == w then ws[1..]
    else [ws[0]] + RemoveFirst(ws[1..], w)
  }

  /** Erasing at the index of the first occurrence is RemoveFirst. */
  lemma {:induction false} RemoveFirstAt(ws: seq<WindowId>, w: WindowId, i: nat)
    requires i < |ws| && ws[i] == w
    requires forall j :: 0 <= j < i ==> ws[j] != w
    ensures RemoveFirst(ws, w) == ws[..i] + ws[i + 1..]
  {
    if i > 0 {
      RemoveFirstAt(ws[1..], w, i - 1);
      assert ws[..i] == [ws[0]] + ws[1..][..i - 1];
      assert ws[i + 1..] == ws[1..][i..];
    }
  }

  /** Removing a window that is not there changes nothing. */
  lemma {:induction false} RemoveFirstAbsent(ws: seq<WindowId>, w: WindowId)
    requires w !in ws
    ensures RemoveFirst(ws, w) == ws
  {
    if ws != [] {
      RemoveFirstAbsent(ws[1..], w);
      assert ws == [ws[0]] + ws[1..];
    }
  }

  /** Removal takes away exactly one occurrence of the window, if there is
      one, and no other window. */
  lemma {:induction false} RemoveFirstRemovesOne(ws: seq<WindowId>, w: WindowId)
    ensures multiset(RemoveFirst(ws, w)) == multiset(ws) - multiset{w}
  {
    if ws != [] {
      var rest := ws[1..];
      assert ws == [ws[0]] + rest;
      assert multiset(ws) == multiset{ws[0]} + multiset(rest);
      if ws[0] != w {
        RemoveFirstRemovesOne(rest, w);
        assert RemoveFirst(ws, w) == [ws[0]] + RemoveFirst(rest, w);
        assert multiset(RemoveFirst(ws, w)) == multiset{ws[0]} + (multiset(rest) - multiset{w});
      }
    }
  }

  /** A window added once is gone after it is removed. */
  lemma RemoveFirstOfSingle(ws: seq<WindowId>, w: WindowId)
    requires multiset(ws)[w] <= 1
    ensures w !in RemoveFirst(ws, w)
  {
    RemoveFirstRemovesOne(ws, w);
    assert multiset(RemoveFirst(ws, w))[w] == 0;
  }

  /** The viewer. Threads, devices, presentation, event polling, compilation
      and clock times are left out. */
  class Viewer {
    /** Set by close(); nothing shown clears it. */
    var closed: bool
    var windows: seq<WindowId>
    var firstFrame: bool
    /** The stamp of the current frame; none before the first advance. */
    var frameStamp: Option<FrameStamp>
    var eventHandlers: seq<HandlerId>
    var threading: bool

    /** A new viewer is open, has no windows, no handlers and no frame yet,
        is in its first frame and is not threading. */
    constructor ()
      ensures !closed && firstFrame && !threading
      ensures windows == [] && eventHandlers == [] && frameStamp == None
    {
      closed := false;
      windows := [];
      firstFrame := true;
      frameStamp := None;
      eventHandlers := [];
      threading := false;
    }

    /** Whether the viewer may go on to another frame: exactly while it has
        not been closed. */
    predicate Active(): (r: bool)
      reads this
      ensures r <==> !closed
    {
      !closed
    }

    /** Schedules closure: the viewer is inactive from now on. */
    method Close()
      modifies this`closed
      ensures !Active()
    {
      closed := true;
    }

    /** Goes on to the next frame if the viewer is active, replacing the frame
        stamp with the next frame's; an inactive viewer reports false and
        keeps its frame. Closure is never undone. */
    method AdvanceToNextFrame() returns (advanced: bool)
      modifies this`frameStamp
      ensures advanced <==> Active()
      ensures advanced ==> frameStamp == Some(NextFrameStamp(old(frameStamp)))
      ensures !advanced ==> frameStamp == old(frameStamp)
    {
      if !Active() {
        return false;
      }
      frameStamp := Some(NextFrameStamp(frameStamp));
      advanced := true;
    }

    /** Appends one event handler after the existing ones. */
    method AddEventHandler(handler: HandlerId)
      modifies this`eventHandlers
      ensures eventHandlers == old(eventHandlers) + [handler]
    {
      eventHandlers := eventHandlers + [handler];
    }

    /** Appends a list of event handlers, in order, after the existing ones. */
    method AddEventHandlers(handlers: seq<HandlerId>)
      modifies this`eventHandlers
      ensures eventHandlers == old(eventHandlers) + handlers
      ensures |eventHandlers| == |old(eventHandlers)| + |handlers|
    {
      eventHandlers := eventHandlers + handlers;
    }

    /** Appends a window at the end of the window list. */
    method AddWindow(window: WindowId)
      modifies this`windows
      ensures windows == old(windows) + [window]
      ensures window in windows
    {
      windows := windows + [window];
    }

    /** The index of the first occurrence of `window`, or the length of the
        list when it is not there (a search from the front). */
    method FindWindow(window: WindowId) returns (index: nat)
      ensures index <= |windows|
      ensures forall j :: 0 <= j < index ==> windows[j] != window
      ensures index < |windows| ==> windows[index] == window
      ensures index == |windows| <==> window !in windows
    {
      index := 0;
      while index < |windows| && windows[index] != window
        invariant index <= |windows|
        invariant forall j :: 0 <= j < index ==> windows[j] != window
      {
        index := index + 1;
      }
    }

    /** Erases the first occurrence of `window`, keeping the other windows in
        order; a window that is not there leaves the list unchanged. */
    method RemoveWindow(window: WindowId)
      modifies this`windows
      ensures windows == RemoveFirst(old(windows), window)
      ensures multiset(windows) == multiset(old(windows)) - multiset{window}
      ensures multiset(old(windows))[window] <= 1 ==> window !in windows
    {
      var index := FindWindow(window);
      if index < |windows| {
        RemoveFirstAt(windows, window, index);
        windows := windows[..index] + windows[index + 1..];
      } else {
        RemoveFirstAbsent(windows, window);
      }
      RemoveFirstRemovesOne(old(windows), window);
      if multiset(old(windows))[window] <= 1 {
        RemoveFirstOfSingle(old(windows), window);
      }
    }
  }

  /** The closing scenario: a viewer advances while open; once closed, every
      later advance reports false and the frame stays where it was. */
  method ClosingScenario(w: WindowId)
  {
    var viewer := new Viewer();
    viewer.AddWindow(w);
    var advanced := viewer.AdvanceToNextFrame();
    assert advanced && viewer.frameStamp == Some(FrameStamp(0));
    advanced := viewer.AdvanceToNextFrame();
    assert advanced && viewer.frameStamp == Some(FrameStamp(1));
    viewer.Close();
    advanced := viewer.AdvanceToNextFrame();
    assert !advanced && viewer.frameStamp == Some(FrameStamp(1));
    viewer.AddEventHandler(7);
    advanced := viewer.AdvanceToNextFrame();
    assert !advanced && !viewer.Active();
    viewer.RemoveWindow(w);
    assert viewer.windows == [];
  }
}
