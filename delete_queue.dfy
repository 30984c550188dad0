/** The frame-delayed deletion queue: objects handed to it are tagged with the
    frame from which they may be released and kept, in insertion order, until
    that frame has been reached. */
module Threading {
  import opened Core

  /** An object handed over for deletion, known only by an opaque id. */
  type ObjectId = nat

  /** One queued deletion: the frame from which the object may be released
      (vsg's ObectToDelete::frameCount) and the object itself. */
  datatype ObjectToDelete = ObjectToDelete(frameCount: uint64, obj: ObjectId)

  /** The entries a batch add appends: one per object, in the collection's
      order, every one carrying the same tag. */
  function Tagged(objects: seq<ObjectId>, tag: uint64): (r: seq<ObjectToDelete>)
    ensures |r| == |objects|
    ensures forall i :: 0 <= i < |r| ==> r[i] == ObjectToDelete(tag, objects[i])
  {
    if objects == [] then [] else [ObjectToDelete(tag, objects[0])] + Tagged(objects[1..], tag)
  }

  /** Tags never decrease from the front of the list to its back. */
  ghost predicate TagsOrdered(entries: seq<ObjectToDelete>)
  {
    forall i, j :: 0 <= i < j < |entries| ==> entries[i].frameCount <= entries[j].frameCount
  }

  /** The entries whose release frame has been reached at frame `now`, in list order. */
  function Due(entries: seq<ObjectToDelete>, now: uint64): (r: seq<ObjectToDelete>)
    ensures forall e :: e in r <==> e in entries && e.frameCount <= now
    ensures |r| <= |entries|
  {
    if entries == [] then []
    else if entries[0].frameCount <= now then [entries[0]] + Due(entries[1..], now)
    else Due(entries[1..], now)
  }

  /** The entries that must still be kept at frame `now`, in list order. */
  function Retained(entries: seq<ObjectToDelete>, now: uint64): (r: seq<ObjectToDelete>)
    ensures forall e :: e in r <==> e in entries && now < e.frameCount
    ensures |r| <= |entries|
  {
    if entries == [] then []
    else if now < entries[0].frameCount then [entries[0]] + Retained(entries[1..], now)
    else Retained(entries[1..], now)
  }

  /** Every entry is either due or retained, never both and never neither. */
  lemma {:induction false} DueAndRetainedPartition(entries: seq<ObjectToDelete>, now: uint64)
    ensures |Due(entries, now)| + |Retained(entries, now)| == |entries|
    ensures multiset(Due(entries, now)) + multiset(Retained(entries, now)) == multiset(entries)
  {
    if entries != [] {
      DueAndRetainedPartition(entries[1..], now);
      assert entries == [entries[0]] + entries[1..];
    }
  }

  /** When no entry is due, nothing is released and everything is kept. */
  lemma {:induction false} NoneDue(entries: seq<ObjectToDelete>, now: uint64)
    requires forall i :: 0 <= i < |entries| ==> now < entries[i].frameCount
    ensures Due(entries, now) == []
    ensures Retained(entries, now) == entries
  {
    if entries != [] {
      NoneDue(entries[1..], now);
      assert entries == [entries[0]] + entries[1..];
    }
  }

  /** On a list whose tags are ordered, the longest due prefix is exactly the
      set of due entries, and what follows it is exactly the retained ones: so
      releasing from the front until the first entry not yet due releases
      everything that is due and nothing that is not. */
  lemma {:induction false} DuePrefixIsDue(entries: seq<ObjectToDelete>, now: uint64, k: nat)
    requires TagsOrdered(entries)
    requires k <= |entries|
    requires forall i :: 0 <= i < k ==> entries[i].frameCount <= now
    requires k < |entries| ==> now < entries[k].frameCount
    ensures entries[..k] == Due(entries, now)
    ensures entries[k..] == Retained(entries, now)
  {
    if entries == [] {
    } else if k == 0 {
      NoneDue(entries, now);
    } else {
      var rest := entries[1..];
      assert TagsOrdered(rest) by {
        forall i, j | 0 <= i < j < |rest| ensures rest[i].frameCount <= rest[j].frameCount {
          assert rest[i] == entries[i + 1] && rest[j] == entries[j + 1];
        }
      }
      DuePrefixIsDue(rest, now, k - 1);
      assert entries[0].frameCount <= now;
      assert Due(entries, now) == [entries[0]] + Due(rest, now);
      assert Retained(entries, now) == Retained(rest, now);
      assert entries[..k] == [entries[0]] + rest[..k - 1];
      assert entries[k..] == rest[k - 1..];
    }
  }

  /** Dropping entries from the front keeps the rest ordered. */
  lemma SuffixKeepsOrder(entries: seq<ObjectToDelete>, k: nat)
    requires TagsOrdered(entries)
    requires k <= |entries|
    ensures TagsOrdered(entries[k..])
  {
    var rest := entries[k..];
    forall i, j | 0 <= i < j < |rest| ensures rest[i].frameCount <= rest[j].frameCount {
      assert rest[i] == entries[i + k] && rest[j] == entries[j + k];
    }
  }

  /** What splitting the list after its longest due prefix gives: the two
      parts make up the list, the first holds only due entries, the second
      starts with one still to be kept and holds nothing new, and on an
      ordered list they are exactly the due and the retained entries. */
  lemma SplitAtDuePrefix(entries: seq<ObjectToDelete>, now: uint64, k: nat)
    requires k <= |entries|
    requires forall i :: 0 <= i < k ==> entries[i].frameCount <= now
    requires k < |entries| ==> now < entries[k].frameCount
    ensures entries == entries[..k] + entries[k..]
    ensures forall e :: e in entries[..k] ==> e.frameCount <= now
    ensures forall e :: e in entries[k..] ==> e in entries
    ensures TagsOrdered(entries) ==>
              entries[..k] == Due(entries, now) && entries[k..] == Retained(entries, now) &&
              TagsOrdered(entries[k..])
  {
    if TagsOrdered(entries) {
      DuePrefixIsDue(entries, now, k);
      SuffixKeepsOrder(entries, k);
    }
    assert forall e :: e in entries[k..] ==> e in entries by {
      forall e | e in entries[k..] ensures e in entries {
        var i :| 0 <= i < |entries[k..]| && entries[k..][i] == e;
        assert entries[i + k] == e;
      }
    }
  }

  /** Appending a batch whose tag is at least every tag already queued keeps
      the tags ordered. */
  lemma {:induction false} AppendKeepsOrder(entries: seq<ObjectToDelete>, objects: seq<ObjectId>, tag: uint64)
    requires TagsOrdered(entries)
    requires forall e :: e in entries ==> e.frameCount <= tag
    ensures TagsOrdered(entries + Tagged(objects, tag))
  {
    var all := entries + Tagged(objects, tag);
    forall i, j | 0 <= i < j < |all| ensures all[i].frameCount <= all[j].frameCount {
      if j < |entries| {
        assert all[i] == entries[i] && all[j] == entries[j];
      } else if i < |entries| {
        assert all[i] == entries[i] && all[i] in entries;
        assert all[j] == Tagged(objects, tag)[j - |entries|];
      } else {
        assert all[i] == Tagged(objects, tag)[i - |entries|];
        assert all[j] == Tagged(objects, tag)[j - |entries|];
      }
    }
  }

  /** The deletion queue. The mutex, the condition variable and the activity
      status of vsg::DeleteQueue are concurrency and are left out: each method is
      one atomic step. */
  class DeleteQueue {
    /** The current frame, as last passed to Advance. */
    var frameCount: uint64
    /** How many frames an object is kept after it was queued. */
    var retainForFrameCount: uint64
    /** The queued deletions, oldest first. */
    var objectsToDelete: seq<ObjectToDelete>

    /** Tags are ordered along the list and none lies beyond the current
        frame plus the retention window: the state that adds at a fixed
        window and a non-decreasing frame count keep. */
    ghost predicate Ordered()
      reads this
    {
      && TagsOrdered(objectsToDelete)
      && forall e :: e in objectsToDelete ==> e.frameCount <= frameCount + retainForFrameCount
    }

    /** A fresh queue is at frame 0, keeps objects for 3 frames and is empty. */
    constructor ()
      ensures frameCount == 0 && retainForFrameCount == 3
      ensures objectsToDelete == []
      ensures Ordered()
    {
      frameCount := 0;
      retainForFrameCount := 3;
      objectsToDelete := [];
    }

    /** Takes the frame number of the new frame stamp as the current frame. */
    method Advance(frameStamp: FrameStamp)
      modifies this`frameCount
      ensures frameCount == frameStamp.frameCount
      ensures old(Ordered()) && old(frameCount) <= frameCount ==> Ordered()
    {
      frameCount := frameStamp.frameCount;
    }

    /** Queues one object, tagged with the current frame plus the retention
        window (in 64-bit unsigned arithmetic), at the back of the list. */
    method Add(obj: ObjectId)
      modifies this`objectsToDelete
      ensures objectsToDelete == old(objectsToDelete) + [ObjectToDelete(AddU64(frameCount, retainForFrameCount), obj)]
      ensures old(Ordered()) && frameCount + retainForFrameCount < UINT64_LIMIT ==> Ordered()
    {
      objectsToDelete := objectsToDelete + [ObjectToDelete(AddU64(frameCount, retainForFrameCount), obj)];
      if old(Ordered()) && frameCount + retainForFrameCount < UINT64_LIMIT {
        AppendKeepsOrder(old(objectsToDelete), [obj], AddU64(frameCount, retainForFrameCount));
      }
    }

    /** Queues every object of a collection, in its order, each tagged with
        the current frame plus the retention window. */
    method AddAll(objects: seq<ObjectId>)
      modifies this`objectsToDelete
      ensures objectsToDelete == old(objectsToDelete) + Tagged(objects, AddU64(frameCount, retainForFrameCount))
      ensures old(Ordered()) && frameCount + retainForFrameCount < UINT64_LIMIT ==> Ordered()
    {
      var tag := AddU64(frameCount, retainForFrameCount);
      var i := 0;
      while i < |objects|
        invariant 0 <= i <= |objects|
        invariant objectsToDelete == old(objectsToDelete) + Tagged(objects[..i], tag)
      {
        assert Tagged(objects[..i + 1], tag) == Tagged(objects[..i], tag) + [ObjectToDelete(tag, objects[i])];
        objectsToDelete := objectsToDelete + [ObjectToDelete(tag, objects[i])];
        i := i + 1;
      }
      assert objects[..i] == objects;
      if old(Ordered()) && frameCount + retainForFrameCount < UINT64_LIMIT {
        AppendKeepsOrder(old(objectsToDelete), objects, tag);
      }
    }

    /** The length of the leading run of entries whose release frame has been
        reached. */
    method CountDue() returns (k: nat)
      ensures k <= |objectsToDelete|
      ensures forall i :: 0 <= i < k ==> objectsToDelete[i].frameCount <= frameCount
      ensures k < |objectsToDelete| ==> frameCount < objectsToDelete[k].frameCount
    {
      k := 0;
      while k < |objectsToDelete| && objectsToDelete[k].frameCount <= frameCount
        invariant k <= |objectsToDelete|
        invariant forall i :: 0 <= i < k ==> objectsToDelete[i].frameCount <= frameCount
      {
        k := k + 1;
      }
    }

    /** Releases the entries whose release frame has been reached, walking
        from the front and stopping at the first entry still to be kept. */
    method ReleaseDue() returns (released: seq<ObjectToDelete>)
      modifies this`objectsToDelete
      ensures old(objectsToDelete) == released + objectsToDelete
      ensures forall e :: e in released ==> e.frameCount <= frameCount
      ensures objectsToDelete != [] ==> frameCount < objectsToDelete[0].frameCount
      ensures TagsOrdered(old(objectsToDelete)) ==>
                released == Due(old(objectsToDelete), frameCount) &&
                objectsToDelete == Retained(old(objectsToDelete), frameCount)
      ensures old(Ordered()) ==> Ordered()
    {
      var k := CountDue();
      SplitAtDuePrefix(objectsToDelete, frameCount, k);
      released := objectsToDelete[..k];
      objectsToDelete := objectsToDelete[k..];
    }

    /** Releases every queued entry, whatever its release frame. */
    method Clear() returns (released: seq<ObjectToDelete>)
      modifies this`objectsToDelete
      ensures released == old(objectsToDelete)
      ensures objectsToDelete == []
      ensures Ordered()
    {
      released := objectsToDelete;
      objectsToDelete := [];
    }
  }

  /** With the default window of 3, an object queued at frame 10 is kept
      through frame 12 and released at frame 13. */
  method RetentionScenario(x: ObjectId)
  {
    var queue := new DeleteQueue();
    queue.Advance(FrameStamp(10));
    queue.Add(x);
    queue.Advance(FrameStamp(12));
    var released := queue.ReleaseDue();
    assert released == [] && queue.objectsToDelete == [ObjectToDelete(13, x)];
    queue.Advance(FrameStamp(13));
    released := queue.ReleaseDue();
    assert released == [ObjectToDelete(13, x)] && queue.objectsToDelete == [];
  }
}
