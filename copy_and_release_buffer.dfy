/** The staged buffer-transfer command: copy requests wait in a pending list,
    are recorded into a command buffer, and their staging sources are released
    two records later, once the device can no longer be reading them. */
module Commands {
  import opened Core

  /** A buffer (a vsg::BufferInfo), known only by an opaque id. */
  type BufferId = nat

  /** A pool of staging memory (a vsg::MemoryBufferPools), by id. */
  type PoolId = nat

  /** One copy request: from a (staging) source buffer into a destination. */
  datatype CopyData = CopyData(source: BufferId, destination: BufferId)

  /** Where a request is: in one of the three lists, or already dropped with
      its source released. */
  datatype Stage = Pending | Completed | ReadyToClear | Released

  /** How far along the pipeline a stage lies. */
  function Rank(s: Stage): nat
  {
    match s
    case Pending => 0
    case Completed => 1
    case ReadyToClear => 2
    case Released => 3
  }

  /** The stage a request reaches through one record: one stage further on,
      except that a released request stays released. */
  function Next(s: Stage): (t: Stage)
    ensures s != Released ==> Rank(t) == Rank(s) + 1
    ensures s == Released ==> t == Released
  {
    match s
    case Pending => Completed
    case Completed => ReadyToClear
    case ReadyToClear => Released
    case Released => Released
  }

  /** The stage a request in stage `s` reaches after `records` more records. */
  function After(s: Stage, records: nat): Stage
  {
    if records == 0 then s else Next(After(s, records - 1))
  }

  /** Requests only move forward: later never means an earlier stage. */
  lemma {:induction false} AfterIsMonotone(s: Stage, m: nat, n: nat)
    requires m <= n
    ensures Rank(After(s, m)) <= Rank(After(s, n))
  {
    if m < n {
      AfterIsMonotone(s, m, n - 1);
    }
  }

  /** A request is released after exactly as many records as it has stages
      left to go, three at most from pending; not one record sooner. */
  lemma {:induction false} ReleasedAfterRemainingStages(s: Stage, n: nat)
    ensures After(s, n) == Released <==> n >= 3 - Rank(s)
    ensures After(s, n) != Released ==> Rank(After(s, n)) == Rank(s) + n
  {
    if n > 0 {
      ReleasedAfterRemainingStages(s, n - 1);
    }
  }

  /** A request is pending only until the first record: it is emitted by
      that record and by no later one. */
  lemma {:induction false} PendingOnlyUntilFirstRecord(n: nat)
    ensures After(Pending, n) == Pending <==> n == 0
  {
    ReleasedAfterRemainingStages(Pending, n);
  }

  /** The stage of the request at position `i` of the order in which requests
      were added, given how many have been released and the lengths of the
      ready-to-clear and completed lists (the rest are pending). */
  function StageAt(i: nat, released: nat, ready: nat, completed: nat): Stage
  {
    if i < released then Released
    else if i < released + ready then ReadyToClear
    else if i < released + ready + completed then Completed
    else Pending
  }

  /** One record shifts the boundaries between the stages by one list: the
      stage each request then has is the next stage after the one it had. */
  lemma RecordShiftsStage(i: nat, released: nat, ready: nat, completed: nat, pending: nat)
    requires i < released + ready + completed + pending
    ensures StageAt(i, released + ready, completed, pending) == Next(StageAt(i, released, ready, completed))
  {
  }

  /** The lists partition the requests in the order they were added, and the
      stage of each request names the list that holds it, at the place that
      its position says. */
  lemma StageLocatesRequest(history: seq<CopyData>, released: nat, readyToClear: seq<CopyData>,
                            completed: seq<CopyData>, pending: seq<CopyData>, i: nat)
    requires released <= |history|
    requires history[released..] == readyToClear + completed + pending
    requires i < |history|
    ensures StageAt(i, released, |readyToClear|, |completed|) == ReadyToClear ==>
              history[i] == readyToClear[i - released]
    ensures StageAt(i, released, |readyToClear|, |completed|) == Completed ==>
              history[i] == completed[i - released - |readyToClear|]
    ensures StageAt(i, released, |readyToClear|, |completed|) == Pending ==>
              history[i] == pending[i - released - |readyToClear| - |completed|]
  {
    if released <= i {
      assert history[i] == history[released..][i - released];
    }
  }

  /** The sources of a list of requests, in order: the staging buffers that
      releasing those requests gives back. */
  function Sources(requests: seq<CopyData>): (r: seq<BufferId>)
    ensures |r| == |requests|
    ensures forall j :: 0 <= j < |r| ==> r[j] == requests[j].source
  {
    if requests == [] then [] else [requests[0].source] + Sources(requests[1..])
  }

  /** The transfer command. The mutex of vsg::CopyAndReleaseBuffer is
      concurrency and is left out: each method is one atomic step. */
  class CopyAndReleaseBuffer {
    /** Where copy() takes its staging buffers from; absent is allowed. */
    var stagingMemoryBufferPools: Option<PoolId>
    /** Requests not yet recorded. */
    var pending: seq<CopyData>
    /** Requests recorded by the last record. */
    var completed: seq<CopyData>
    /** Requests recorded two records ago, whose sources the next record releases. */
    var readyToClear: seq<CopyData>

    /** Every request ever added, oldest first; a request's identity is its
        position here, so two requests with equal buffers stay distinct. */
    ghost var history: seq<CopyData>
    /** How many of the oldest requests have been dropped and released. */
    ghost var releasedCount: nat

    /** The lists hold, in order, exactly the requests not yet released. */
    ghost predicate Valid()
      reads this
    {
      && releasedCount + |readyToClear| + |completed| + |pending| == |history|
      && history[releasedCount..] == readyToClear + completed + pending
    }

    /** The stage of the request added at position `i`. */
    ghost function StageOf(i: nat): Stage
      reads this
      requires i < |history|
    {
      StageAt(i, releasedCount, |readyToClear|, |completed|)
    }

    /** A new command has three empty lists; the staging pool is optional. */
    constructor (optionalStagingMemoryBufferPools: Option<PoolId>)
      ensures Valid()
      ensures stagingMemoryBufferPools == optionalStagingMemoryBufferPools
      ensures pending == [] && completed == [] && readyToClear == []
      ensures history == []
    {
      stagingMemoryBufferPools := optionalStagingMemoryBufferPools;
      pending, completed, readyToClear := [], [], [];
      history, releasedCount := [], 0;
    }

    /** Registers one copy from `src` into `dest` as pending; the other two
        lists and every earlier request's stage are untouched. */
    method Add(src: BufferId, dest: BufferId)
      requires Valid()
      modifies this`pending, this`history
      ensures Valid()
      ensures pending == old(pending) + [CopyData(src, dest)]
      ensures history == old(history) + [CopyData(src, dest)]
      ensures forall i :: 0 <= i < |old(history)| ==> StageOf(i) == old(StageOf(i))
      ensures StageOf(|history| - 1) == Pending
    {
      pending := pending + [CopyData(src, dest)];
      history := history + [CopyData(src, dest)];
      assert history[releasedCount..] == old(history[releasedCount..]) + [CopyData(src, dest)];
    }

    /** Copies data to `dest` through a staging buffer: `reserved` is the
        buffer the staging pool hands out for the data (None when it has
        none). The request is queued only when there is a pool, the data is
        not empty and a staging buffer was obtained; otherwise nothing changes. */
    method Copy(dataSize: nat, dest: BufferId, reserved: Option<BufferId>) returns (queued: bool)
      requires Valid()
      modifies this`pending, this`history
      ensures Valid()
      ensures queued <==> stagingMemoryBufferPools.Some? && dataSize > 0 && reserved.Some?
      ensures queued ==> pending == old(pending) + [CopyData(reserved.value, dest)]
      ensures queued ==> history == old(history) + [CopyData(reserved.value, dest)]
      ensures !queued ==> pending == old(pending) && history == old(history)
      ensures forall i :: 0 <= i < |old(history)| ==> StageOf(i) == old(StageOf(i))
    {
      queued := stagingMemoryBufferPools.Some? && dataSize > 0 && reserved.Some?;
      if queued {
        Add(reserved.value, dest);
      }
    }

    /** Records the pending copies into a command buffer and moves every list
        one stage on: the ready-to-clear requests are dropped and their
        sources released, the completed ones become ready to clear, and the
        pending ones, emitted once each in order, become completed. */
    method Record() returns (emitted: seq<CopyData>, releasedSources: seq<BufferId>)
      requires Valid()
      modifies this`pending, this`completed, this`readyToClear, this`releasedCount
      ensures Valid()
      ensures emitted == old(pending)
      ensures releasedSources == Sources(old(readyToClear))
      ensures pending == [] && completed == old(pending) && readyToClear == old(completed)
      ensures history == old(history)
      ensures forall i :: 0 <= i < |history| ==> StageOf(i) == Next(old(StageOf(i)))
      ensures forall i :: 0 <= i < |history| && old(StageOf(i)) != Released && StageOf(i) == Released ==>
                old(StageOf(i)) == ReadyToClear
    {
      emitted := pending;
      releasedSources := Sources(readyToClear);
      releasedCount := releasedCount + |readyToClear|;
      readyToClear, completed, pending := completed, pending, [];
      assert history[releasedCount..] == old(history[releasedCount..])[|old(readyToClear)|..];
      forall i | 0 <= i < |history|
        ensures StageOf(i) == Next(old(StageOf(i)))
      {
        RecordShiftsStage(i, old(releasedCount), |old(readyToClear)|, |old(completed)|, |old(pending)|);
      }
    }
  }

  /** Records `n` times in a row (once per frame): every request then has
      the stage that `n` steps of Next give from the stage it had, so the
      lemmas about After hold of the lists themselves. */
  method RecordRepeatedly(buffer: CopyAndReleaseBuffer, n: nat)
    requires buffer.Valid()
    modifies buffer`pending, buffer`completed, buffer`readyToClear, buffer`releasedCount
    ensures buffer.Valid()
    ensures buffer.history == old(buffer.history)
    ensures forall i :: 0 <= i < |buffer.history| ==> buffer.StageOf(i) == After(old(buffer.StageOf(i)), n)
  {
    var k := 0;
    while k < n
      invariant k <= n
      invariant buffer.Valid()
      invariant buffer.history == old(buffer.history)
      invariant forall i :: 0 <= i < |buffer.history| ==> buffer.StageOf(i) == After(old(buffer.StageOf(i)), k)
    {
      var _, _ := buffer.Record();
      k := k + 1;
    }
  }

  /** Two requests added before one record are both emitted by it, both
      become ready to clear at the next, both sources are released at the
      third, and neither is emitted twice. */
  method TransferScenario(a: CopyData, b: CopyData)
  {
    var buffer := new CopyAndReleaseBuffer(None);
    buffer.Add(a.source, a.destination);
    buffer.Add(b.source, b.destination);
    var emitted, released := buffer.Record();
    assert emitted == [a, b] && released == [];
    emitted, released := buffer.Record();
    assert emitted == [] && released == [] && buffer.readyToClear == [a, b];
    emitted, released := buffer.Record();
    assert emitted == [] && released == [a.source, b.source];
    assert buffer.StageOf(0) == Released && buffer.StageOf(1) == Released;
  }
}
