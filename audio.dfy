/** The ring-buffer sample queue of audio.cc.

    A producer appends playback items at `tail` (audio_push_sample) and the
    PortAudio callback (sgl_PA_Callback) drains the item at `head`, one stereo
    frame at a time. The module first gives the behaviour as functions on a
    snapshot of the queue (QueueState), proves what the source promises about
    them, and then gives the class AudioQueue whose methods update the item
    array in place and are proved to agree with those functions.

    Two defects of the source are kept, not repaired:
    - `tail + 1 % k_max_samples_queued` parses as `tail + (1 % 1024)`, so
      `tail` only ever grows and never wraps;
    - the NEXT_ELEM case of the end-of-item switch has no `break`, so it runs
      on into the REPEAT case's `qitem->playback_position = 0`; when the
      retired item was the last one, `qitem` is NULL there (outcome NullWrite). */
module Audio {
  import opened Samples

  /** ItemEndBehavior: what the callback does when an item's last frame has played. */
  datatype EndBehavior = NextElem | Repeat

  /** SampleQueueItem. `position` is playback_position, counted in shorts (two
      per stereo frame); `numSamples` is num_samples, counted in frames. */
  datatype Item = Item(samples: seq<Int16>, position: int, numSamples: int, endBehavior: EndBehavior)

  /** The buffer holds exactly numSamples interleaved stereo frames. */
  predicate Sized(it: Item)
  {
    |it.samples| == 2 * it.numSamples
  }

  /** An item the callback can take a frame from: a sized buffer that is
      empty, or whose cursor sits on a frame boundary before its end. */
  predicate Playable(it: Item)
  {
    && Sized(it)
    && (it.numSamples == 0 || (0 <= it.position < |it.samples| && it.position % 2 == 0))
  }

  /** A snapshot of AudioQueue: the item slots, head and tail. */
  datatype QueueState = QueueState(items: seq<Item>, head: int, tail: int)

  /** The invariant the two operations keep: 1024 slots all holding sized
      buffers, `head` a slot index, `tail` never behind `head` and at most
      1024, and the item at `head` playable whenever the queue is not empty.
      The cursors of the other items do not matter: an item becomes the head
      item only by being pushed at cursor 0 or through the fall-through that
      sets its cursor to 0. */
  predicate Consistent(s: QueueState)
  {
    && |s.items| == MAX_SAMPLES_QUEUED
    && 0 <= s.head < MAX_SAMPLES_QUEUED
    && s.head <= s.tail <= MAX_SAMPLES_QUEUED
    && (forall k :: 0 <= k < |s.items| ==> Sized(s.items[k]))
    && (s.head != s.tail ==> Playable(s.items[s.head]))
  }

  /** What a frame needs of the queue when the queue is not empty: a slot
      index at `head` holding a playable item. */
  predicate HeadPlayable(s: QueueState)
  {
    && |s.items| == MAX_SAMPLES_QUEUED
    && 0 <= s.head < MAX_SAMPLES_QUEUED
    && s.head != s.tail
    && Playable(s.items[s.head])
  }

  /** A non-empty queue whose head item is sized, has frames and a cursor
      that is not negative; the lemmas that play a known number of frames
      of it need nothing more. */
  predicate HeadHasFrames(s: QueueState)
  {
    && |s.items| == MAX_SAMPLES_QUEUED
    && 0 <= s.head < MAX_SAMPLES_QUEUED
    && s.head != s.tail
    && Sized(s.items[s.head])
    && s.items[s.head].numSamples > 0
    && 0 <= s.items[s.head].position
  }

  /** The items still to be played, in playing order. */
  function Pending(s: QueueState): (r: seq<Item>)
    requires 0 <= s.head <= s.tail <= |s.items|
  {
    s.items[s.head..s.tail]
  }

  // ---------------------------------------------------------------------------
  // audio_push_sample

  /** The number of items audio_push_sample appends for a given n_loops. */
  function PushCount(nLoops: int): (r: nat)
  {
    if nLoops == -1 then 1 else if nLoops < 0 then 0 else nLoops
  }

  /** The items audio_push_sample appends, in order. */
  function Pushed(samples: seq<Int16>, numSamples: int, nLoops: int): (r: seq<Item>)
    ensures |r| == PushCount(nLoops)
  {
    if nLoops == -1 then [Item(samples, 0, numSamples, Repeat)]
    else seq(PushCount(nLoops), _ => Item(samples, 0, numSamples, NextElem))
  }

  /** The add_elem lambda: store the item at `tail`, then `tail + 1 % k`,
      which is `tail + 1`. */
  function AddItem(s: QueueState, it: Item): (r: QueueState)
    requires 0 <= s.tail < |s.items|
  {
    s.(items := s.items[s.tail := it], tail := s.tail + 1 % MAX_SAMPLES_QUEUED)
  }

  /** The queue after audio_push_sample(samples, numSamples, nLoops). */
  function Push(s: QueueState, samples: seq<Int16>, numSamples: int, nLoops: int): (r: QueueState)
    requires 0 <= s.tail && s.tail + PushCount(nLoops) <= |s.items|
  {
    var added := Pushed(samples, numSamples, nLoops);
    s.(items := s.items[..s.tail] + added + s.items[s.tail + |added|..], tail := s.tail + |added|)
  }

  /** The `for` loop of audio_push_sample after i iterations: i calls of
      add_elem with a NEXT_ELEM item, each one slot further on. */
  function PushLoop(s: QueueState, samples: seq<Int16>, numSamples: int, i: nat): (r: QueueState)
    requires 0 <= s.tail && s.tail + i <= |s.items|
    ensures |r.items| == |s.items| && r.head == s.head && r.tail == s.tail + i
  {
    if i == 0 then s
    else AddItem(PushLoop(s, samples, numSamples, i - 1), Item(samples, 0, numSamples, NextElem))
  }

  /** What is appended, by n_loops: n one-shot items for n >= 0, one REPEAT
      item for -1, nothing below -1; every appended item starts at position 0. */
  lemma PushedByLoopCount(samples: seq<Int16>, numSamples: int, nLoops: int)
    ensures var r := Pushed(samples, numSamples, nLoops);
      && (forall k :: 0 <= k < |r| ==>
            r[k].position == 0 && r[k].samples == samples && r[k].numSamples == numSamples)
      && (nLoops >= 0 ==> |r| == nLoops && forall k :: 0 <= k < |r| ==> r[k].endBehavior == NextElem)
      && (nLoops == -1 ==> |r| == 1 && r[0].endBehavior == Repeat)
      && (nLoops < -1 ==> r == [])
  {
  }

  /** Pushing appends to the pending items (FIFO) and leaves every slot
      before the old `tail` alone. */
  lemma PushAppends(s: QueueState, samples: seq<Int16>, numSamples: int, nLoops: int)
    requires 0 <= s.head <= s.tail && s.tail + PushCount(nLoops) <= |s.items|
    ensures var r := Push(s, samples, numSamples, nLoops);
      && Pending(r) == Pending(s) + Pushed(samples, numSamples, nLoops)
      && r.items[..s.tail] == s.items[..s.tail]
  {
    var r := Push(s, samples, numSamples, nLoops);
    assert r.items[s.tail..r.tail] == Pushed(samples, numSamples, nLoops);
    assert r.items[s.head..r.tail] == r.items[s.head..s.tail] + r.items[s.tail..r.tail];
  }

  /** Pushing buffers of numSamples frames keeps the invariant, never moves
      `head`, and moves `tail` on by the number of items added, with no
      wrap-around. */
  lemma PushKeepsConsistent(s: QueueState, samples: seq<Int16>, numSamples: int, nLoops: int)
    requires Consistent(s) && |samples| == 2 * numSamples
    requires s.tail + PushCount(nLoops) <= MAX_SAMPLES_QUEUED
    ensures var r := Push(s, samples, numSamples, nLoops);
      && Consistent(r)
      && r.head == s.head
      && r.tail == s.tail + PushCount(nLoops)
  {
    var added := Pushed(samples, numSamples, nLoops);
    var r := Push(s, samples, numSamples, nLoops);
    forall k | 0 <= k < |r.items|
      ensures Sized(r.items[k])
    {
      if s.tail <= k < r.tail {
        assert r.items[k] == added[k - s.tail];
      } else {
        assert r.items[k] == s.items[k];
      }
    }
    if s.head == s.tail && r.head != r.tail {
      assert r.items[r.head] == added[0];
    }
  }

  /** Pushing i + 1 one-shot items is pushing i and then one more. */
  lemma PushStep(s: QueueState, samples: seq<Int16>, numSamples: int, i: nat)
    requires 0 <= s.tail && s.tail + i + 1 <= |s.items|
    ensures Push(s, samples, numSamples, i + 1)
         == AddItem(Push(s, samples, numSamples, i), Item(samples, 0, numSamples, NextElem))
  {
    var a := Push(s, samples, numSamples, i + 1);
    var b := AddItem(Push(s, samples, numSamples, i), Item(samples, 0, numSamples, NextElem));
    assert |a.items| == |b.items|;
    forall k | 0 <= k < |a.items|
      ensures a.items[k] == b.items[k]
    {
    }
  }

  /** The loop of add_elem calls builds exactly the queue the reference
      definition describes: i one-shot items written at the old `tail`. */
  lemma {:induction false} PushLoopMatchesPush(s: QueueState, samples: seq<Int16>, numSamples: int, i: nat)
    requires 0 <= s.tail && s.tail + i <= |s.items|
    ensures PushLoop(s, samples, numSamples, i) == Push(s, samples, numSamples, i)
  {
    if i == 0 {
      PushNothing(s, samples, numSamples, 0);
    } else {
      PushLoopMatchesPush(s, samples, numSamples, i - 1);
      PushStep(s, samples, numSamples, i - 1);
    }
  }

  /** Pushing with n_loops == 0 or below -1 changes nothing. */
  lemma PushNothing(s: QueueState, samples: seq<Int16>, numSamples: int, nLoops: int)
    requires 0 <= s.tail <= |s.items| && PushCount(nLoops) == 0
    ensures Push(s, samples, numSamples, nLoops) == s
  {
    assert s.items[..s.tail] + [] + s.items[s.tail..] == s.items;
  }

  /** Pushing with n_loops == -1 is one add_elem of a REPEAT item. */
  lemma PushForever(s: QueueState, samples: seq<Int16>, numSamples: int)
    requires 0 <= s.tail < |s.items|
    ensures Push(s, samples, numSamples, -1) == AddItem(s, Item(samples, 0, numSamples, Repeat))
  {
    var a := Push(s, samples, numSamples, -1);
    var b := AddItem(s, Item(samples, 0, numSamples, Repeat));
    assert |a.items| == |b.items|;
    forall k | 0 <= k < |a.items|
      ensures a.items[k] == b.items[k]
    {
    }
  }

  // ---------------------------------------------------------------------------
  // sgl_PA_Callback

  /** One iteration of the frame loop when the queue was not empty on entry;
      `qitem` then always points at the head item. The outcome Returned(0)
      means the frame completed; reads outside the slots or the head item's
      buffer and the failing `assert` are faults that end the callback. */
  function Tick(s: QueueState): (t: Result<QueueState>)
  {
    if !(|s.items| == MAX_SAMPLES_QUEUED && 0 <= s.head < MAX_SAMPLES_QUEUED) then
      Result([], s, ReadPastEnd)
    else
      var it := s.items[s.head];
      if it.numSamples == 0 then
        Result([0.0, 0.0], s, Returned(0))
      else if !(0 <= it.position && it.position + 1 < |it.samples|) then
        Result([], s, ReadPastEnd)
      else
        var pos := it.position + 2;
        var out := [Decode(it.samples[it.position]), Decode(it.samples[it.position + 1])];
        var items := s.items[s.head := it.(position := pos)];
        if 2 * it.numSamples < pos then
          Result(out, s.(items := items), AssertFailed)
        else if pos < 2 * it.numSamples then
          Result(out, s.(items := items), Returned(0))
        else if it.endBehavior == Repeat then
          Result(out, s.(items := s.items[s.head := it.(position := 0)]), Returned(0))
        else
          var head := (s.head + 1) % MAX_SAMPLES_QUEUED;
          if head == s.tail then
            Result(out, QueueState(items, head, s.tail), NullWrite)
          else
            Result(out, QueueState(items[head := items[head].(position := 0)], head, s.tail), Returned(0))
  }

  /** The first n frames of the frame loop of a non-empty queue. */
  function Play(s: QueueState, n: nat): (r: Result<QueueState>)
  {
    Run(Tick, s, n)
  }

  /** Frame n + 1 is one more iteration from where the first n left the
      queue. */
  lemma PlayStep(s: QueueState, n: nat, q: QueueState)
    requires Play(s, n).state == q && Play(s, n).outcome == Returned(0)
    ensures Play(s, n + 1) == Result(Play(s, n).written + Tick(q).written, Tick(q).state, Tick(q).outcome)
  {
    RunStep(Tick, s, n);
  }

  /** Nothing happens after a fault: asking for more frames gives the same
      result. */
  lemma PlayFaultIsFinal(s: QueueState, m: nat, n: nat)
    requires m <= n && Play(s, m).outcome != Returned(0)
    ensures Play(s, n) == Play(s, m)
  {
    RunFaultIsFinal(Tick, s, m, n);
  }

  /** Playing a + b frames is playing a frames and then b more. */
  lemma PlaySplit(s: QueueState, a: nat, b: nat)
    requires Play(s, a).outcome == Returned(0)
    ensures var r := Play(s, a);
      var t := Play(r.state, b);
      Play(s, a + b) == Result(r.written + t.written, t.state, t.outcome)
  {
    RunSplit(Tick, s, a, b);
  }

  /** sgl_PA_Callback for framesPerBuffer frames: 2 * framesPerBuffer zeros
      when the queue is empty on entry, otherwise the frame loop. */
  function Callback(s: QueueState, framesPerBuffer: nat): (r: Result<QueueState>)
  {
    if s.tail == s.head then Result(Silence(2 * framesPerBuffer), s, Returned(0))
    else Play(s, framesPerBuffer)
  }

  /** A frame of a consistent non-empty queue never faults except through
      the NULL write, writes two floats in [-1/2, 1/2), keeps the invariant
      and `tail`, and writes through NULL exactly when it empties the queue. */
  lemma TickKeepsConsistent(s: QueueState)
    requires Consistent(s) && s.head != s.tail
    ensures var t := Tick(s);
      && (t.outcome == Returned(0) || t.outcome == NullWrite)
      && |t.written| == 2 && -0.5 <= t.written[0] < 0.5 && -0.5 <= t.written[1] < 0.5
      && Consistent(t.state) && t.state.tail == s.tail
      && (t.outcome == NullWrite <==> t.state.head == t.state.tail)
  {
  }

  /** Over any number of frames of a consistent non-empty queue: no fault
      other than the NULL write, the invariant and `tail` kept, two floats in
      [-1/2, 1/2) per frame, and the queue empty exactly when the NULL write
      happened. */
  lemma {:induction false} PlayKeepsConsistent(s: QueueState, n: nat)
    requires Consistent(s) && s.head != s.tail
    ensures var r := Play(s, n);
      && (r.outcome == Returned(0) || r.outcome == NullWrite)
      && Consistent(r.state) && r.state.tail == s.tail
      && (r.outcome == Returned(0) <==> r.state.head != r.state.tail)
      && (r.outcome == Returned(0) ==> |r.written| == 2 * n)
      && (r.outcome == NullWrite ==> 0 < |r.written| <= 2 * n)
      && forall k :: 0 <= k < |r.written| ==> -0.5 <= r.written[k] < 0.5
  {
    if n > 0 {
      PlayKeepsConsistent(s, n - 1);
      var r := Play(s, n - 1);
      if r.outcome == Returned(0) {
        TickKeepsConsistent(r.state);
      }
    }
  }

  /** A callback on a consistent queue keeps the invariant and returns 0
      after writing exactly 2 * framesPerBuffer floats, all in [-1/2, 1/2),
      unless it writes through NULL, which it does only after the last
      queued item has played out and never past the end of the buffer. */
  lemma CallbackKeepsConsistent(s: QueueState, framesPerBuffer: nat)
    requires Consistent(s)
    ensures var r := Callback(s, framesPerBuffer);
      && (r.outcome == Returned(0) || r.outcome == NullWrite)
      && Consistent(r.state) && r.state.tail == s.tail
      && (r.outcome == Returned(0) ==> |r.written| == 2 * framesPerBuffer)
      && (r.outcome == NullWrite ==> r.state.head == r.state.tail && |r.written| <= 2 * framesPerBuffer)
      && forall k :: 0 <= k < |r.written| ==> -0.5 <= r.written[k] < 0.5
  {
    if s.head != s.tail {
      PlayKeepsConsistent(s, framesPerBuffer);
    }
  }

  /** An empty queue on entry gives exactly 2 * framesPerBuffer zeros and
      leaves head, tail and every item as they were. */
  lemma EmptyQueueIsSilent(s: QueueState, framesPerBuffer: nat)
    requires Consistent(s) && s.head == s.tail
    ensures var r := Callback(s, framesPerBuffer);
      && r.state == s && r.outcome == Returned(0)
      && |r.written| == 2 * framesPerBuffer
      && forall k :: 0 <= k < |r.written| ==> r.written[k] == 0.0
  {
  }

  /** A head item with no frames is never retired: every frame is (0, 0) and
      the queue does not change. */
  lemma {:induction false} SilentItemStalls(s: QueueState, n: nat)
    requires |s.items| == MAX_SAMPLES_QUEUED && 0 <= s.head < MAX_SAMPLES_QUEUED && s.head != s.tail
    requires s.items[s.head].numSamples == 0
    ensures Play(s, n) == Result(Silence(2 * n), s, Returned(0))
  {
    if n > 0 {
      SilentItemStalls(s, n - 1);
      SilenceConcat(2 * (n - 1), 2);
    }
  }

  /** A frame read from the middle of the head item: its next two samples,
      decoded, and the cursor moved on by exactly 2. */
  lemma TickWithinItem(s: QueueState)
    requires HeadHasFrames(s)
    requires s.items[s.head].position + 2 < |s.items[s.head].samples|
    ensures var it := s.items[s.head];
      Tick(s) == Result([Decode(it.samples[it.position]), Decode(it.samples[it.position + 1])],
                        s.(items := s.items[s.head := it.(position := it.position + 2)]), Returned(0))
  {
  }

  /** The frame that exhausts the head item: its last two samples, decoded;
      then a REPEAT item is rewound, and a one-shot item is retired, head
      moves on by one slot modulo 1024 and, through the fall-through, the
      new head item's cursor is set to 0 -- unless the queue is now empty,
      where that write goes through NULL. */
  lemma TickAtEndOfItem(s: QueueState)
    requires HeadHasFrames(s)
    requires s.items[s.head].position + 2 == |s.items[s.head].samples|
    ensures var it := s.items[s.head];
      var out := [Decode(it.samples[it.position]), Decode(it.samples[it.position + 1])];
      var retired := s.items[s.head := it.(position := |it.samples|)];
      var next := (s.head + 1) % MAX_SAMPLES_QUEUED;
      Tick(s) == if it.endBehavior == Repeat then
                   Result(out, s.(items := s.items[s.head := it.(position := 0)]), Returned(0))
                 else if next == s.tail then
                   Result(out, QueueState(retired, next, s.tail), NullWrite)
                 else
                   Result(out, QueueState(retired[next := retired[next].(position := 0)], next, s.tail), Returned(0))
  {
  }

  /** While the head item has frames left, each frame writes its next two
      samples, decoded, and moves its cursor on by exactly 2; nothing else
      changes. */
  lemma {:induction false} PlayWithinItem(s: QueueState, k: nat)
    requires HeadHasFrames(s)
    requires s.items[s.head].position + 2 * k < |s.items[s.head].samples|
    ensures var it := s.items[s.head];
      Play(s, k) == Result(DecodeAll(it.samples[it.position..it.position + 2 * k]),
                           s.(items := s.items[s.head := it.(position := it.position + 2 * k)]),
                           Returned(0))
  {
    var it := s.items[s.head];
    if k == 0 {
      assert s.items[s.head := it.(position := it.position)] == s.items;
    } else {
      PlayWithinItem(s, k - 1);
      var p := it.position + 2 * (k - 1);
      var r := Play(s, k - 1);
      assert r.state.items[s.head] == it.(position := p);
      TickWithinItem(r.state);
      DecodeAllExtend(it.samples, it.position, p);
      assert s.items[s.head := it.(position := p)][s.head := it.(position := p + 2)]
          == s.items[s.head := it.(position := p + 2)];
    }
  }

  /** The last m frames of the head item: the first m - 1 emit all but its
      last two samples, and the last one is the frame that exhausts it. */
  lemma PlayToEnd(s: QueueState, m: nat)
    requires HeadHasFrames(s)
    requires m > 0 && s.items[s.head].position + 2 * m == |s.items[s.head].samples|
    ensures var it := s.items[s.head];
      var last := |it.samples| - 2;
      var t := Tick(s.(items := s.items[s.head := it.(position := last)]));
      Play(s, m) == Result(DecodeAll(it.samples[it.position..last]) + t.written, t.state, t.outcome)
  {
    PlayWithinItem(s, m - 1);
  }

  /** Playing a REPEAT item to its end (its last m frames) emits the rest of
      its samples and rewinds its cursor to 0; head and tail stay where they
      are. */
  lemma RepeatRewinds(s: QueueState, m: nat)
    requires HeadHasFrames(s) && s.items[s.head].endBehavior == Repeat
    requires m > 0 && s.items[s.head].position + 2 * m == |s.items[s.head].samples|
    ensures var it := s.items[s.head];
      Play(s, m) == Result(DecodeAll(it.samples[it.position..]),
                           s.(items := s.items[s.head := it.(position := 0)]),
                           Returned(0))
  {
    var it := s.items[s.head];
    var last := |it.samples| - 2;
    PlayToEnd(s, m);
    var r := s.(items := s.items[s.head := it.(position := last)]);
    assert Tick(r) == Result([Decode(it.samples[last]), Decode(it.samples[last + 1])],
                             s.(items := s.items[s.head := it.(position := 0)]), Returned(0)) by {
      TickAtEndOfItem(r);
      assert s.items[s.head := it.(position := last)][s.head := it.(position := 0)]
          == s.items[s.head := it.(position := 0)];
    }
    DecodeAllExtend(it.samples, it.position, last);
  }

  /** Playing a one-shot item to its end (its last m frames) when another
      item is queued emits the rest of its samples, moves head on by one slot
      modulo 1024, and (by the fall-through into the REPEAT case) sets the new
      head item's cursor to 0; the retired item keeps its cursor at its end. */
  lemma OneShotRetires(s: QueueState, m: nat)
    requires HeadHasFrames(s) && s.items[s.head].endBehavior == NextElem
    requires m > 0 && s.items[s.head].position + 2 * m == |s.items[s.head].samples|
    requires (s.head + 1) % MAX_SAMPLES_QUEUED != s.tail
    ensures var it := s.items[s.head];
      var next := (s.head + 1) % MAX_SAMPLES_QUEUED;
      var retired := s.items[s.head := it.(position := |it.samples|)];
      Play(s, m) == Result(DecodeAll(it.samples[it.position..]),
                           QueueState(retired[next := retired[next].(position := 0)], next, s.tail),
                           Returned(0))
  {
    var it := s.items[s.head];
    var last := |it.samples| - 2;
    var next := (s.head + 1) % MAX_SAMPLES_QUEUED;
    var retired := s.items[s.head := it.(position := |it.samples|)];
    PlayToEnd(s, m);
    var r := s.(items := s.items[s.head := it.(position := last)]);
    assert Tick(r) == Result([Decode(it.samples[last]), Decode(it.samples[last + 1])],
                             QueueState(retired[next := retired[next].(position := 0)], next, s.tail), Returned(0)) by {
      TickAtEndOfItem(r);
      assert s.items[s.head := it.(position := last)][s.head := it.(position := |it.samples|)] == retired;
    }
    DecodeAllExtend(it.samples, it.position, last);
  }

  /** The read side of PushAppends: retiring a one-shot head item (its
      last m frames) that is not in the last slot takes it off the front of
      the pending items; the next one, now at the head, starts from its
      first frame and the rest are as they were. */
  lemma RetirePopsPending(s: QueueState, m: nat)
    requires HeadHasFrames(s) && s.items[s.head].endBehavior == NextElem
    requires m > 0 && s.items[s.head].position + 2 * m == |s.items[s.head].samples|
    requires s.head + 1 < s.tail <= MAX_SAMPLES_QUEUED
    ensures var r := Play(s, m).state;
      var before := Pending(s);
      && 0 <= r.head <= r.tail <= |r.items|
      && Pending(r) == [before[1].(position := 0)] + before[2..]
  {
    OneShotRetires(s, m);
    var r := Play(s, m).state;
    var before := Pending(s);
    assert Pending(r)[0] == before[1].(position := 0);
    assert Pending(r)[1..] == before[2..];
  }

  /** `tail` does not wrap: once 1024 items have been pushed it stays at
      1024, and retiring the one-shot item in the last slot moves head round
      to slot 0, which is not `tail`. So instead of emptying (or writing
      through NULL) the callback goes on with all 1024 slots pending again,
      from slot 0, and returns 0. */
  lemma FullQueueReplays(s: QueueState, m: nat)
    requires HeadHasFrames(s) && s.items[s.head].endBehavior == NextElem
    requires m > 0 && s.items[s.head].position + 2 * m == |s.items[s.head].samples|
    requires s.head == MAX_SAMPLES_QUEUED - 1 && s.tail == MAX_SAMPLES_QUEUED
    ensures var r := Play(s, m);
      && r.outcome == Returned(0)
      && r.state.head == 0 && r.state.tail == MAX_SAMPLES_QUEUED
      && |Pending(r.state)| == MAX_SAMPLES_QUEUED
      && Pending(r.state)[0] == s.items[0].(position := 0)
  {
    OneShotRetires(s, m);
  }

  /** Playing the last queued item to its end (its last m frames) when it is
      one-shot ends in the write through the NULL `qitem`, after all of its
      samples were emitted. */
  lemma LastOneShotWritesThroughNull(s: QueueState, m: nat)
    requires HeadHasFrames(s) && s.items[s.head].endBehavior == NextElem
    requires m > 0 && s.items[s.head].position + 2 * m == |s.items[s.head].samples|
    requires (s.head + 1) % MAX_SAMPLES_QUEUED == s.tail
    ensures var it := s.items[s.head];
      var r := Play(s, m);
      r.outcome == NullWrite && r.written == DecodeAll(it.samples[it.position..]) && r.state.head == r.state.tail
  {
    var it := s.items[s.head];
    var last := |it.samples| - 2;
    PlayToEnd(s, m);
    var r := s.(items := s.items[s.head := it.(position := last)]);
    assert Tick(r).outcome == NullWrite && Tick(r).state.head == Tick(r).state.tail
        && Tick(r).written == [Decode(it.samples[last]), Decode(it.samples[last + 1])] by {
      TickAtEndOfItem(r);
    }
    DecodeAllExtend(it.samples, it.position, last);
  }

  /** Once a REPEAT item is at the head the queue never becomes empty again:
      every frame completes, head and tail do not move and the item stays a
      playable REPEAT item over the same samples. */
  lemma {:induction false} RepeatNeverEmpties(s: QueueState, n: nat)
    requires HeadPlayable(s) && s.items[s.head].endBehavior == Repeat
    ensures var r := Play(s, n);
      && r.outcome == Returned(0)
      && HeadPlayable(r.state)
      && r.state.head == s.head && r.state.tail == s.tail
      && r.state.items[s.head].endBehavior == Repeat
      && r.state.items[s.head].samples == s.items[s.head].samples
  {
    if n > 0 {
      RepeatNeverEmpties(s, n - 1);
    }
  }

  /** A REPEAT item at the head with its cursor at 0 plays its whole buffer,
      comes back to exactly the state it started from, and plays the buffer
      again: the second numSamples frames repeat the first. */
  lemma RepeatIsPeriodic(s: QueueState)
    requires HeadHasFrames(s) && s.items[s.head].endBehavior == Repeat
    requires s.items[s.head].position == 0
    ensures var it := s.items[s.head];
      && Play(s, it.numSamples) == Result(DecodeAll(it.samples), s, Returned(0))
      && Play(s, 2 * it.numSamples).written == DecodeAll(it.samples) + DecodeAll(it.samples)
  {
    var it := s.items[s.head];
    RepeatRewinds(s, it.numSamples);
    assert s.items[s.head := it.(position := 0)] == s.items;
    assert it.samples[0..] == it.samples;
    PlaySplit(s, it.numSamples, it.numSamples);
  }

  /** The whole life of a one-shot sound pushed on an empty queue: the next
      callback asking for at least its length plays every sample of it and
      then writes through NULL, since retiring it empties the queue. */
  lemma OneShotOnEmptyQueue(s: QueueState, samples: seq<Int16>, numSamples: int, framesPerBuffer: nat)
    requires Consistent(s) && s.head == s.tail && s.tail + 1 < MAX_SAMPLES_QUEUED
    requires |samples| == 2 * numSamples && 0 < numSamples <= framesPerBuffer
    ensures var r := Callback(Push(s, samples, numSamples, 1), framesPerBuffer);
      r.outcome == NullWrite && r.written == DecodeAll(samples)
  {
    var q := Push(s, samples, numSamples, 1);
    PushKeepsConsistent(s, samples, numSamples, 1);
    assert q.items[q.head] == Item(samples, 0, numSamples, NextElem);
    LastOneShotWritesThroughNull(q, numSamples);
    assert samples[0..] == samples;
    PlayFaultIsFinal(q, numSamples, framesPerBuffer);
  }

  // ---------------------------------------------------------------------------
  // The queue itself

  /** AudioQueue, updated in place by audio_push_sample and sgl_PA_Callback;
      a fresh queue is the zero-initialised static one: every slot an empty
      NEXT_ELEM item, `head` and `tail` 0. */
  class AudioQueue {
    const items: array<Item>
    var head: int
    var tail: int

    /** The queue as a value. */
    ghost function State(): QueueState
      reads this, items
    {
      QueueState(items[..], head, tail)
    }

    ghost predicate Valid()
      reads this, items
    {
      Consistent(State())
    }

    constructor ()
      ensures Valid() && head == 0 && tail == 0
      ensures forall k :: 0 <= k < items.Length ==> items[k] == Item([], 0, 0, NextElem)
    {
      items := new Item[MAX_SAMPLES_QUEUED](_ => Item([], 0, 0, NextElem));
      head := 0;
      tail := 0;
    }

    /** The add_elem lambda of audio_push_sample. */
    method AddElem(it: Item)
      requires 0 <= tail < items.Length
      modifies this, items
      ensures State() == AddItem(old(State()), it)
    {
      items[tail] := it;
      tail := tail + 1 % MAX_SAMPLES_QUEUED;
    }

    /** audio_push_sample: the caller hands over a buffer of numSamples
        stereo frames and must leave room for the items it appends, since
        nothing is checked. */
    method PushSample(samples: seq<Int16>, numSamples: int, nLoops: int)
      requires Valid() && |samples| == 2 * numSamples
      requires tail + PushCount(nLoops) <= MAX_SAMPLES_QUEUED
      modifies this, items
      ensures Valid()
      ensures State() == Push(old(State()), samples, numSamples, nLoops)
    {
      if nLoops == -1 {
        PushForever(old(State()), samples, numSamples);
        AddElem(Item(samples, 0, numSamples, Repeat));
      } else if nLoops < -1 {
        PushNothing(old(State()), samples, numSamples, nLoops);
      } else {
        AddElems(samples, numSamples, nLoops);
        PushLoopMatchesPush(old(State()), samples, numSamples, nLoops);
      }
      PushKeepsConsistent(old(State()), samples, numSamples, nLoops);
    }

    /** The `for` loop of audio_push_sample: n one-shot items appended one
        add_elem at a time. */
    method AddElems(samples: seq<Int16>, numSamples: int, n: nat)
      requires 0 <= tail && tail + n <= items.Length
      modifies this, items
      ensures State() == PushLoop(old(State()), samples, numSamples, n)
    {
      var i := 0;
      while i < n
        invariant 0 <= i <= n
        invariant State() == PushLoop(old(State()), samples, numSamples, i)
      {
        AddElem(Item(samples, 0, numSamples, NextElem));
        i := i + 1;
      }
    }

    /** One iteration of the frame loop, writing frame i of `out`, with
        `qitem` aimed at the head item; gives back where `qitem` points
        afterwards. None means the fall-through wrote through NULL, and
        the frame loop goes no further. */
    method StepFrame(out: array<real>, i: nat, qitem: Option<int>) returns (next: Option<int>)
      requires Valid() && head != tail && qitem == Some(head) && 2 * i + 2 <= out.Length
      modifies this, items, out
      ensures var t := Tick(old(State()));
        && State() == t.state
        && (next == None <==> t.outcome == NullWrite)
        && (next.Some? ==> next == Some(head))
        && out[..2 * i + 2] == old(out[..2 * i]) + t.written
        && forall k :: 2 * i + 2 <= k < out.Length ==> out[k] == old(out[k])
    {
      next := qitem;
      if next.Some? && items[next.value].numSamples != 0 {
        var it := items[next.value];
        var left16 := it.samples[it.position];
        var right16 := it.samples[it.position + 1];
        items[next.value] := it.(position := it.position + 2);
        out[2 * i] := Decode(left16);
        out[2 * i + 1] := Decode(right16);
        assert 2 * it.numSamples >= it.position + 2;
        if 2 * it.numSamples == it.position + 2 {
          if it.endBehavior == NextElem {
            head := (head + 1) % MAX_SAMPLES_QUEUED;
            if head == tail {
              next := None;
            } else {
              next := Some(head);
            }
          }
          if next.None? {
            return;
          }
          items[next.value] := items[next.value].(position := 0);
        }
      } else {
        out[2 * i] := 0.0;
        out[2 * i + 1] := 0.0;
      }
    }

    /** The same iteration seen from the start of the frame loop: if the
        first i frames from s0 were those of the specification, so are the
        first i + 1. */
    method PlayFrame(out: array<real>, i: nat, qitem: Option<int>, ghost s0: QueueState) returns (next: Option<int>)
      requires Valid() && head != tail && qitem == Some(head) && 2 * i + 2 <= out.Length
      requires Play(s0, i) == Result(out[..2 * i], State(), Returned(0))
      modifies this, items, out
      ensures Valid()
      ensures next.Some? ==> next == Some(head) && head != tail
      ensures Play(s0, i + 1) == Result(out[..2 * i + 2], State(), if next.None? then NullWrite else Returned(0))
      ensures forall k :: 2 * i + 2 <= k < out.Length ==> out[k] == old(out[k])
    {
      ghost var before := State();
      TickKeepsConsistent(before);
      PlayStep(s0, i, before);
      next := StepFrame(out, i, qitem);
    }

    /** The empty-queue branch of sgl_PA_Callback: framesPerBuffer frames
        of (0, 0). */
    static method WriteSilence(out: array<real>, framesPerBuffer: nat)
      requires out.Length == 2 * framesPerBuffer
      modifies out
      ensures out[..] == Silence(2 * framesPerBuffer)
    {
      var i := 0;
      while i < framesPerBuffer
        invariant 0 <= i <= framesPerBuffer
        invariant out[..2 * i] == Silence(2 * i)
      {
        out[2 * i] := 0.0;
        out[2 * i + 1] := 0.0;
        i := i + 1;
      }
      assert out[..] == out[..2 * framesPerBuffer];
    }

    /** The non-empty branch of sgl_PA_Callback: the frame loop, with
        `qitem` starting at the head item. */
    method PlayFrames(out: array<real>, framesPerBuffer: nat) returns (outcome: Outcome)
      requires Valid() && head != tail && out.Length == 2 * framesPerBuffer
      modifies this, items, out
      ensures Valid()
      ensures var r := Play(old(State()), framesPerBuffer);
        && outcome == r.outcome && State() == r.state
        && |r.written| <= out.Length
        && out[..|r.written|] == r.written
        && forall k :: |r.written| <= k < out.Length ==> out[k] == old(out[k])
    {
      ghost var s0 := State();
      var qitem: Option<int> := Some(head);
      var i := 0;
      while i < framesPerBuffer
        invariant 0 <= i <= framesPerBuffer
        invariant Valid() && head != tail && qitem == Some(head)
        invariant Play(s0, i) == Result(out[..2 * i], State(), Returned(0))
        invariant forall k :: 2 * i <= k < out.Length ==> out[k] == old(out[k])
      {
        qitem := PlayFrame(out, i, qitem, s0);
        if qitem.None? {
          PlayFaultIsFinal(s0, i + 1, framesPerBuffer);
          return NullWrite;
        }
        i := i + 1;
      }
      return Returned(0);
    }

    /** sgl_PA_Callback: fills `out` with framesPerBuffer stereo frames, or
        stops at the write through the NULL `qitem`, having filled only the
        frames before it. */
    method PaCallback(out: array<real>, framesPerBuffer: nat) returns (outcome: Outcome)
      requires Valid() && out.Length == 2 * framesPerBuffer
      modifies this, items, out
      ensures Valid()
      ensures var r := Callback(old(State()), framesPerBuffer);
        && outcome == r.outcome && State() == r.state
        && |r.written| <= out.Length
        && out[..|r.written|] == r.written
        && forall k :: |r.written| <= k < out.Length ==> out[k] == old(out[k])
    {
      if tail == head {
        WriteSilence(out, framesPerBuffer);
        return Returned(0);
      }
      outcome := PlayFrames(out, framesPerBuffer);
    }
  }
}
