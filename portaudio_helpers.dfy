/** The sample stack of portaudio_helpers.h.

    sgl_PA_push_sample puts a playback item on top of a stack and the
    PortAudio callback sgl_PA_Callback plays the top item, one stereo frame
    at a time. As for the queue, the behaviour is first given as functions
    on a snapshot of the stack (StackState) with lemmas about them, and then
    as the class AudioStack whose methods update the item array in place.

    The callback's outer loop `for (ai = 0; ai < count; ++ai)` restarts the
    frame loop on the top item once per iteration while `out` keeps moving
    forward, and when an item is exhausted with others below it `qitem` is
    set to `&items[count]` after the decrement, which is the exhausted item
    itself. Both are kept, not repaired:
    - a second pass of the outer loop stores past the end of the output
      buffer (outcome WritePastEnd), after reading a frame of the top item;
    - a frame after such a pop reads the exhausted item's buffer past its
      end (outcome ReadPastEnd). */
module PortaudioHelpers {
  import opened Samples

  /** SampleQueueItem of the stack. `position` is playback_position, counted
      in shorts (two per stereo frame); `numSamples` is num_samples, counted
      in frames. */
  datatype Item = Item(samples: seq<Int16>, position: int, numSamples: int)

  /** The buffer holds exactly numSamples interleaved stereo frames. */
  predicate Sized(it: Item)
  {
    |it.samples| == 2 * it.numSamples
  }

  /** An item the callback can take a frame from: a sized buffer that is
      empty, or whose cursor sits on a frame boundary before its end. */
  predicate Playable(it: Item)
  {
    && Sized(it)
    && (it.numSamples == 0 || (0 <= it.position < |it.samples| && it.position % 2 == 0))
  }

  /** An item whose every frame has been played. */
  predicate Spent(it: Item)
  {
    && Sized(it)
    && 0 < it.numSamples
    && it.position == |it.samples|
  }

  /** A snapshot of AudioStack: the item slots and the count of live items,
      the top one at `count - 1`. */
  datatype StackState = StackState(items: seq<Item>, count: int)

  /** The invariant the two operations keep: 1024 slots, a count between 0
      and 1024, and every live item playable. */
  predicate Consistent(s: StackState)
  {
    && |s.items| == MAX_SAMPLES_QUEUED
    && 0 <= s.count <= MAX_SAMPLES_QUEUED
    && forall k :: 0 <= k < s.count ==> Playable(s.items[k])
  }

  /** A non-empty stack whose top item is sized, has frames and a cursor
      that is not negative; the lemmas that play a known number of frames of
      it need nothing more. */
  predicate TopHasFrames(s: StackState)
  {
    && |s.items| == MAX_SAMPLES_QUEUED
    && 0 < s.count <= MAX_SAMPLES_QUEUED
    && Sized(s.items[s.count - 1])
    && 0 < s.items[s.count - 1].numSamples
    && 0 <= s.items[s.count - 1].position
  }

  // ---------------------------------------------------------------------------
  // sgl_PA_push_sample

  /** The stack after sgl_PA_push_sample(samples, numSamples): a new item
      with its cursor at 0 stored at `count`, which then grows by one. */
  function Push(s: StackState, samples: seq<Int16>, numSamples: int): (r: StackState)
    requires 0 <= s.count < |s.items|
  {
    StackState(s.items[s.count := Item(samples, 0, numSamples)], s.count + 1)
  }

  /** Pushing a sized buffer on a consistent stack with a free slot keeps it
      consistent, makes the new item the top one and leaves every item below
      it as it was. */
  lemma PushKeepsConsistent(s: StackState, samples: seq<Int16>, numSamples: int)
    requires Consistent(s) && s.count < MAX_SAMPLES_QUEUED
    requires |samples| == 2 * numSamples
    ensures var r := Push(s, samples, numSamples);
      && Consistent(r)
      && r.count == s.count + 1
      && r.items[r.count - 1] == Item(samples, 0, numSamples)
      && r.items[..s.count] == s.items[..s.count]
  {
    var r := Push(s, samples, numSamples);
    forall k | 0 <= k < r.count
      ensures Playable(r.items[k])
    {
      if k < s.count {
        assert r.items[k] == s.items[k];
      }
    }
  }

  // ---------------------------------------------------------------------------
  // sgl_PA_Callback

  /** The state of the frame loop: the stack and `qitem`, an index into the
      item slots or NULL. */
  datatype Cursor = Cursor(stack: StackState, qitem: Option<int>)

  /** One iteration of the frame loop. A NULL `qitem` or an item without
      frames gives (0, 0). Otherwise two samples are read at the cursor,
      which moves on by 2, and written decoded; the assert must hold; and
      when the item is exhausted `count` drops by one and `qitem` becomes
      NULL if the stack is now empty, else `&items[count]` -- the slot of
      the item just exhausted. A read outside the slots or the buffer stops
      the loop with nothing written. */
  function Tick(c: Cursor): (t: Result<Cursor>)
  {
    match c.qitem
    case None => Result([0.0, 0.0], c, Returned(0))
    case Some(j) =>
      if !(0 <= j < |c.stack.items|) then
        Result([], c, ReadPastEnd)
      else
        var it := c.stack.items[j];
        if it.numSamples == 0 then
          Result([0.0, 0.0], c, Returned(0))
        else if !(0 <= it.position && it.position + 1 < |it.samples|) then
          Result([], c, ReadPastEnd)
        else
          var pos := it.position + 2;
          var out := [Decode(it.samples[it.position]), Decode(it.samples[it.position + 1])];
          var items := c.stack.items[j := it.(position := pos)];
          if 2 * it.numSamples < pos then
            Result(out, Cursor(StackState(items, c.stack.count), c.qitem), AssertFailed)
          else if pos < 2 * it.numSamples then
            Result(out, Cursor(StackState(items, c.stack.count), c.qitem), Returned(0))
          else
            var count := c.stack.count - 1;
            Result(out, Cursor(StackState(items, count), if count == 0 then None else Some(count)), Returned(0))
  }

  /** n iterations of the frame loop from a given cursor. */
  function Frames(c: Cursor, n: nat): (r: Result<Cursor>)
  {
    Run(Tick, c, n)
  }

  /** One pass of the outer loop: the frame loop over framesPerBuffer
      frames, with `qitem` aimed at the top item. */
  function Pass(s: StackState, framesPerBuffer: nat): (r: Result<Cursor>)
  {
    Frames(Cursor(s, Some(s.count - 1)), framesPerBuffer)
  }

  /** The second pass of the outer loop up to its first store: `qitem` is
      aimed at the top item again and the frame starts as any other -- two
      samples read at its cursor, which moves on by 2, when the item has
      frames -- but the store that follows lands at out[2 * framesPerBuffer],
      just past the output buffer, so nothing after the reads happens. */
  function Overrun(s: StackState): (r: Result<StackState>)
    ensures r.written == [] && r.state.count == s.count
    ensures r.outcome == ReadPastEnd || r.outcome == WritePastEnd
  {
    var t := Tick(Cursor(s, Some(s.count - 1)));
    if t.outcome == ReadPastEnd then Result([], s, ReadPastEnd)
    else Result([], StackState(t.state.stack.items, s.count), WritePastEnd)
  }

  /** sgl_PA_Callback for framesPerBuffer frames: 2 * framesPerBuffer zeros
      when the stack is empty on entry; otherwise the first pass of the
      outer loop, and then, if at least two items are left, the second pass
      up to its first store, which lands just past the output buffer --
      unless there are no frames to store, when the remaining passes do
      nothing. */
  function Callback(s: StackState, framesPerBuffer: nat): (r: Result<StackState>)
  {
    if s.count == 0 then Result(Silence(2 * framesPerBuffer), s, Returned(0))
    else
      var p := Pass(s, framesPerBuffer);
      if p.outcome != Returned(0) then Result(p.written, p.state.stack, p.outcome)
      else if 0 < framesPerBuffer && 1 < p.state.stack.count then
        var o := Overrun(p.state.stack);
        Result(p.written + o.written, o.state, o.outcome)
      else Result(p.written, p.state.stack, Returned(0))
  }

  /** Frame n + 1 is one more iteration from where the first n left the
      cursor. */
  lemma FramesStep(c: Cursor, n: nat, q: Cursor)
    requires Frames(c, n).state == q && Frames(c, n).outcome == Returned(0)
    ensures Frames(c, n + 1) == Result(Frames(c, n).written + Tick(q).written, Tick(q).state, Tick(q).outcome)
  {
    RunStep(Tick, c, n);
  }

  /** Nothing happens after a fault: asking for more frames gives the same
      result. */
  lemma FramesFaultIsFinal(c: Cursor, m: nat, n: nat)
    requires m <= n && Frames(c, m).outcome != Returned(0)
    ensures Frames(c, n) == Frames(c, m)
  {
    RunFaultIsFinal(Tick, c, m, n);
  }

  /** Playing a + b frames is playing a frames and then b more. */
  lemma FramesSplit(c: Cursor, a: nat, b: nat)
    requires Frames(c, a).outcome == Returned(0)
    ensures var r := Frames(c, a);
      var t := Frames(r.state, b);
      Frames(c, a + b) == Result(r.written + t.written, t.state, t.outcome)
  {
    RunSplit(Tick, c, a, b);
  }

  /** Where `qitem` may point during a pass over a consistent stack: NULL
      once the stack is empty, otherwise the top item, or the slot just
      above it when that holds the item the previous frame exhausted. */
  predicate CursorOk(c: Cursor)
  {
    && Consistent(c.stack)
    && match c.qitem
       case None => c.stack.count == 0
       case Some(j) =>
         && 0 < c.stack.count
         && (j == c.stack.count - 1 || (j == c.stack.count < MAX_SAMPLES_QUEUED && Spent(c.stack.items[j])))
  }

  /** A frame from a well-aimed cursor either writes two floats in
      [-1/2, 1/2) or, exactly when `qitem` is aimed at the exhausted item,
      reads past its end and stops with nothing written; the cursor stays
      well aimed, and `count` drops by at most one. */
  lemma TickKeepsCursorOk(c: Cursor)
    requires CursorOk(c)
    ensures var t := Tick(c);
      && CursorOk(t.state)
      && (t.outcome == Returned(0) || t.outcome == ReadPastEnd)
      && (t.outcome == ReadPastEnd <==> c.qitem == Some(c.stack.count))
      && (t.outcome == ReadPastEnd ==> t.written == [] && t.state == c)
      && (t.outcome == Returned(0) ==> |t.written| == 2 && -0.5 <= t.written[0] < 0.5 && -0.5 <= t.written[1] < 0.5)
      && c.stack.count - 1 <= t.state.stack.count <= c.stack.count
  {
    match c.qitem
    case None =>
    case Some(j) =>
      var it := c.stack.items[j];
      if j == c.stack.count - 1 && it.numSamples != 0 {
        var t := Tick(c);
        forall k | 0 <= k < t.state.stack.count
          ensures Playable(t.state.stack.items[k])
        {
          assert t.state.stack.items[k] == (if k == j then it.(position := it.position + 2) else c.stack.items[k]);
        }
      }
  }

  /** Over any number of frames from a well-aimed cursor: no fault other
      than the read past an exhausted item, two floats in [-1/2, 1/2) per
      completed frame, the cursor well aimed, and `count` never growing. */
  lemma {:induction false} FramesKeepCursorOk(c: Cursor, n: nat)
    requires CursorOk(c)
    ensures var r := Frames(c, n);
      && CursorOk(r.state)
      && (r.outcome == Returned(0) || r.outcome == ReadPastEnd)
      && (r.outcome == Returned(0) ==> |r.written| == 2 * n)
      && (r.outcome == ReadPastEnd ==> |r.written| < 2 * n && r.state.qitem == Some(r.state.stack.count))
      && r.state.stack.count <= c.stack.count
      && forall k :: 0 <= k < |r.written| ==> -0.5 <= r.written[k] < 0.5
  {
    if n > 0 {
      FramesKeepCursorOk(c, n - 1);
      var r := Frames(c, n - 1);
      if r.outcome == Returned(0) {
        TickKeepsCursorOk(r.state);
      }
    }
  }

  /** The top item as the second pass's reads leave it: still sized and,
      when it has frames, its cursor on a frame boundary past its first
      frame and at most at the end of its buffer. */
  predicate Stepped(it: Item)
  {
    && Sized(it)
    && (it.numSamples == 0 || (2 <= it.position <= |it.samples| && it.position % 2 == 0))
  }

  /** The second pass's reads from a top item with a frame left: its next
      two samples are read in bounds, its cursor moves on by 2 and the store
      past the output buffer follows; nothing else changes. */
  lemma OverrunReadsTop(s: StackState)
    requires TopHasFrames(s)
    requires s.items[s.count - 1].position + 2 <= |s.items[s.count - 1].samples|
    ensures var top := s.count - 1;
      var it := s.items[top];
      Overrun(s) == Result([], s.(items := s.items[top := it.(position := it.position + 2)]), WritePastEnd)
  {
  }

  /** A callback on a consistent stack never adds items, and either returns
      0 after writing exactly 2 * framesPerBuffer floats, or faults in one
      of the two ways the source allows: the read past an exhausted item,
      which leaves at least one item, or the store past the output buffer,
      which happens whenever the first pass leaves two or more. So a
      callback that plays frames returns 0 only when at most one item is
      left afterwards. Every item below the top stays playable; the top one
      does too unless the second pass's reads moved its cursor on, which may
      leave it at the end of its buffer without popping it -- so the stack
      is consistent again after every outcome but the store past the
      buffer. */
  lemma CallbackKeepsConsistent(s: StackState, framesPerBuffer: nat)
    requires Consistent(s)
    ensures var r := Callback(s, framesPerBuffer);
      && |r.state.items| == MAX_SAMPLES_QUEUED
      && 0 <= r.state.count <= s.count
      && (forall k :: 0 <= k < r.state.count - 1 ==> Playable(r.state.items[k]))
      && (0 < r.state.count && r.outcome == WritePastEnd ==> Stepped(r.state.items[r.state.count - 1]))
      && (r.outcome != WritePastEnd ==> Consistent(r.state))
      && (r.outcome == Returned(0) || r.outcome == ReadPastEnd || r.outcome == WritePastEnd)
      && |r.written| <= 2 * framesPerBuffer
      && (r.outcome != ReadPastEnd ==> |r.written| == 2 * framesPerBuffer)
      && (r.outcome == ReadPastEnd ==> 0 < r.state.count)
      && (r.outcome == WritePastEnd <==> 0 < framesPerBuffer && r.outcome != ReadPastEnd && 2 <= r.state.count)
      && forall k :: 0 <= k < |r.written| ==> -0.5 <= r.written[k] < 0.5
  {
    if s.count != 0 {
      FramesKeepCursorOk(Cursor(s, Some(s.count - 1)), framesPerBuffer);
      var p := Pass(s, framesPerBuffer).state.stack;
      if Pass(s, framesPerBuffer).outcome == Returned(0) && 0 < framesPerBuffer && 1 < p.count {
        var top := p.count - 1;
        var it := p.items[top];
        assert Playable(it);
        if it.numSamples != 0 {
          OverrunReadsTop(p);
          var q := Callback(s, framesPerBuffer).state;
          assert q.items == p.items[top := it.(position := it.position + 2)];
          forall k | 0 <= k < top
            ensures Playable(q.items[k])
          {
            assert q.items[k] == p.items[k];
          }
        }
      }
    }
  }

  /** During a pass over at most one item, `qitem` is never aimed at an
      exhausted item, so no frame faults. */
  lemma {:induction false} OneItemFramesComplete(c: Cursor, n: nat)
    requires CursorOk(c) && c.stack.count <= 1 && c.qitem != Some(c.stack.count)
    ensures var r := Frames(c, n);
      && r.outcome == Returned(0)
      && CursorOk(r.state) && r.state.stack.count <= 1 && r.state.qitem != Some(r.state.stack.count)
  {
    if n > 0 {
      OneItemFramesComplete(c, n - 1);
      TickKeepsCursorOk(Frames(c, n - 1).state);
    }
  }

  /** With at most one item on entry only one pass writes anything, and the
      callback fills exactly its 2 * framesPerBuffer floats and returns 0. */
  lemma OneItemStaysInBuffer(s: StackState, framesPerBuffer: nat)
    requires Consistent(s) && s.count <= 1
    ensures var r := Callback(s, framesPerBuffer);
      r.outcome == Returned(0) && |r.written| == 2 * framesPerBuffer
  {
    if s.count == 1 {
      OneItemFramesComplete(Cursor(s, Some(0)), framesPerBuffer);
      CallbackKeepsConsistent(s, framesPerBuffer);
    }
  }

  /** An empty stack on entry gives exactly 2 * framesPerBuffer zeros and
      leaves the stack as it was. */
  lemma EmptyStackIsSilent(s: StackState, framesPerBuffer: nat)
    requires Consistent(s) && s.count == 0
    ensures var r := Callback(s, framesPerBuffer);
      && r.state == s && r.outcome == Returned(0)
      && |r.written| == 2 * framesPerBuffer
      && forall k :: 0 <= k < |r.written| ==> r.written[k] == 0.0
  {
  }

  /** With `qitem` NULL every frame is (0, 0) and nothing changes. */
  lemma {:induction false} NullCursorIsSilent(c: Cursor, n: nat)
    requires c.qitem == None
    ensures Frames(c, n) == Result(Silence(2 * n), c, Returned(0))
  {
    if n > 0 {
      NullCursorIsSilent(c, n - 1);
      SilenceConcat(2 * (n - 1), 2);
    }
  }

  /** A top item with no frames is never popped: every frame of the pass is
      (0, 0) and the stack does not change. */
  lemma {:induction false} SilentTopStalls(s: StackState, n: nat)
    requires |s.items| == MAX_SAMPLES_QUEUED && 0 < s.count <= MAX_SAMPLES_QUEUED
    requires s.items[s.count - 1].numSamples == 0
    ensures Pass(s, n) == Result(Silence(2 * n), Cursor(s, Some(s.count - 1)), Returned(0))
  {
    if n > 0 {
      SilentTopStalls(s, n - 1);
      SilenceConcat(2 * (n - 1), 2);
    }
  }

  /** So a silent top item over at least one other item makes every callback
      that plays frames overrun the output buffer. */
  lemma SilentTopOverruns(s: StackState, framesPerBuffer: nat)
    requires |s.items| == MAX_SAMPLES_QUEUED && 1 < s.count <= MAX_SAMPLES_QUEUED
    requires s.items[s.count - 1].numSamples == 0 && 0 < framesPerBuffer
    ensures Callback(s, framesPerBuffer) == Result(Silence(2 * framesPerBuffer), s, WritePastEnd)
  {
    SilentTopStalls(s, framesPerBuffer);
  }

  /** A frame read from the middle of the top item: its next two samples,
      decoded, and the cursor moved on by exactly 2. */
  lemma TickWithinItem(s: StackState)
    requires TopHasFrames(s)
    requires s.items[s.count - 1].position + 2 < |s.items[s.count - 1].samples|
    ensures var top := s.count - 1;
      var it := s.items[top];
      Tick(Cursor(s, Some(top)))
        == Result([Decode(it.samples[it.position]), Decode(it.samples[it.position + 1])],
                  Cursor(s.(items := s.items[top := it.(position := it.position + 2)]), Some(top)), Returned(0))
  {
  }

  /** The frame that exhausts the top item: its last two samples, decoded;
      then the item is popped and `qitem` is NULL if it was the only one,
      else the slot of the item just exhausted, one above the new top. */
  lemma TickAtEndOfItem(s: StackState)
    requires TopHasFrames(s)
    requires s.items[s.count - 1].position + 2 == |s.items[s.count - 1].samples|
    ensures var top := s.count - 1;
      var it := s.items[top];
      Tick(Cursor(s, Some(top)))
        == Result([Decode(it.samples[it.position]), Decode(it.samples[it.position + 1])],
                  Cursor(StackState(s.items[top := it.(position := |it.samples|)], top),
                         if top == 0 then None else Some(top)),
                  Returned(0))
  {
  }

  /** While the top item has frames left, each frame writes its next two
      samples, decoded, and moves its cursor on by exactly 2; nothing else
      changes. */
  lemma {:induction false} PassWithinItem(s: StackState, k: nat)
    requires TopHasFrames(s)
    requires s.items[s.count - 1].position + 2 * k < |s.items[s.count - 1].samples|
    ensures var top := s.count - 1;
      var it := s.items[top];
      Pass(s, k) == Result(DecodeAll(it.samples[it.position..it.position + 2 * k]),
                           Cursor(s.(items := s.items[top := it.(position := it.position + 2 * k)]), Some(top)),
                           Returned(0))
  {
    var top := s.count - 1;
    var it := s.items[top];
    if k == 0 {
      assert s.items[top := it.(position := it.position)] == s.items;
    } else {
      PassWithinItem(s, k - 1);
      var p := it.position + 2 * (k - 1);
      var q := Cursor(s.(items := s.items[top := it.(position := p)]), Some(top));
      FramesStep(Cursor(s, Some(top)), k - 1, q);
      TickWithinItem(q.stack);
      assert q.stack.items[top] == it.(position := p);
      assert q.stack.items[top := it.(position := p + 2)] == s.items[top := it.(position := p + 2)];
      DecodeAllExtend(it.samples, it.position, p);
    }
  }

  /** The last m frames of the top item: the first m - 1 emit all but its
      last two samples, and the last one is the frame that exhausts it. */
  lemma PassToLastFrame(s: StackState, m: nat)
    requires TopHasFrames(s)
    requires 0 < m && s.items[s.count - 1].position + 2 * m == |s.items[s.count - 1].samples|
    ensures var top := s.count - 1;
      var it := s.items[top];
      var last := |it.samples| - 2;
      var t := Tick(Cursor(s.(items := s.items[top := it.(position := last)]), Some(top)));
      Pass(s, m) == Result(DecodeAll(it.samples[it.position..last]) + t.written, t.state, t.outcome)
  {
    var top := s.count - 1;
    var it := s.items[top];
    PassWithinItem(s, m - 1);
    FramesStep(Cursor(s, Some(top)), m - 1, Cursor(s.(items := s.items[top := it.(position := |it.samples| - 2)]), Some(top)));
  }

  /** The last m frames of the top item: its remaining samples, decoded;
      then the item is popped, and `qitem` becomes NULL when it was the only
      one, and otherwise stays on the slot of the item just exhausted. */
  lemma PassToEnd(s: StackState, m: nat)
    requires TopHasFrames(s)
    requires 0 < m && s.items[s.count - 1].position + 2 * m == |s.items[s.count - 1].samples|
    ensures var top := s.count - 1;
      var it := s.items[top];
      Pass(s, m) == Result(DecodeAll(it.samples[it.position..]),
                           Cursor(StackState(s.items[top := it.(position := |it.samples|)], top),
                                  if top == 0 then None else Some(top)),
                           Returned(0))
  {
    var top := s.count - 1;
    var it := s.items[top];
    var last := |it.samples| - 2;
    PassToLastFrame(s, m);
    var q := s.(items := s.items[top := it.(position := last)]);
    TickAtEndOfItem(q);
    assert q.items[top] == it.(position := last);
    assert q.items[top := it.(position := |it.samples|)] == s.items[top := it.(position := |it.samples|)];
    DecodeAllExtend(it.samples, it.position, last);
  }

  /** When the top item runs out before the pass ends and another item is
      below it, the next frame reads the exhausted item past its end: the
      pass stops there, having emitted only the rest of the top item. */
  lemma PopReaimsAtExhausted(s: StackState, m: nat, framesPerBuffer: nat)
    requires TopHasFrames(s) && 1 < s.count
    requires 0 < m < framesPerBuffer && s.items[s.count - 1].position + 2 * m == |s.items[s.count - 1].samples|
    ensures var top := s.count - 1;
      var it := s.items[top];
      var r := Pass(s, framesPerBuffer);
      && r.outcome == ReadPastEnd
      && r.written == DecodeAll(it.samples[it.position..])
      && r.state == Cursor(StackState(s.items[top := it.(position := |it.samples|)], top), Some(top))
  {
    var top := s.count - 1;
    var c := Cursor(s, Some(top));
    PassToEnd(s, m);
    FramesStep(c, m, Frames(c, m).state);
    FramesFaultIsFinal(c, m + 1, framesPerBuffer);
  }

  /** When the only item runs out within the pass, the rest of the pass is
      silence and the callback returns 0 with the stack empty. */
  lemma LastItemThenSilence(s: StackState, m: nat, framesPerBuffer: nat)
    requires TopHasFrames(s) && s.count == 1
    requires 0 < m <= framesPerBuffer && s.items[0].position + 2 * m == |s.items[0].samples|
    ensures var it := s.items[0];
      Callback(s, framesPerBuffer)
        == Result(DecodeAll(it.samples[it.position..]) + Silence(2 * (framesPerBuffer - m)),
                  StackState(s.items[0 := it.(position := |it.samples|)], 0),
                  Returned(0))
  {
    var c := Cursor(s, Some(0));
    PassToEnd(s, m);
    FramesSplit(c, m, framesPerBuffer - m);
    NullCursorIsSilent(Frames(c, m).state, framesPerBuffer - m);
  }

  /** The stack is last in, first out: a callback right after a push plays
      the pushed sound from its first sample. With frames to spare in it,
      the callback emits its first framesPerBuffer frames and leaves its
      cursor after them and returns 0 if the stack was empty before the
      push; otherwise the second pass reads one more frame of it, moving its
      cursor on by 2, and then stores past the output buffer. */
  lemma PlaysMostRecentPush(s: StackState, samples: seq<Int16>, numSamples: int, framesPerBuffer: nat)
    requires Consistent(s) && s.count < MAX_SAMPLES_QUEUED
    requires |samples| == 2 * numSamples && 0 < framesPerBuffer < numSamples
    ensures var p := Push(s, samples, numSamples);
      Callback(p, framesPerBuffer)
        == Result(DecodeAll(samples[..2 * framesPerBuffer]),
                  p.(items := p.items[s.count := Item(samples, if s.count == 0 then 2 * framesPerBuffer else 2 * framesPerBuffer + 2, numSamples)]),
                  if s.count == 0 then Returned(0) else WritePastEnd)
  {
    var p := Push(s, samples, numSamples);
    PushKeepsConsistent(s, samples, numSamples);
    PassWithinItem(p, framesPerBuffer);
    if s.count != 0 {
      var q := p.(items := p.items[s.count := Item(samples, 2 * framesPerBuffer, numSamples)]);
      OverrunReadsTop(q);
      assert q.items[s.count := Item(samples, 2 * framesPerBuffer + 2, numSamples)]
          == p.items[s.count := Item(samples, 2 * framesPerBuffer + 2, numSamples)];
    }
  }

  /** When the first pass stops one frame short of the end of the top item
      and another item is below it, the second pass reads that last frame
      before its store past the output buffer: the callback leaves the top
      item at the end of its buffer but does not pop it, so the stack it
      leaves is not consistent. */
  lemma OverrunExhaustsTop(s: StackState, framesPerBuffer: nat)
    requires TopHasFrames(s) && 1 < s.count && 0 < framesPerBuffer
    requires s.items[s.count - 1].position + 2 * framesPerBuffer + 2 == |s.items[s.count - 1].samples|
    ensures var top := s.count - 1;
      var it := s.items[top];
      var r := Callback(s, framesPerBuffer);
      && r == Result(DecodeAll(it.samples[it.position..it.position + 2 * framesPerBuffer]),
                     s.(items := s.items[top := it.(position := |it.samples|)]),
                     WritePastEnd)
      && !Consistent(r.state)
  {
    var top := s.count - 1;
    var it := s.items[top];
    PassWithinItem(s, framesPerBuffer);
    var q := s.(items := s.items[top := it.(position := it.position + 2 * framesPerBuffer)]);
    OverrunReadsTop(q);
    assert q.items[top := it.(position := |it.samples|)] == s.items[top := it.(position := |it.samples|)];
    var r := Callback(s, framesPerBuffer);
    assert r.state.items[top] == it.(position := |it.samples|);
    assert !Playable(r.state.items[top]);
  }

  /** The whole life of a sound pushed on an empty stack: the next callback
      asking for at least its length plays every sample of it, then fills
      the rest of the buffer with zeros and returns 0, leaving the stack
      empty. */
  lemma SoundOnEmptyStack(s: StackState, samples: seq<Int16>, numSamples: int, framesPerBuffer: nat)
    requires Consistent(s) && s.count == 0
    requires |samples| == 2 * numSamples && 0 < numSamples <= framesPerBuffer
    ensures var r := Callback(Push(s, samples, numSamples), framesPerBuffer);
      && r.outcome == Returned(0)
      && r.written == DecodeAll(samples) + Silence(2 * (framesPerBuffer - numSamples))
      && r.state.count == 0
  {
    var p := Push(s, samples, numSamples);
    PushKeepsConsistent(s, samples, numSamples);
    LastItemThenSilence(p, numSamples, framesPerBuffer);
    assert samples[0..] == samples;
  }

  // ---------------------------------------------------------------------------
  // The stack itself

  /** AudioStack, updated in place by sgl_PA_push_sample and sgl_PA_Callback;
      a fresh stack is the zero-initialised static one: every slot an empty
      item, `count` 0. */
  class AudioStack {
    const items: array<Item>
    var count: int

    /** The stack as a value. */
    ghost function State(): StackState
      reads this, items
    {
      StackState(items[..], count)
    }

    ghost predicate Valid()
      reads this, items
    {
      Consistent(State())
    }

    constructor ()
      ensures Valid() && count == 0
      ensures forall k :: 0 <= k < items.Length ==> items[k] == Item([], 0, 0)
    {
      items := new Item[MAX_SAMPLES_QUEUED](_ => Item([], 0, 0));
      count := 0;
    }

    /** sgl_PA_push_sample: the caller hands over a buffer of numSamples
        stereo frames and must leave a free slot, since nothing is
        checked. */
    method PushSample(samples: seq<Int16>, numSamples: int)
      requires Valid() && |samples| == 2 * numSamples
      requires count < MAX_SAMPLES_QUEUED
      modifies this, items
      ensures Valid()
      ensures State() == Push(old(State()), samples, numSamples)
    {
      PushKeepsConsistent(State(), samples, numSamples);
      items[count] := Item(samples, 0, numSamples);
      count := count + 1;
    }

    /** One iteration of the frame loop, writing frame i of `out` with
      `qitem` where it points; gives back where `qitem` points afterwards
      and whether the frame completed. */
    method StepFrame(out: array<real>, i: nat, qitem: Option<int>) returns (next: Option<int>, outcome: Outcome)
      requires CursorOk(Cursor(State(), qitem)) && 2 * i + 2 <= out.Length
      modifies this, items, out
      ensures var t := Tick(Cursor(old(State()), qitem));
        && Cursor(State(), next) == t.state && outcome == t.outcome
        && out[..2 * i + |t.written|] == old(out[..2 * i]) + t.written
        && forall k :: 2 * i + |t.written| <= k < out.Length ==> out[k] == old(out[k])
    {
      next := qitem;
      outcome := Returned(0);
      if next.Some? && items[next.value].numSamples != 0 {
        var it := items[next.value];
        if !(0 <= it.position && it.position + 1 < |it.samples|) {
          return next, ReadPastEnd;
        }
        var left16 := it.samples[it.position];
        var right16 := it.samples[it.position + 1];
        items[next.value] := it.(position := it.position + 2);
        out[2 * i] := Decode(left16);
        out[2 * i + 1] := Decode(right16);
        assert 2 * it.numSamples >= it.position + 2;
        if 2 * it.numSamples == it.position + 2 {
          count := count - 1;
          if count == 0 {
            next := None;
          } else {
            next := Some(count);
          }
        }
      } else {
        out[2 * i] := 0.0;
        out[2 * i + 1] := 0.0;
      }
    }

    /** The same iteration seen from the start of the pass: if the first i
        frames from c0 were those of the specification, so are the first
        i + 1. */
    method PassFrame(out: array<real>, i: nat, qitem: Option<int>, ghost c0: Cursor) returns (next: Option<int>, outcome: Outcome)
      requires CursorOk(Cursor(State(), qitem)) && 2 * i + 2 <= out.Length
      requires Frames(c0, i) == Result(out[..2 * i], Cursor(State(), qitem), Returned(0))
      modifies this, items, out
      ensures CursorOk(Cursor(State(), next))
      ensures var w := if outcome == Returned(0) then 2 * i + 2 else 2 * i;
        && Frames(c0, i + 1) == Result(out[..w], Cursor(State(), next), outcome)
        && forall k :: w <= k < out.Length ==> out[k] == old(out[k])
    {
      ghost var before := Cursor(State(), qitem);
      TickKeepsCursorOk(before);
      FramesStep(c0, i, before);
      next, outcome := StepFrame(out, i, qitem);
    }

    /** One pass of the outer loop: the frame loop over framesPerBuffer
        frames, with `qitem` starting at the top item. */
    method PlayPass(out: array<real>, framesPerBuffer: nat) returns (outcome: Outcome)
      requires Valid() && 0 < count && out.Length == 2 * framesPerBuffer
      modifies this, items, out
      ensures Valid()
      ensures var r := Pass(old(State()), framesPerBuffer);
        && outcome == r.outcome && State() == r.state.stack
        && |r.written| <= out.Length
        && out[..|r.written|] == r.written
        && forall k :: |r.written| <= k < out.Length ==> out[k] == old(out[k])
    {
      ghost var c0 := Cursor(State(), Some(count - 1));
      var qitem: Option<int> := Some(count - 1);
      var i := 0;
      while i < framesPerBuffer
        invariant 0 <= i <= framesPerBuffer
        invariant CursorOk(Cursor(State(), qitem))
        invariant Frames(c0, i) == Result(out[..2 * i], Cursor(State(), qitem), Returned(0))
        invariant forall k :: 2 * i <= k < out.Length ==> out[k] == old(out[k])
      {
        qitem, outcome := PassFrame(out, i, qitem, c0);
        if outcome != Returned(0) {
          FramesFaultIsFinal(c0, i + 1, framesPerBuffer);
          return;
        }
        i := i + 1;
      }
      return Returned(0);
    }

    /** The empty-stack branch of sgl_PA_Callback: framesPerBuffer frames
        of (0, 0). */
    static method WriteSilence(out: array<real>, framesPerBuffer: nat)
      requires out.Length == 2 * framesPerBuffer
      modifies out
      ensures out[..] == Silence(2 * framesPerBuffer)
    {
      var i := 0;
      while i < framesPerBuffer
        invariant 0 <= i <= framesPerBuffer
        invariant out[..2 * i] == Silence(2 * i)
      {
        out[2 * i] := 0.0;
        out[2 * i + 1] := 0.0;
        i := i + 1;
      }
      assert out[..] == out[..2 * framesPerBuffer];
    }

    /** The reads of the second pass's first frame, which come before its
        store past the output buffer: the top item's cursor moves on by 2
        when it has frames. */
    method OverrunRead()
      requires Valid() && 0 < count
      modifies items
      ensures State() == Overrun(old(State())).state
      ensures Stepped(items[count - 1])
    {
      var it := items[count - 1];
      assert Playable(it);
      if it.numSamples != 0 {
        OverrunReadsTop(State());
        items[count - 1] := it.(position := it.position + 2);
      }
    }

    /** sgl_PA_Callback: zeros for an empty stack; otherwise the first pass
        of the outer loop. The passes after it start storing at
        out[2 * framesPerBuffer * ai], past the buffer whenever there are
        frames to store, so the method stops at the second pass's first
        store with WritePastEnd, after that frame's reads; with no frames
        they store nothing. */
    method PaCallback(out: array<real>, framesPerBuffer: nat) returns (outcome: Outcome)
      requires Valid() && out.Length == 2 * framesPerBuffer
      modifies this, items, out
      ensures outcome != WritePastEnd ==> Valid()
      ensures var r := Callback(old(State()), framesPerBuffer);
        && outcome == r.outcome && State() == r.state
        && |r.written| <= out.Length
        && out[..|r.written|] == r.written
        && forall k :: |r.written| <= k < out.Length ==> out[k] == old(out[k])
    {
      if count == 0 {
        WriteSilence(out, framesPerBuffer);
        return Returned(0);
      }
      outcome := PlayPass(out, framesPerBuffer);
      if outcome == Returned(0) && 0 < framesPerBuffer && 1 < count {
        OverrunRead();
        outcome := WritePastEnd;
      }
    }
  }
}
