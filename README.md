# Chew audio sample queue, sample stack and Vec2 in Dafny

This project models the audio core of the game Chew, plus its small 2-D
vector type:

- **audio.cc** (`audio.dfy`, module `Audio`) is the ring-buffer FIFO queue.
  `audio_push_sample` appends playback items at `tail`: `n_loops` one-shot
  `NEXT_ELEM` items, or one `REPEAT` item for `n_loops == -1`. The PortAudio
  callback `sgl_PA_Callback` plays the item at `head` one stereo frame at a
  time. When an item is exhausted, the callback either rewinds it (REPEAT) or
  retires it and moves `head` on modulo 1024.
- **portaudio_helpers.h** (`portaudio_helpers.dfy`, module `PortaudioHelpers`)
  is the earlier LIFO stack. `sgl_PA_push_sample` pushes an item at `count`.
  The callback plays the top item and pops it when it runs out, inside an
  outer loop over `ai < count`.
- **vector.hh** (`vector.dfy`, module `Vector`) is `Vec2<T>` at `T = int`,
  with its componentwise operators and `perpendicular`.
- `samples.dfy` (module `Samples`) holds what the two audio iterations
  share:
  - the capacity `k_max_samples_queued`;
  - the 16-bit sample type;
  - the `s16 / 65536` decoding;
  - the outcomes of a callback;
  - `Run`, the iteration of a frame loop.

Each audio iteration is modelled twice. First it is a set of functions on a
snapshot of the state, with lemmas about them:
- `Tick` is one frame;
- `Play` / `Frames` and `Pass` are the frame loop;
- `Callback` and `Push` are the two operations.

Second, it is a class (`AudioQueue`, `AudioStack`) that holds the item
array, with `head`/`tail` or `count` as fields. Its methods update them in
place. Each method is proved to leave exactly the state, and write exactly
the floats, that the functions describe.

The source has undefined behaviour and a failing `assert`, and the model
keeps both. They are not repaired. Each becomes an explicit outcome of the
callback, after which nothing more is written:
- `NullWrite`: the `NEXT_ELEM` case of audio.cc falls through into the
  `REPEAT` case. There it writes `playback_position = 0` through a NULL
  `qitem` once the queue has emptied.
- `ReadPastEnd`: after a pop, the stack re-aims `qitem` at `&items[count]`,
  which is the item it just exhausted. The next frame then reads that
  item's buffer past its end (the assert would fail right after).
- `WritePastEnd`: the stack's outer loop starts another full pass of
  `framesPerBuffer` frames while `out` keeps moving forward. The second
  pass therefore stores past the output buffer. Its first frame still reads
  two samples of the top item and moves that item's cursor on by 2 before
  the store, and the model includes that step. It can leave the top item at
  the end of its buffer without popping it.
- `AssertFailed`: the callbacks' `assert` on the cursor. It is proved
  unreachable from consistent states.

Also kept as written: `tail + 1 % k_max_samples_queued` is `tail + 1`, so
`tail` never wraps. The push therefore requires room for the items it
appends. Once 1024 items have been pushed, `tail` is 1024 and the model allows no
further push (the push's room requirement, under "## Left out"; in the
source the next push would store at `items[1024]`, past the array). Retiring
the one-shot item in slot 1023 then moves `head` round to 0, which is not
`tail`. So the callback neither empties the queue nor writes through NULL:
it goes on replaying slots 0 to 1023.

## Model

| member | source | states |
|---|---|---|
| Samples.Decode | audio.cc:56-57 | a decoded sample lies in [-1/2, 1/2), and scaling it by 2^16 gives the short back |
| Samples.Silence | audio.cc:43-47 | n floats, every one 0 |
| Samples.DecodeAll | audio.cc:53-60 | same length as the samples, element k is sample k decoded |
| Samples.SilenceConcat | audio.cc:79-83 | silence followed by silence is silence of the summed length |
| Samples.DecodeAllExtend | audio.cc:53-60 | decoding one more frame appends its two decoded samples |
| Samples.Run | audio.cc:50-84 | n iterations of a frame loop's step, concatenating what each writes and stopping at the first fault; RunSplit, RunFaultIsFinal and RunStep specify it |
| Samples.RunSplit | audio.cc:50-84 | a + b iterations of a frame loop are a iterations, then b more from where they stopped |
| Samples.RunFaultIsFinal | audio.cc:50-84 | after a fault, more iterations change nothing |
| Samples.RunStep | audio.cc:50-84 | iteration n + 1 extends the written floats and the state by one step |
| Audio.Pending | audio.cc:21-25 | the items from `head` up to `tail`, in playing order; PushAppends and RetirePopsPending say how the two operations change it |
| Audio.PushCount | audio.cc:102-108 | how many items audio_push_sample appends: n_loops for n_loops >= 0, one for -1, none below -1; PushedByLoopCount states it of the appended items |
| Audio.AddItem | audio.cc:92-100 | the add_elem lambda: the item stored at `tail`, then `tail + 1 % 1024`, which is `tail + 1`; PushStep and AudioQueue.AddElem use it |
| Audio.Push | audio.cc:90-109 | the queue after audio_push_sample, as the appended items spliced in at `tail`; PushAppends, PushKeepsConsistent and PushLoopMatchesPush specify it |
| Audio.Pushed | audio.cc:102-108 | the number of appended items is PushCount(n_loops) |
| Audio.PushLoop | audio.cc:102-104 | i add_elem calls move `tail` on by exactly i, keep `head` and the slot count |
| Audio.PushedByLoopCount | audio.cc:92-108 | n_loops >= 0 appends n_loops NEXT_ELEM items, -1 one REPEAT item, below -1 none; every item is at position 0 over the given buffer |
| Audio.PushAppends | audio.cc:90-109 | the pending items afterwards are the old pending items followed by the appended ones (FIFO); slots before the old `tail` are untouched |
| Audio.PushKeepsConsistent | audio.cc:90-109 | a push of a sized buffer keeps the queue invariant, leaves `head`, and moves `tail` on by the appended count without wrapping |
| Audio.PushStep | audio.cc:102-104 | i + 1 iterations of the push loop are i iterations and one more add_elem |
| Audio.PushLoopMatchesPush | audio.cc:102-104 | the add_elem loop builds the same queue as the reference definition of a push |
| Audio.PushNothing | audio.cc:102-108 | n_loops == 0 or below -1 leaves the queue unchanged |
| Audio.PushForever | audio.cc:105-108 | n_loops == -1 is one add_elem of a REPEAT item |
| Audio.Tick | audio.cc:51-83 | one frame of the callback: two decoded samples and the cursor step, then the end-of-item switch with its fall-through; TickKeepsConsistent, TickWithinItem and TickAtEndOfItem specify it |
| Audio.Callback | audio.cc:33-88 | zeros for an empty queue, otherwise framesPerBuffer frames of Tick; CallbackKeepsConsistent, EmptyQueueIsSilent and the lemmas below specify it |
| Audio.Play | audio.cc:50-84 | the `for (i = 0; i < framesPerBuffer; i++)` frame loop: n frames of Tick from the head item; PlayKeepsConsistent, PlayWithinItem and PlayToEnd specify it |
| Audio.PlayStep | audio.cc:50-84 | frame n + 1 of the callback continues from the state frame n left |
| Audio.PlayFaultIsFinal | audio.cc:50-84 | after the NULL write or another fault, further frames change nothing |
| Audio.PlaySplit | audio.cc:50-84 | a + b frames are a frames and then b more |
| Audio.TickKeepsConsistent | audio.cc:51-83 | a frame of a consistent non-empty queue writes two floats in [-1/2, 1/2), keeps the invariant and `tail`, never fails the assert or reads out of bounds, and writes through NULL exactly when it empties the queue |
| Audio.PlayKeepsConsistent | audio.cc:50-84 | over n frames: only the NULL write can go wrong, 2n floats otherwise, all in [-1/2, 1/2); invariant and `tail` kept; queue empty exactly after the NULL write |
| Audio.CallbackKeepsConsistent | audio.cc:33-88 | a callback keeps the invariant and `tail`, and writes exactly 2 * framesPerBuffer floats in [-1/2, 1/2) unless it writes through NULL after the queue empties |
| Audio.EmptyQueueIsSilent | audio.cc:43-47 | on an empty queue the callback writes 2 * framesPerBuffer zeros and changes nothing |
| Audio.SilentItemStalls | audio.cc:51-83 | a head item with num_samples == 0 is never retired: every frame is (0, 0) and the queue does not change |
| Audio.TickWithinItem | audio.cc:51-63 | a mid-item frame writes the two decoded samples at the cursor and moves the cursor by exactly 2 |
| Audio.TickAtEndOfItem | audio.cc:63-77 | the exhausting frame rewinds a REPEAT item; for NEXT_ELEM it moves `head` modulo 1024, zeroes the new head's cursor, or writes through NULL when the queue emptied |
| Audio.PlayWithinItem | audio.cc:50-62 | k frames within the head item write its next 2k samples decoded, and only its cursor moves |
| Audio.PlayToEnd | audio.cc:50-77 | the last m frames of the head item are its remaining samples followed by the exhausting frame |
| Audio.RepeatRewinds | audio.cc:74-76 | playing a REPEAT item to its end emits the rest of its samples, rewinds it to 0 and leaves `head` and `tail` |
| Audio.OneShotRetires | audio.cc:66-76 | playing a NEXT_ELEM item to its end with another item queued moves `head` to (head + 1) % 1024 and, by the fall-through, sets the new head's cursor to 0 |
| Audio.RetirePopsPending | audio.cc:66-76 | retiring a one-shot head item below slot 1023 takes it off the front of the pending items; the next one starts from cursor 0 and the rest are unchanged |
| Audio.FullQueueReplays | audio.cc:66-76 | with `tail` stuck at 1024, retiring the item in slot 1023 moves `head` to 0, returns 0 and leaves all 1024 slots pending again |
| Audio.LastOneShotWritesThroughNull | audio.cc:67-75 | playing the last NEXT_ELEM item to its end emits all its samples, empties the queue and writes through NULL |
| Audio.RepeatNeverEmpties | audio.cc:63-76 | once a REPEAT item is at the head, every frame completes, `head` and `tail` stay, and it stays a playable REPEAT item |
| Audio.RepeatIsPeriodic | audio.cc:74-76 | a REPEAT item from cursor 0 plays its buffer and returns to the same state; the next numSamples frames repeat the first |
| Audio.OneShotOnEmptyQueue | audio.cc:66-75 | a one-shot sound pushed on an empty queue is played in full by the next long-enough callback, which then writes through NULL |
| Audio.AudioQueue.constructor | audio.cc:21-26 | a fresh queue is consistent, empty, with every slot an empty NEXT_ELEM item |
| Audio.AudioQueue.AddElem | audio.cc:92-100 | stores the item at `tail` and increments `tail` as AddItem says |
| Audio.AudioQueue.PushSample | audio.cc:90-109 | keeps the invariant and leaves exactly the queue Push describes |
| Audio.AudioQueue.AddElems | audio.cc:102-104 | the `for` loop leaves the queue PushLoop describes |
| Audio.AudioQueue.StepFrame | audio.cc:51-83 | one frame in place: the new queue and the two floats written are Tick's; NULL exactly when Tick writes through NULL |
| Audio.AudioQueue.PlayFrame | audio.cc:50-84 | one more frame keeps the invariant and extends the frames written so far as Play does |
| Audio.AudioQueue.WriteSilence | audio.cc:43-47 | the output buffer is all zeros |
| Audio.AudioQueue.PlayFrames | audio.cc:48-85 | the frame loop leaves the queue, outcome and output prefix Play describes, and the rest of the buffer untouched |
| Audio.AudioQueue.PaCallback | audio.cc:33-88 | keeps the invariant, and leaves the queue, outcome and written floats Callback describes |
| PortaudioHelpers.PushKeepsConsistent | portaudio_helpers.h:36-44 | a push with a free slot keeps the invariant, grows `count` by one, puts the new item at position 0 on top and leaves the items below it |
| PortaudioHelpers.Push | portaudio_helpers.h:36-44 | sgl_PA_push_sample: a new item at cursor 0 stored at `count`, which grows by one; PushKeepsConsistent and PlaysMostRecentPush specify it |
| PortaudioHelpers.Tick | portaudio_helpers.h:76-99 | one frame of the frame loop: two decoded samples and the cursor step, the assert, the pop and the re-aiming of `qitem`; TickKeepsCursorOk, TickWithinItem and TickAtEndOfItem specify it |
| PortaudioHelpers.Pass | portaudio_helpers.h:74-101 | one pass of the outer loop: framesPerBuffer frames of Tick with `qitem` aimed at the top item; FramesKeepCursorOk, PassWithinItem and PassToEnd specify it |
| PortaudioHelpers.Overrun | portaudio_helpers.h:73-85 | the second pass up to its first store: the top item's two reads and cursor step, then the store past the buffer; nothing is written and `count` stays |
| PortaudioHelpers.Callback | portaudio_helpers.h:50-105 | zeros for an empty stack, otherwise the first pass and, if two or more items are left, Overrun; CallbackKeepsConsistent and the lemmas below specify it |
| PortaudioHelpers.Frames | portaudio_helpers.h:75-101 | the frame loop: n frames of Tick from a given `qitem`; FramesKeepCursorOk, PassWithinItem and PassToEnd specify it |
| PortaudioHelpers.FramesStep | portaudio_helpers.h:75-101 | frame n + 1 of a pass continues from the state frame n left |
| PortaudioHelpers.FramesFaultIsFinal | portaudio_helpers.h:75-101 | after a fault, further frames change nothing |
| PortaudioHelpers.FramesSplit | portaudio_helpers.h:75-101 | a + b frames are a frames and then b more |
| PortaudioHelpers.TickKeepsCursorOk | portaudio_helpers.h:76-99 | a frame from a well-aimed `qitem` writes two floats in [-1/2, 1/2), or reads past the end exactly when `qitem` is on the exhausted item; `count` drops by at most one |
| PortaudioHelpers.FramesKeepCursorOk | portaudio_helpers.h:75-101 | over n frames: only the read past an exhausted item can go wrong, 2n floats otherwise, `count` never grows |
| PortaudioHelpers.CallbackKeepsConsistent | portaudio_helpers.h:50-105 | a callback never adds items; it returns 0 after exactly 2 * framesPerBuffer floats, or reads past an exhausted item, or stores past the buffer exactly when frames were asked for and at least two items remain; the items below the top stay playable, and the stack is consistent again after every outcome but the store past the buffer |
| PortaudioHelpers.OneItemFramesComplete | portaudio_helpers.h:88-94 | with at most one item, `qitem` never lands on an exhausted item and no frame faults |
| PortaudioHelpers.OneItemStaysInBuffer | portaudio_helpers.h:73-75 | with at most one item on entry, the callback returns 0 after exactly 2 * framesPerBuffer floats |
| PortaudioHelpers.EmptyStackIsSilent | portaudio_helpers.h:67-72 | on an empty stack the callback writes 2 * framesPerBuffer zeros and changes nothing |
| PortaudioHelpers.NullCursorIsSilent | portaudio_helpers.h:96-99 | with `qitem` NULL every frame is (0, 0) and nothing changes |
| PortaudioHelpers.SilentTopStalls | portaudio_helpers.h:76-99 | a top item with num_samples == 0 is never popped; its pass is all zeros |
| PortaudioHelpers.SilentTopOverruns | portaudio_helpers.h:73-101 | a silent top item over another item makes the callback store past the output buffer |
| PortaudioHelpers.TickWithinItem | portaudio_helpers.h:76-87 | a mid-item frame writes the two decoded samples at the cursor and moves the cursor by exactly 2 |
| PortaudioHelpers.TickAtEndOfItem | portaudio_helpers.h:88-94 | the exhausting frame pops the item and leaves `qitem` NULL, or on `items[count]`, the item just exhausted |
| PortaudioHelpers.PassWithinItem | portaudio_helpers.h:75-87 | k frames within the top item write its next 2k samples decoded, and only its cursor moves |
| PortaudioHelpers.PassToLastFrame | portaudio_helpers.h:75-95 | the last m frames of the top item are its remaining samples followed by the exhausting frame |
| PortaudioHelpers.PassToEnd | portaudio_helpers.h:75-95 | the last m frames of the top item emit the rest of its samples and pop it |
| PortaudioHelpers.PopReaimsAtExhausted | portaudio_helpers.h:92-94 | when the top item runs out mid-pass over another item, the next frame reads the exhausted item past its end |
| PortaudioHelpers.LastItemThenSilence | portaudio_helpers.h:88-99 | when the only item runs out mid-pass, the rest of the pass is zeros and the callback returns 0 with the stack empty |
| PortaudioHelpers.OverrunReadsTop | portaudio_helpers.h:76-85 | the second pass reads the top item's next frame in bounds and moves its cursor on by 2 before the store past the buffer; nothing else changes |
| PortaudioHelpers.PlaysMostRecentPush | portaudio_helpers.h:73-85 | LIFO: a callback right after a push plays the pushed sound from its start; it returns 0 on a previously empty stack, and otherwise the second pass reads one more frame of it and stores past the buffer |
| PortaudioHelpers.OverrunExhaustsTop | portaudio_helpers.h:73-85 | when the first pass stops one frame short of the top item's end over another item, the second pass's reads leave that item at its end, unpopped, and the stack inconsistent |
| PortaudioHelpers.SoundOnEmptyStack | portaudio_helpers.h:88-99 | a sound pushed on an empty stack is played in full, followed by zeros, and the stack is empty afterwards |
| PortaudioHelpers.AudioStack.constructor | portaudio_helpers.h:29-34 | a fresh stack is consistent and empty, with every slot an empty item |
| PortaudioHelpers.AudioStack.PushSample | portaudio_helpers.h:36-44 | keeps the invariant and leaves exactly the stack Push describes |
| PortaudioHelpers.AudioStack.StepFrame | portaudio_helpers.h:76-100 | one frame in place: the new stack, `qitem`, outcome and floats written are Tick's |
| PortaudioHelpers.AudioStack.PassFrame | portaudio_helpers.h:75-101 | one more frame keeps `qitem` well aimed and extends the frames written so far as Frames does |
| PortaudioHelpers.AudioStack.PlayPass | portaudio_helpers.h:74-101 | one pass of the outer loop leaves the stack, outcome and output prefix Pass describes |
| PortaudioHelpers.AudioStack.WriteSilence | portaudio_helpers.h:67-72 | the output buffer is all zeros |
| PortaudioHelpers.AudioStack.OverrunRead | portaudio_helpers.h:76-79 | the second pass's reads in place: the stack Overrun describes, with the top item still sized and its cursor on a frame boundary |
| PortaudioHelpers.AudioStack.PaCallback | portaudio_helpers.h:50-105 | leaves the stack, outcome and written floats Callback describes, and the invariant unless the outcome is the store past the buffer |
| Vector.UnionAliases | vector.hh:6-19 | `w`/`h` and `d[0]`/`d[1]` read the same components as `x`/`y` |
| Vector.Eq | vector.hh:24-28 | operator==, the componentwise test; EqIsEquality states it is equality of vectors |
| Vector.Neq | vector.hh:30-34 | operator!=, the negation of ==; NeqIsInequality states it is inequality |
| Vector.EqIsEquality | vector.hh:24-28 | `==` holds exactly when the two vectors are equal |
| Vector.NeqIsInequality | vector.hh:30-34 | `!=` holds exactly when they differ, always the opposite of `==` |
| Vector.Sub | vector.hh:36-43 | operator-, the componentwise difference; SubThenAdd states that adding b back gives a |
| Vector.Add | vector.hh:52-58 | operator+, the componentwise sum; SubThenAdd states that subtracting b again gives a and that + commutes |
| Vector.SubAssign | vector.hh:45-50 | operator-= on copies: a fresh a - b; SubAssignIsSub states it |
| Vector.SubThenAdd | vector.hh:36-58 | (a - b) + b == a, (a + b) - b == a, and + commutes |
| Vector.SubAssignIsSub | vector.hh:45-50 | `a -= b` yields a - b (its operands are copies) |
| Vector.Mul | vector.hh:60-66 | operator* of two vectors, the componentwise product; MulCommutes states that it commutes |
| Vector.Scale | vector.hh:68-74 | operator* by a scalar; ScaleIsMulBySplat states it is the product with (k, k) |
| Vector.MulCommutes | vector.hh:60-66 | the componentwise product commutes |
| Vector.ScaleIsMulBySplat | vector.hh:68-74 | v * k is (k * v.x, k * v.y), the product with (k, k) |
| Vector.CDiv | vector.hh:79-80 | C's `/`: the remainder is smaller than the divisor in magnitude and has the dividend's sign |
| Vector.Div | vector.hh:76-82 | operator/ by a nonzero scalar, C's `/` per component; DivUndoesScale and DivNegates specify it, and DivTruncates gives an example |
| Vector.CDivOfMultiple | vector.hh:76-82 | C's `/` is exact on multiples of the divisor |
| Vector.DivUndoesScale | vector.hh:76-82 | (v * k) / k == v for every nonzero k |
| Vector.CDivNegates | vector.hh:79-80 | C's `/` is odd in its dividend: (-a) / b == -(a / b) for every a and nonzero b, which floor and Euclidean division break |
| Vector.DivNegates | vector.hh:76-82 | (-v) / k == -(v / k) for every vector and nonzero k |
| Vector.DivTruncates | vector.hh:76-82 | `/` rounds toward zero: (-3, 3) / 2 is (-1, 1) |
| Vector.Perpendicular | vector.hh:84-92 | the quarter turn (-y, x); PerpendicularTwice and PerpendicularOrthogonal specify it |
| Vector.PerpendicularTwice | vector.hh:84-92 | two quarter turns give (-x, -y); four give the vector back |
| Vector.PerpendicularOrthogonal | vector.hh:84-92 | the turned vector is orthogonal to the original and has the same squared length |

## Left out

- Threads: the callback runs on the audio thread and the pushes run on game threads, with no synchronisation. The model runs both operations one after another on a single state, so data races are not represented.
- audio_init / audio_deinit (audio.cc:111-150) and sgl_init_PA / sgl_deinit_PA (portaudio_helpers.h:107-150) are not modelled. They are PortAudio calls, logging and process exit. The same goes for the unused `paTestData` phase state and the callbacks' unused parameters (input buffer, time info, status flags, user data).
- `float` rounding: a sample is decoded to the exact real `s16 / 65536`. The `v2f` instantiation of `Vec2` (vector.hh:22) is not modelled; `Vec2` is modelled at `int`.
- 32-bit integers: counters, cursors and `Vec2` components are unbounded integers, so overflow of `int` and of the `unsigned int` frame counter is not represented.
- Undefined behaviour is modelled up to its first occurrence, with every step the source takes before it. At a NULL write, an out-of-bounds read or a store past the output buffer, the model stops with the matching outcome. For the store past the buffer this includes the two reads and the cursor step that come before it in the same frame. What the C program would do afterwards is not represented.
- Audio.AudioQueue.PushSample: requires room for the appended items (`tail` plus their count at most 1024). PortaudioHelpers.AudioStack.PushSample requires a free slot. The source checks neither, and a push beyond that writes outside the item array.
- PortaudioHelpers.AudioStack.PaCallback: at the second pass it stops with WritePastEnd at the first store past the buffer, after that frame's two reads and cursor step. The source goes on storing past the buffer, and on reading the top item for every further pass. Because of those reads, the stack is not promised consistent after WritePastEnd: the top item may be left at the end of its buffer without being popped.
- PortaudioHelpers.CallbackKeepsConsistent: the invariant is promised for every outcome except WritePastEnd. After WritePastEnd only the items below the top are promised playable; the top item is promised sized with its cursor on a frame boundary, for the reason given in the previous line.
- Vector.Div: requires a nonzero factor, since C's division by zero is undefined.
- Only the audio callbacks and pushes are modelled, not the rest of the game: chew.cc (window, input and render loop) and text.cc (font baking and text layout) are not part of this model.
- The callbacks overwrite the output buffer. Summing several queues into it, rejecting a push on a full queue, and rejecting an empty buffer are features the code does not have, so they are not modelled. The capacity is the code's 1024.
