/** Definitions shared by both iterations of the sample queue: the capacity of
    the item array, the 16-bit sample type and the fixed-point to float
    conversion the mixing callback applies to every sample. */
module Samples {

  /** Option, used for the callback's `qitem` pointer (None is NULL). */
  datatype Option<+T> = None | Some(value: T)

  /** How a callback invocation ends: it returns a status code to PortAudio,
      or it stops in undefined behaviour or an assertion failure, after which
      nothing more is written and the state is whatever it was at that point.
      - NullWrite: a store through a NULL item pointer;
      - ReadPastEnd: a read outside the item slots or outside an item's buffer;
      - AssertFailed: the `assert` that the cursor has not passed the item's end;
      - WritePastEnd: a store through `out` past the 2 * framesPerBuffer
        floats of the output buffer.
      As a frame's outcome, Returned(0) means the frame completed normally. */
  datatype Outcome = Returned(code: int) | NullWrite | ReadPastEnd | AssertFailed | WritePastEnd

  /** k_max_samples_queued: the number of item slots of the queue and of the stack. */
  const MAX_SAMPLES_QUEUED: int := 1024

  /** A C `short`: a signed 16-bit sample. */
  type Int16 = x: int | -32768 <= x <= 32767

  /** `(float)s16 / (1 << 16)`, taken exactly: the model does not round to `float`.
      The result lies in [-1/2, 1/2) and scaling it back by 2^16 gives the sample. */
  function Decode(s: Int16): (r: real)
    ensures -0.5 <= r < 0.5
    ensures r * 65536.0 == s as real
  {
    s as real / 65536.0
  }

  /** n output floats of silence. */
  function Silence(n: nat): (r: seq<real>)
    ensures |r| == n
    ensures forall k :: 0 <= k < n ==> r[k] == 0.0
  {
    seq(n, _ => 0.0)
  }

  /** The samples of a buffer, decoded one by one in order. */
  function DecodeAll(s: seq<Int16>): (r: seq<real>)
    ensures |r| == |s|
    ensures forall k :: 0 <= k < |s| ==> r[k] == Decode(s[k])
  {
    seq(|s|, k requires 0 <= k < |s| => Decode(s[k]))
  }

  lemma SilenceConcat(a: nat, b: nat)
    ensures Silence(a) + Silence(b) == Silence(a + b)
  {
  }

  /** Decoding one more frame (two samples) extends the decoded prefix. */
  lemma DecodeAllExtend(s: seq<Int16>, p: nat, q: nat)
    requires p <= q && q + 2 <= |s|
    ensures DecodeAll(s[p..q]) + [Decode(s[q]), Decode(s[q + 1])] == DecodeAll(s[p..q + 2])
  {
  }

  /** What a part of a callback invocation did: every float written through
      `out`, the state afterwards and how it ended. */
  datatype Result<S> = Result(written: seq<real>, state: S, outcome: Outcome)

  /** n iterations of a frame loop whose iteration is `step`: the floats of
      all of them in order, and nothing further after a fault. */
  function Run<S>(step: S -> Result<S>, s: S, n: nat): (r: Result<S>)
  {
    if n == 0 then Result([], s, Returned(0))
    else
      var r := Run(step, s, n - 1);
      if r.outcome != Returned(0) then r
      else
        var t := step(r.state);
        Result(r.written + t.written, t.state, t.outcome)
  }

  /** Running a + b iterations is running a and then b more from where the
      first a left the state. */
  lemma {:induction false} RunSplit<S>(step: S -> Result<S>, s: S, a: nat, b: nat)
    requires Run(step, s, a).outcome == Returned(0)
    ensures var r := Run(step, s, a);
      var t := Run(step, r.state, b);
      Run(step, s, a + b) == Result(r.written + t.written, t.state, t.outcome)
  {
    if b > 0 {
      RunSplit(step, s, a, b - 1);
      var r := Run(step, s, a);
      var t := Run(step, r.state, b - 1);
      if t.outcome == Returned(0) {
        var u := step(t.state);
        assert r.written + t.written + u.written == r.written + (t.written + u.written);
      }
    }
  }

  /** Nothing happens after a fault: asking for more iterations gives the
      same result. */
  lemma {:induction false} RunFaultIsFinal<S>(step: S -> Result<S>, s: S, m: nat, n: nat)
    requires m <= n && Run(step, s, m).outcome != Returned(0)
    ensures Run(step, s, n) == Run(step, s, m)
  {
    if m < n {
      RunFaultIsFinal(step, s, m, n - 1);
    }
  }

  /** One more iteration extends the run by what `step` does from where the
      run stopped. */
  lemma RunStep<S>(step: S -> Result<S>, s: S, n: nat)
    requires Run(step, s, n).outcome == Returned(0)
    ensures var r := Run(step, s, n);
      var t := step(r.state);
      Run(step, s, n + 1) == Result(r.written + t.written, t.state, t.outcome)
  {
  }
}
