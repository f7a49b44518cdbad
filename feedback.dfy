/** `DelayWithFeedback` (src/dsp.rs, lines 34-67): a primary delay whose output
    returns, through a second delay of the same time and weighted by `feedback`,
    into its own next input.

    `FeedbackState` is the abstract value; `Fresh`, `Retime`, `Retune` and `Step`
    are what `new`, `set_time`, `set_feedback` and `process_sample` do to it.
    The class at the end is proved to follow them. */
module FeedbackDelay {
  import DelayLine

  /** The two inner delays, the coefficient and the last output of each delay. */
  datatype FeedbackState = FeedbackState(
    delay: DelayLine.DelayState,
    feedbackDelay: DelayLine.DelayState,
    feedback: real,
    former: real,
    formerFeedback: real)

  /** Both inner delays are consistent and run in lockstep: same length, same
      write cursor, same read cursor. */
  predicate Consistent(s: FeedbackState)
  {
    DelayLine.Consistent(s.delay) && DelayLine.Consistent(s.feedbackDelay) &&
    |s.delay.buffer| == |s.feedbackDelay.buffer| &&
    s.delay.inputI == s.feedbackDelay.inputI && s.delay.outputI == s.feedbackDelay.outputI
  }

  /** `DelayWithFeedback::new`: both delays built from the same length and time,
      both remembered outputs 0. */
  function Fresh(len: int, time: int, feedback: real): (s: FeedbackState)
    requires len >= 1
    ensures Consistent(s)
    ensures s.delay == DelayLine.Fresh(len, time) && s.feedbackDelay == DelayLine.Fresh(len, time)
    ensures s.feedback == feedback && s.former == 0.0 && s.formerFeedback == 0.0
  {
    FeedbackState(DelayLine.Fresh(len, time), DelayLine.Fresh(len, time), feedback, 0.0, 0.0)
  }

  /** `DelayWithFeedback::set_time`: the same time applied to both delays, so
      they keep realising the same delay. */
  function Retime(s: FeedbackState, time: int): (r: FeedbackState)
    requires Consistent(s)
    ensures Consistent(r)
    ensures r.delay == DelayLine.Retime(s.delay, time) && r.feedbackDelay == DelayLine.Retime(s.feedbackDelay, time)
    ensures r.feedback == s.feedback && r.former == s.former && r.formerFeedback == s.formerFeedback
    ensures DelayLine.Distance(r.delay) == DelayLine.Distance(r.feedbackDelay)
  {
    s.(delay := DelayLine.Retime(s.delay, time), feedbackDelay := DelayLine.Retime(s.feedbackDelay, time))
  }

  /** `DelayWithFeedback::set_feedback`: the coefficient used from the next call
      on; the delays and the remembered outputs are untouched. */
  function Retune(s: FeedbackState, feedback: real): (r: FeedbackState)
    requires Consistent(s)
    ensures Consistent(r)
    ensures r.feedback == feedback
    ensures r.delay == s.delay && r.feedbackDelay == s.feedbackDelay
    ensures r.former == s.former && r.formerFeedback == s.formerFeedback
  {
    s.(feedback := feedback)
  }

  /** What the primary delay is fed on input `x`: `x` plus `feedback` times the
      feedback delay's previous output. */
  function Input(s: FeedbackState, x: real): real
  {
    x + s.feedback * s.formerFeedback
  }

  /** `DelayWithFeedback::process_sample`. The primary delay is fed the input
      plus `feedback` times the OLD feedback-delay output; its output becomes
      `former` and is then fed to the feedback delay, whose output becomes the
      new `formerFeedback`. The result is the new `former`. */
  function Step(s: FeedbackState, x: real): (r: (FeedbackState, real))
    requires Consistent(s)
    ensures Consistent(r.0)
    ensures (r.0.delay, r.1) == DelayLine.Step(s.delay, Input(s, x))
    ensures (r.0.feedbackDelay, r.0.formerFeedback) == DelayLine.Step(s.feedbackDelay, r.1)
    ensures r.0.feedback == s.feedback && r.0.former == r.1
  {
    var (delay, former) := DelayLine.Step(s.delay, Input(s, x));
    var (feedbackDelay, formerFeedback) := DelayLine.Step(s.feedbackDelay, former);
    (FeedbackState(delay, feedbackDelay, s.feedback, former, formerFeedback), former)
  }

  /** At delay time 0 the loop closes within one call: the output is the input
      plus `feedback` times the previous output, and is also the new `formerFeedback`. */
  lemma {:induction false} ZeroTimeStep(s: FeedbackState, x: real)
    requires Consistent(s) && DelayLine.Distance(s.delay) == 0
    ensures Step(s, x).1 == Input(s, x)
    ensures Step(s, x).0.formerFeedback == Step(s, x).1
  {
  }

  /** Feeds `xs` through in order; the second component is the output signal. */
  function Run(s: FeedbackState, xs: seq<real>): (r: (FeedbackState, seq<real>))
    requires Consistent(s)
    ensures Consistent(r.0) && |r.1| == |xs| && r.0.feedback == s.feedback
    decreases |xs|
  {
    if xs == [] then
      (s, [])
    else
      var prev := Run(s, xs[..|xs| - 1]);
      var next := Step(prev.0, xs[|xs| - 1]);
      (next.0, prev.1 + [next.1])
  }

  /** Running `xs + [x]` is running `xs`, then one more step. */
  lemma {:induction false} RunSnoc(s: FeedbackState, xs: seq<real>, x: real)
    requires Consistent(s)
    ensures Run(s, xs + [x]) == (Step(Run(s, xs).0, x).0, Run(s, xs).1 + [Step(Run(s, xs).0, x).1])
  {
    assert (xs + [x])[..|xs|] == xs;
  }

  /** The reference recurrence of the loop with coefficient `g` and time `t`:
      `y[n] = x[n - t] + g * y[n - 2t - 1]`, missing samples read as 0. The loop
      delay is `2t + 1`: `t` in each inner delay and one more because the
      feedback output is only used on the next call. */
  function Recurrence(xs: seq<real>, g: real, t: nat): (ys: seq<real>)
    ensures |ys| == |xs|
    decreases |xs|
  {
    if xs == [] then []
    else
      var prev := Recurrence(xs[..|xs| - 1], g, t);
      prev + [Feed(xs, prev, g, t, |xs| - 1)]
  }

  /** The right-hand side of the recurrence at sample `n`, given the inputs
      `xs` and the outputs `ys` so far. */
  function Feed(xs: seq<real>, ys: seq<real>, g: real, t: nat, n: int): real
  {
    DelayLine.Tap(xs, n, t) + g * DelayLine.Tap(ys, n, 2 * t + 1)
  }

  /** Every sample of `Recurrence` satisfies the recurrence. */
  lemma {:induction false} RecurrenceAt(xs: seq<real>, g: real, t: nat, n: int)
    requires 0 <= n < |xs|
    ensures Recurrence(xs, g, t)[n] ==
              DelayLine.Tap(xs, n, t) + g * DelayLine.Tap(Recurrence(xs, g, t), n, 2 * t + 1)
    decreases |xs|
  {
    var init := xs[..|xs| - 1];
    var prev := Recurrence(init, g, t);
    var ys := Recurrence(xs, g, t);
    assert ys == prev + [Feed(xs, prev, g, t, |xs| - 1)];
    if n < |init| {
      RecurrenceAt(init, g, t, n);
      assert DelayLine.Tap(init, n, t) == DelayLine.Tap(xs, n, t);
      assert DelayLine.Tap(prev, n, 2 * t + 1) == DelayLine.Tap(ys, n, 2 * t + 1);
    } else {
      assert DelayLine.Tap(prev, n, 2 * t + 1) == DelayLine.Tap(ys, n, 2 * t + 1);
    }
  }

  /** The inputs the primary delay has received: input `n` plus `g` times the
      feedback-delay output of the call before, which is output `n - 1 - t`. */
  function PrimaryInputs(xs: seq<real>, ys: seq<real>, g: real, t: nat): (vs: seq<real>)
    ensures |vs| == |xs|
  {
    seq(|xs|, n requires 0 <= n < |xs| => xs[n] + g * DelayLine.Tap(ys, n - 1, t))
  }

  /** What a fresh pair with time `t` looks like after `xs`, with outputs `ys`:
      the primary delay remembers its inputs, the feedback delay remembers the
      outputs, both trail by `t`, and `formerFeedback` is output `|xs| - 1 - t`. */
  ghost predicate Tracks(s: FeedbackState, xs: seq<real>, ys: seq<real>, g: real, t: nat)
  {
    Consistent(s) && s.feedback == g && |ys| == |xs| &&
    DelayLine.Distance(s.delay) == t &&
    DelayLine.Remembers(s.delay, PrimaryInputs(xs, ys, g, t)) &&
    DelayLine.Remembers(s.feedbackDelay, ys) &&
    s.formerFeedback == DelayLine.Tap(ys, |xs| - 1, t)
  }

  /** Appending an input and an output extends the primary inputs by the
      newest one, `v`; the output just appended is not used yet. */
  lemma {:induction false} PrimaryInputsSnoc(xs: seq<real>, ys: seq<real>, g: real, t: nat, x: real, y: real, v: real)
    requires |ys| == |xs| && v == x + g * DelayLine.Tap(ys, |xs| - 1, t)
    ensures PrimaryInputs(xs + [x], ys + [y], g, t) == PrimaryInputs(xs, ys, g, t) + [v]
  {
    var l, r := PrimaryInputs(xs + [x], ys + [y], g, t), PrimaryInputs(xs, ys, g, t) + [v];
    forall n | 0 <= n < |l|
      ensures l[n] == r[n]
    {
      assert DelayLine.Tap(ys + [y], n - 1, t) == DelayLine.Tap(ys, n - 1, t);
    }
  }

  /** Appending one input extends `Recurrence` by the recurrence's next sample. */
  lemma {:induction false} RecurrenceSnoc(xs: seq<real>, g: real, t: nat, x: real)
    ensures Recurrence(xs + [x], g, t) == Recurrence(xs, g, t) + [Feed(xs + [x], Recurrence(xs, g, t), g, t, |xs|)]
  {
    assert (xs + [x])[..|xs|] == xs;
  }

  /** The primary delay's output `t` samples after primary input `n - t` is the
      next sample of the recurrence. */
  lemma {:induction false} PrimaryOutputIsRecurrence(xs: seq<real>, ys: seq<real>, g: real, t: nat, x: real, v: real)
    requires |ys| == |xs| && v == x + g * DelayLine.Tap(ys, |xs| - 1, t)
    ensures DelayLine.Past(PrimaryInputs(xs, ys, g, t) + [v], t + 1) == Feed(xs + [x], ys, g, t, |xs|)
  {
    var n, ps := |xs|, PrimaryInputs(xs, ys, g, t);
    if t > 0 && n >= t {
      assert (ps + [v])[n - t] == ps[n - t];
      assert DelayLine.Tap(ys, n - t - 1, t) == DelayLine.Tap(ys, n, 2 * t + 1);
    }
  }

  /** One step of a tracked pair produces the next sample of `Recurrence`. */
  lemma {:induction false} StepOutput(s: FeedbackState, xs: seq<real>, ys: seq<real>, g: real, t: nat, x: real)
    requires Tracks(s, xs, ys, g, t)
    ensures Step(s, x).1 == Feed(xs + [x], ys, g, t, |xs|)
  {
    var v := Input(s, x);
    DelayLine.StepRecall(s.delay, PrimaryInputs(xs, ys, g, t), v);
    PrimaryOutputIsRecurrence(xs, ys, g, t, x, v);
  }

  /** After one step the primary delay remembers the primary inputs, now
      including `x` plus `g` times the old feedback output. */
  lemma {:induction false} StepRemembersInputs(s: FeedbackState, xs: seq<real>, ys: seq<real>, g: real, t: nat, x: real, y: real)
    requires Consistent(s) && s.feedback == g && |ys| == |xs|
    requires DelayLine.Remembers(s.delay, PrimaryInputs(xs, ys, g, t))
    requires s.formerFeedback == DelayLine.Tap(ys, |xs| - 1, t)
    ensures DelayLine.Remembers(Step(s, x).0.delay, PrimaryInputs(xs + [x], ys + [y], g, t))
  {
    var v := Input(s, x);
    var ps := PrimaryInputs(xs, ys, g, t);
    assert v == x + g * DelayLine.Tap(ys, |xs| - 1, t);
    PrimaryInputsSnoc(xs, ys, g, t, x, y, v);
    DelayLine.StepRecall(s.delay, ps, v);
    assert Step(s, x).0.delay == DelayLine.Step(s.delay, v).0;
  }

  /** After one step the feedback delay remembers the outputs, now including
      `y`, and its own output is output `|xs| - t`. */
  lemma {:induction false} StepRemembersOutputs(s: FeedbackState, xs: seq<real>, ys: seq<real>, g: real, t: nat, x: real)
    requires Tracks(s, xs, ys, g, t)
    ensures DelayLine.Remembers(Step(s, x).0.feedbackDelay, ys + [Step(s, x).1])
    ensures Step(s, x).0.formerFeedback == DelayLine.Tap(ys + [Step(s, x).1], |xs|, t)
  {
    var y := Step(s, x).1;
    DelayLine.StepRecall(s.feedbackDelay, ys, y);
    assert DelayLine.Distance(s.feedbackDelay) == t;
    assert DelayLine.Past(ys + [y], t + 1) == DelayLine.Tap(ys + [y], |xs|, t);
  }

  /** One step keeps a pair tracked. */
  lemma {:induction false} StepTracks(s: FeedbackState, xs: seq<real>, ys: seq<real>, g: real, t: nat, x: real)
    requires Tracks(s, xs, ys, g, t)
    ensures Tracks(Step(s, x).0, xs + [x], ys + [Step(s, x).1], g, t)
  {
    StepRemembersInputs(s, xs, ys, g, t, x, Step(s, x).1);
    StepRemembersOutputs(s, xs, ys, g, t, x);
    DelayLine.StepKeepsDistance(s.delay, Input(s, x));
  }

  /** A fresh pair with time `t < len` is tracked with no history. */
  lemma {:induction false} FreshTracks(len: int, t: nat, g: real)
    requires t < len
    ensures Tracks(Fresh(len, t, g), [], [], g, t)
  {
    DelayLine.FreshDistance(len, t);
    assert PrimaryInputs([], [], g, t) == [];
  }

  /** One step of a pair that has produced `Recurrence` so far produces its
      next sample and stays tracked. */
  lemma {:induction false} StepRecurrence(s: FeedbackState, xs: seq<real>, g: real, t: nat, x: real)
    requires Tracks(s, xs, Recurrence(xs, g, t), g, t)
    ensures Recurrence(xs + [x], g, t) == Recurrence(xs, g, t) + [Step(s, x).1]
    ensures Tracks(Step(s, x).0, xs + [x], Recurrence(xs + [x], g, t), g, t)
  {
    var ys := Recurrence(xs, g, t);
    StepTracks(s, xs, ys, g, t, x);
    StepOutput(s, xs, ys, g, t, x);
    RecurrenceSnoc(xs, g, t, x);
  }

  /** Induction over the signal: a pair tracked with no history stays tracked
      and produces `Recurrence`. */
  lemma {:induction false} RunTracks(s: FeedbackState, g: real, t: nat, xs: seq<real>)
    requires Tracks(s, [], [], g, t)
    ensures Run(s, xs).1 == Recurrence(xs, g, t)
    ensures Tracks(Run(s, xs).0, xs, Recurrence(xs, g, t), g, t)
    decreases |xs|
  {
    if xs != [] {
      var init, last := xs[..|xs| - 1], xs[|xs| - 1];
      assert xs == init + [last];
      RunTracks(s, g, t, init);
      RunSnoc(s, init, last);
      StepRecurrence(Run(s, init).0, init, g, t, last);
    }
  }

  /** A freshly built pair with time `t < len` and coefficient `g` computes
      `y[n] = x[n - t] + g * y[n - 2t - 1]`. */
  lemma {:induction false} FeedbackLaw(len: int, t: nat, g: real, xs: seq<real>)
    requires t < len
    ensures Run(Fresh(len, t, g), xs).1 == Recurrence(xs, g, t)
  {
    FreshTracks(len, t, g);
    RunTracks(Fresh(len, t, g), g, t, xs);
  }

  /** With coefficient 0 the loop is open: the recurrence is the plain delay by `t`. */
  lemma {:induction false} RecurrenceZeroGain(xs: seq<real>, t: nat)
    ensures Recurrence(xs, 0.0, t) == DelayLine.Delayed(xs, t)
  {
    var ys := Recurrence(xs, 0.0, t);
    forall n | 0 <= n < |xs|
      ensures ys[n] == DelayLine.Delayed(xs, t)[n]
    {
      RecurrenceAt(xs, 0.0, t, n);
    }
  }

  /** Before the loop delay `2t + 1` has passed, nothing has come round the
      loop yet and the output is the input delayed by `t`. */
  lemma {:induction false} RecurrenceEarly(xs: seq<real>, g: real, t: nat, n: int)
    requires 0 <= n < |xs| && n < 2 * t + 1
    ensures Recurrence(xs, g, t)[n] == DelayLine.Tap(xs, n, t)
  {
    RecurrenceAt(xs, g, t, n);
  }

  /** The recurrence's response to an impulse: 1 at step `t`, the first echo
      `g` at step `3t + 1`, and 0 at every other step before that. */
  lemma {:induction false} RecurrenceImpulse(g: real, t: nat, n: nat)
    ensures forall m :: 0 <= m < n && m < 3 * t + 2 ==>
              Recurrence(DelayLine.Impulse(n), g, t)[m] == (if m == t then 1.0 else 0.0) + (if m == 3 * t + 1 then g else 0.0)
  {
    var xs := DelayLine.Impulse(n);
    var ys := Recurrence(xs, g, t);
    forall m | 0 <= m < n && m < 3 * t + 2
      ensures ys[m] == (if m == t then 1.0 else 0.0) + (if m == 3 * t + 1 then g else 0.0)
    {
      RecurrenceAt(xs, g, t, m);
      if m >= 2 * t + 1 {
        RecurrenceEarly(xs, g, t, m - 2 * t - 1);
      }
    }
  }

  /** An impulse fed to a fresh pair with time `t < len` comes out at step `t`
      with weight 1, and its first echo, weighted by `g`, at step `3t + 1`. */
  lemma {:induction false} ImpulseEchoes(len: int, t: nat, g: real, n: nat)
    requires t < len
    ensures forall m :: 0 <= m < n && m < 3 * t + 2 ==>
              Run(Fresh(len, t, g), DelayLine.Impulse(n)).1[m] ==
                (if m == t then 1.0 else 0.0) + (if m == 3 * t + 1 then g else 0.0)
  {
    FeedbackLaw(len, t, g, DelayLine.Impulse(n));
    RecurrenceImpulse(g, t, n);
  }

  /** A `DelayWithFeedback`. The inner delays are fixed at construction. */
  class DelayWithFeedback {
    const delay: DelayLine.Delay
    const feedbackDelay: DelayLine.Delay
    var feedback: real
    var former: real
    var formerFeedback: real

    /** The objects this pair owns. */
    ghost function Repr(): set<object>
    {
      {this, delay, delay.buffer, feedbackDelay, feedbackDelay.buffer}
    }

    /** The inner delays and their buffers are distinct, each is valid, and
        they run in lockstep. */
    ghost predicate Valid()
      reads Repr()
    {
      delay != feedbackDelay && delay.buffer != feedbackDelay.buffer &&
      delay.Valid() && feedbackDelay.Valid() && Consistent(State())
    }

    /** The abstract value of this pair. */
    ghost function State(): FeedbackState
      reads Repr()
    {
      FeedbackState(delay.State(), feedbackDelay.State(), feedback, former, formerFeedback)
    }

    constructor (len: int, time: int, feedback: real)
      requires len >= 1
      ensures Valid() && fresh(Repr())
      ensures State() == Fresh(len, time, feedback)
    {
      delay := new DelayLine.Delay(len, time);
      feedbackDelay := new DelayLine.Delay(len, time);
      this.feedback := feedback;
      former := 0.0;
      formerFeedback := 0.0;
    }

    method SetFeedback(feedback: real)
      requires Valid()
      modifies this
      ensures Valid()
      ensures State() == Retune(old(State()), feedback)
    {
      this.feedback := feedback;
    }

    method SetTime(time: int)
      requires Valid()
      modifies delay, feedbackDelay
      ensures Valid()
      ensures State() == Retime(old(State()), time)
    {
      delay.SetTime(time);
      feedbackDelay.SetTime(time);
    }

    method ProcessSample(x: real) returns (y: real)
      requires Valid()
      modifies Repr()
      ensures Valid()
      ensures (State(), y) == Step(old(State()), x)
    {
      ghost var s := State();
      assert s.delay == delay.State();
      var v := x + feedback * formerFeedback;
      assert v == Input(s, x);
      former := delay.ProcessSample(v);
      assert delay.State() == DelayLine.Step(s.delay, v).0;
      assert feedbackDelay.State() == s.feedbackDelay;
      assert (delay.State(), former) == DelayLine.Step(s.delay, Input(s, x));
      formerFeedback := feedbackDelay.ProcessSample(former);
      y := former;
      assert delay.State() == Step(s, x).0.delay;
    }
  }
}
