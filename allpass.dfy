/** `Allpass` (src/dsp.rs, lines 69-93): a `DelayWithFeedback` whose coefficient
    is the gain `g`, mixed with the dry input as `x * -g + w * (1 - g^2)`.

    `AllpassState` is the abstract value; `Fresh`, `Retime`, `Retune` and `Step`
    are what `new`, `set_time`, `set_g` and `process_sample` do to it. The
    class at the end is proved to follow them. */
module AllpassFilter {
  import DelayLine
  import FeedbackDelay

  /** The inner feedback pair and the gain. */
  datatype AllpassState = AllpassState(inner: FeedbackDelay.FeedbackState, g: real)

  /** The inner pair is consistent and its coefficient is the gain: `new` and
      `set_g` always set the two together. */
  predicate Consistent(s: AllpassState)
  {
    FeedbackDelay.Consistent(s.inner) && s.inner.feedback == s.g
  }

  /** `Allpass::new`: a fresh pair whose coefficient is `g`. */
  function Fresh(len: int, time: int, g: real): (s: AllpassState)
    requires len >= 1
    ensures Consistent(s)
    ensures s.inner == FeedbackDelay.Fresh(len, time, g) && s.g == g
  {
    AllpassState(FeedbackDelay.Fresh(len, time, g), g)
  }

  /** `Allpass::set_time`: retimes the inner pair; the gain is untouched. */
  function Retime(s: AllpassState, time: int): (r: AllpassState)
    requires Consistent(s)
    ensures Consistent(r)
    ensures r.inner == FeedbackDelay.Retime(s.inner, time) && r.g == s.g
  {
    s.(inner := FeedbackDelay.Retime(s.inner, time))
  }

  /** `Allpass::set_g`: the new gain becomes the inner coefficient too, and
      nothing else changes. */
  function Retune(s: AllpassState, g: real): (r: AllpassState)
    requires Consistent(s)
    ensures Consistent(r)
    ensures r.g == g && r.inner.feedback == g
    ensures r.inner.delay == s.inner.delay && r.inner.feedbackDelay == s.inner.feedbackDelay
    ensures r.inner.former == s.inner.former && r.inner.formerFeedback == s.inner.formerFeedback
  {
    AllpassState(FeedbackDelay.Retune(s.inner, g), g)
  }

  /** The output mix: the input weighted by `-g` plus the loop output `w`
      weighted by `1 - g^2`. */
  function Mix(g: real, x: real, w: real): real
  {
    x * -g + w * (1.0 - g * g)
  }

  /** `Allpass::process_sample`: one step of the inner pair on the same input,
      mixed with the input. */
  function Step(s: AllpassState, x: real): (r: (AllpassState, real))
    requires Consistent(s)
    ensures Consistent(r.0) && r.0.g == s.g
    ensures r.0.inner == FeedbackDelay.Step(s.inner, x).0
    ensures r.1 == Mix(s.g, x, FeedbackDelay.Step(s.inner, x).1)
  {
    var (inner, w) := FeedbackDelay.Step(s.inner, x);
    (AllpassState(inner, s.g), Mix(s.g, x, w))
  }

  /** With gain 0 the dry path vanishes and the output is the loop output. */
  lemma {:induction false} ZeroGainStep(s: AllpassState, x: real)
    requires Consistent(s) && s.g == 0.0
    ensures Step(s, x).1 == FeedbackDelay.Step(s.inner, x).1
  {
  }

  /** Feeds `xs` through in order; the second component is the output signal. */
  function Run(s: AllpassState, xs: seq<real>): (r: (AllpassState, seq<real>))
    requires Consistent(s)
    ensures Consistent(r.0) && |r.1| == |xs| && r.0.g == s.g
    decreases |xs|
  {
    if xs == [] then
      (s, [])
    else
      var prev := Run(s, xs[..|xs| - 1]);
      var next := Step(prev.0, xs[|xs| - 1]);
      (next.0, prev.1 + [next.1])
  }

  /** Running `xs + [x]` is running `xs`, then one more step. */
  lemma {:induction false} RunSnoc(s: AllpassState, xs: seq<real>, x: real)
    requires Consistent(s)
    ensures Run(s, xs + [x]) == (Step(Run(s, xs).0, x).0, Run(s, xs).1 + [Step(Run(s, xs).0, x).1])
  {
    assert (xs + [x])[..|xs|] == xs;
  }

  /** Over a whole signal, the inner pair runs exactly as a `DelayWithFeedback`
      on the same input, and each output sample mixes the input sample with the
      pair's output sample. */
  lemma {:induction false} RunIsMix(s: AllpassState, xs: seq<real>)
    requires Consistent(s)
    ensures Run(s, xs).0.inner == FeedbackDelay.Run(s.inner, xs).0
    ensures forall n :: 0 <= n < |xs| ==>
              Run(s, xs).1[n] == Mix(s.g, xs[n], FeedbackDelay.Run(s.inner, xs).1[n])
    decreases |xs|
  {
    if xs != [] {
      var init, last := xs[..|xs| - 1], xs[|xs| - 1];
      assert xs == init + [last];
      RunIsMix(s, init);
      RunSnoc(s, init, last);
      FeedbackDelay.RunSnoc(s.inner, init, last);
    }
  }

  /** A freshly built filter with time `t < len` and gain `g` mixes the input
      with the loop's recurrence `w[n] = x[n - t] + g * w[n - 2t - 1]`. */
  lemma {:induction false} AllpassLaw(len: int, t: nat, g: real, xs: seq<real>)
    requires t < len
    ensures forall n :: 0 <= n < |xs| ==>
              Run(Fresh(len, t, g), xs).1[n] == xs[n] * -g + FeedbackDelay.Recurrence(xs, g, t)[n] * (1.0 - g * g)
  {
    RunIsMix(Fresh(len, t, g), xs);
    FeedbackDelay.FeedbackLaw(len, t, g, xs);
  }

  /** With gain 0 a fresh filter is a plain delay by `t`. */
  lemma {:induction false} ZeroGainIsDelay(len: int, t: nat, xs: seq<real>)
    requires t < len
    ensures Run(Fresh(len, t, 0.0), xs).1 == DelayLine.Delayed(xs, t)
  {
    AllpassLaw(len, t, 0.0, xs);
    FeedbackDelay.RecurrenceZeroGain(xs, t);
  }

  /** The start of the impulse response of a fresh filter with time `t > 0`:
      `-g` at once, `1 - g^2` at step `t`, the first echo `g * (1 - g^2)` at
      step `3t + 1`, and silence at every other step up to there. */
  lemma {:induction false} ImpulseResponse(len: int, t: nat, g: real, n: nat)
    requires 0 < t < len
    ensures forall m :: 0 <= m < n && m < 3 * t + 2 ==>
              Run(Fresh(len, t, g), DelayLine.Impulse(n)).1[m] ==
                if m == 0 then -g
                else if m == t then 1.0 - g * g
                else if m == 3 * t + 1 then g * (1.0 - g * g)
                else 0.0
  {
    var xs := DelayLine.Impulse(n);
    AllpassLaw(len, t, g, xs);
    FeedbackDelay.RecurrenceImpulse(g, t, n);
    var w := FeedbackDelay.Recurrence(xs, g, t);
    var ys := Run(Fresh(len, t, g), xs).1;
    forall m | 0 <= m < n && m < 3 * t + 2
      ensures ys[m] ==
                if m == 0 then -g
                else if m == t then 1.0 - g * g
                else if m == 3 * t + 1 then g * (1.0 - g * g)
                else 0.0
    {
      var a, b := xs[m], w[m];
      assert b == if m == t then 1.0 else if m == 3 * t + 1 then g else 0.0;
      assert ys[m] == a * -g + b * (1.0 - g * g);
    }
  }

  /** An `Allpass`. The inner pair is fixed at construction. */
  class Allpass {
    const delay: FeedbackDelay.DelayWithFeedback
    var g: real

    /** The objects this filter owns. */
    ghost function Repr(): set<object>
    {
      {this} + delay.Repr()
    }

    /** The inner pair is valid and does not contain this object, and its
        coefficient is the gain. */
    ghost predicate Valid()
      reads Repr()
    {
      this !in delay.Repr() && delay.Valid() && Consistent(State())
    }

    /** The abstract value of this filter. */
    ghost function State(): AllpassState
      reads Repr()
    {
      AllpassState(delay.State(), g)
    }

    constructor (len: int, time: int, g: real)
      requires len >= 1
      ensures Valid() && fresh(Repr())
      ensures State() == Fresh(len, time, g)
    {
      delay := new FeedbackDelay.DelayWithFeedback(len, time, g);
      this.g := g;
    }

    method SetTime(time: int)
      requires Valid()
      modifies delay.delay, delay.feedbackDelay
      ensures Valid()
      ensures State() == Retime(old(State()), time)
    {
      delay.SetTime(time);
    }

    method SetG(g: real)
      requires Valid()
      modifies this, delay
      ensures Valid()
      ensures State() == Retune(old(State()), g)
    {
      this.g := g;
      delay.SetFeedback(g);
    }

    method ProcessSample(x: real) returns (y: real)
      requires Valid()
      modifies delay.Repr()
      ensures Valid()
      ensures (State(), y) == Step(old(State()), x)
    {
      ghost var s := State();
      var w := delay.ProcessSample(x);
      assert (delay.State(), w) == FeedbackDelay.Step(s.inner, x);
      y := (x * -g) + (w * (1.0 - g * g));
      assert y == Mix(s.g, x, w);
    }
  }
}
