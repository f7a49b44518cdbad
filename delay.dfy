/** The fixed-capacity ring-buffer delay line `Delay` (src/dsp.rs, lines 1-32).

    `DelayState` is the abstract value of a `Delay`; `Fresh`, `Retime` and `Step`
    are what `new`, `set_time` and `process_sample` do to it, and `Run` feeds a
    whole signal through `Step` one sample at a time. The class `Delay` at the end
    keeps the buffer in an array and is proved to follow these functions. */
module DelayLine {
  import Euclid

  /** Buffer contents, write cursor `inputI`, read cursor `outputI`, last output. */
  datatype DelayState = DelayState(buffer: seq<real>, inputI: nat, outputI: nat, formerOutput: real)

  /** The buffer is non-empty and both cursors index into it. */
  predicate Consistent(s: DelayState)
  {
    |s.buffer| >= 1 && s.inputI < |s.buffer| && s.outputI < |s.buffer|
  }

  /** How many samples the read cursor trails the write cursor, in `[0, len)`. */
  function Distance(s: DelayState): (d: nat)
    requires Consistent(s)
    ensures d < |s.buffer|
    ensures d == 0 <==> s.outputI == s.inputI
    ensures s.outputI + d == s.inputI || s.outputI + d == s.inputI + |s.buffer|
  {
    if s.outputI <= s.inputI then s.inputI - s.outputI else s.inputI - s.outputI + |s.buffer|
  }

  /** `Distance` is `(inputI - outputI) mod len`. */
  lemma {:induction false} DistanceIsRemainder(s: DelayState)
    requires Consistent(s)
    ensures Distance(s) == (s.inputI - s.outputI) % |s.buffer|
  {
    Euclid.ModNear(s.inputI - s.outputI, |s.buffer|);
  }

  /** A cursor advanced by one position around a ring of `len` slots. */
  function Next(i: int, len: int): (j: int)
    requires 0 <= i < len
    ensures 0 <= j < len
  {
    if i + 1 == len then 0 else i + 1
  }

  /** Advancing is `(i + 1) mod len`, as `rem_euclid` computes it. */
  lemma {:induction false} NextIsRemainder(i: int, len: int)
    requires 0 <= i < len
    ensures Next(i, len) == (i + 1) % len
  {
    Euclid.ModNear(i + 1, len);
  }

  /** The sample written `d` writes ago in history `h` (`d == 1` is the latest), or
      0 when the history is shorter than that. */
  function Past(h: seq<real>, d: int): real
  {
    if 1 <= d <= |h| then h[|h| - d] else 0.0
  }

  /** How many writes ago slot `k` was last written, when the next write goes to slot `i`. */
  function Age(i: int, k: int, len: int): int
  {
    if k < i then i - k else i - k + len
  }

  /** Every slot holds the sample of history `h` written `Age` writes ago: the
      buffer is exactly what writing `h` into a zeroed buffer leaves behind. */
  ghost predicate Remembers(s: DelayState, h: seq<real>)
  {
    Consistent(s) &&
    forall k :: 0 <= k < |s.buffer| ==> s.buffer[k] == Past(h, Age(s.inputI, k, |s.buffer|))
  }

  /** `Delay::new` with buffer length `len`: a zeroed buffer, write cursor 0 and
      read cursor `(-time) mod len`, so the read cursor trails by `time mod len`. */
  function Fresh(len: int, time: int): (s: DelayState)
    requires len >= 1
    ensures Consistent(s) && |s.buffer| == len
    ensures s.inputI == 0 && s.formerOutput == 0.0
    ensures forall k :: 0 <= k < len ==> s.buffer[k] == 0.0
    ensures Distance(s) == time % len
    ensures Remembers(s, [])
  {
    var s := DelayState(seq(len, _ => 0.0), 0, (-time) % len, 0.0);
    DistanceIsRemainder(s);
    Euclid.ModSubMod(0, -time, len);
    s
  }

  /** `Delay::set_time`: the read cursor becomes `(-time) mod len` whatever the
      write cursor is, so the delay becomes `(inputI + time) mod len`, not `time`. */
  function Retime(s: DelayState, time: int): (r: DelayState)
    requires Consistent(s)
    ensures Consistent(r)
    ensures r.buffer == s.buffer && r.inputI == s.inputI && r.formerOutput == s.formerOutput
    ensures Distance(r) == (s.inputI + time) % |s.buffer|
  {
    var r := s.(outputI := (-time) % |s.buffer|);
    DistanceIsRemainder(r);
    Euclid.ModSubMod(s.inputI, -time, |s.buffer|);
    r
  }

  /** `Delay::process_sample`: write `x` at the write cursor, read at the read
      cursor after that write, then advance both cursors by one modulo the length. */
  function Step(s: DelayState, x: real): (r: (DelayState, real))
    requires Consistent(s)
    ensures Consistent(r.0) && |r.0.buffer| == |s.buffer|
    ensures r.0.buffer == s.buffer[s.inputI := x]
    ensures r.0.inputI == Next(s.inputI, |s.buffer|) && r.0.outputI == Next(s.outputI, |s.buffer|)
    ensures r.1 == r.0.formerOutput
    ensures s.outputI == s.inputI ==> r.1 == x
    ensures s.outputI != s.inputI ==> r.1 == s.buffer[s.outputI]
  {
    var len := |s.buffer|;
    var buffer := s.buffer[s.inputI := x];
    var out := buffer[s.outputI];
    (DelayState(buffer, Next(s.inputI, len), Next(s.outputI, len), out), out)
  }

  /** A step moves both cursors together, so the delay it realises stays the same. */
  lemma {:induction false} StepKeepsDistance(s: DelayState, x: real)
    requires Consistent(s)
    ensures Distance(Step(s, x).0) == Distance(s)
  {
  }

  /** One step extends the remembered history by the written sample, and the
      sample read is the one written `Distance` steps before it. */
  lemma {:induction false} StepRecall(s: DelayState, h: seq<real>, x: real)
    requires Remembers(s, h)
    ensures Remembers(Step(s, x).0, h + [x])
    ensures Step(s, x).1 == Past(h + [x], Distance(s) + 1)
  {
    var len, i := |s.buffer|, s.inputI;
    var r := Step(s, x).0;
    forall k | 0 <= k < len
      ensures r.buffer[k] == Past(h + [x], Age(r.inputI, k, len))
    {
      if k != i {
        assert Age(r.inputI, k, len) == Age(i, k, len) + 1;
      }
    }
    if s.outputI != i {
      assert Age(i, s.outputI, len) == Distance(s);
    }
  }

  /** Feeds `xs` through the delay in order; the second component is the output signal. */
  function Run(s: DelayState, xs: seq<real>): (r: (DelayState, seq<real>))
    requires Consistent(s)
    ensures Consistent(r.0) && |r.0.buffer| == |s.buffer| && |r.1| == |xs|
    decreases |xs|
  {
    if xs == [] then
      (s, [])
    else
      var prev := Run(s, xs[..|xs| - 1]);
      var next := Step(prev.0, xs[|xs| - 1]);
      (next.0, prev.1 + [next.1])
  }

  /** Running a signal keeps the cursor distance. */
  lemma {:induction false} RunKeepsDistance(s: DelayState, xs: seq<real>)
    requires Consistent(s)
    ensures Distance(Run(s, xs).0) == Distance(s)
    decreases |xs|
  {
    if xs != [] {
      RunKeepsDistance(s, xs[..|xs| - 1]);
      StepKeepsDistance(Run(s, xs[..|xs| - 1]).0, xs[|xs| - 1]);
    }
  }

  /** After `xs` has been fed through, the write cursor has advanced `|xs|` times modulo the length. */
  lemma {:induction false} RunWriteCursor(s: DelayState, xs: seq<real>)
    requires Consistent(s)
    ensures Run(s, xs).0.inputI == (s.inputI + |xs|) % |s.buffer|
    decreases |xs|
  {
    var len := |s.buffer|;
    if xs == [] {
      Euclid.ModNear(s.inputI, len);
    } else {
      var init := xs[..|xs| - 1];
      RunWriteCursor(s, init);
      var i := Run(s, init).0.inputI;
      NextIsRemainder(i, len);
      Euclid.ModAddMod(s.inputI + |init|, 1, len);
    }
  }

  /** Over a whole signal, output `n` is the sample written `Distance` steps before
      input `n` (counting the remembered history `h`), and the buffer remembers `h + xs`. */
  lemma {:induction false} RunRecall(s: DelayState, h: seq<real>, xs: seq<real>)
    requires Remembers(s, h)
    ensures Remembers(Run(s, xs).0, h + xs)
    ensures forall n :: 0 <= n < |xs| ==> Run(s, xs).1[n] == Past(h + xs[..n + 1], Distance(s) + 1)
    decreases |xs|
  {
    if xs != [] {
      var init, last := xs[..|xs| - 1], xs[|xs| - 1];
      assert xs == init + [last];
      RunRecall(s, h, init);
      RunSnoc(s, init, last);
      var prev := Run(s, init);
      RunKeepsDistance(s, init);
      StepRecall(prev.0, h + init, last);
      assert h + init + [last] == h + xs;
      var ys := Run(s, xs).1;
      forall n | 0 <= n < |xs|
        ensures ys[n] == Past(h + xs[..n + 1], Distance(s) + 1)
      {
        if n < |init| {
          assert xs[..n + 1] == init[..n + 1];
          assert ys[n] == prev.1[n];
        } else {
          assert xs[..n + 1] == xs;
        }
      }
    }
  }

  /** Running `xs + [x]` is running `xs`, then one more step. */
  lemma {:induction false} RunSnoc(s: DelayState, xs: seq<real>, x: real)
    requires Consistent(s)
    ensures Run(s, xs + [x]) == (Step(Run(s, xs).0, x).0, Run(s, xs).1 + [Step(Run(s, xs).0, x).1])
  {
    assert (xs + [x])[..|xs|] == xs;
  }

  /** Sample `n - k` of `xs`, or 0 when there is no such sample. */
  function Tap(xs: seq<real>, n: int, k: int): real
  {
    if 0 <= n - k < |xs| then xs[n - k] else 0.0
  }

  /** The reference behaviour of a delay by `t` samples: output `n` is input
      `n - t`, and 0 before the first input has arrived. */
  function Delayed(xs: seq<real>, t: nat): (ys: seq<real>)
    ensures |ys| == |xs|
  {
    seq(|xs|, n requires 0 <= n < |xs| => Tap(xs, n, t))
  }

  /** Looking `t + 1` writes back from input `n` finds input `n - t`. */
  lemma {:induction false} PastOfPrefix(xs: seq<real>, n: int, t: nat)
    requires 0 <= n < |xs|
    ensures Past(xs[..n + 1], t + 1) == Tap(xs, n, t)
  {
  }

  /** A delay whose read cursor trails by `t` and whose buffer is still all
      zeros delays its input by exactly `t` samples. */
  lemma {:induction false} DelayLaw(s: DelayState, t: nat, xs: seq<real>)
    requires Remembers(s, []) && Distance(s) == t
    ensures Run(s, xs).1 == Delayed(xs, t)
  {
    RunRecall(s, [], xs);
    var ys := Run(s, xs).1;
    forall n | 0 <= n < |xs|
      ensures ys[n] == Delayed(xs, t)[n]
    {
      var p := xs[..n + 1];
      assert [] + p == p;
      assert ys[n] == Past(p, t + 1);
      PastOfPrefix(xs, n, t);
    }
  }

  /** A delay built with time `t < len` has its read cursor `t` behind the write cursor. */
  lemma {:induction false} FreshDistance(len: int, t: int)
    requires 0 <= t < len
    ensures Distance(Fresh(len, t)) == t
  {
    Euclid.ModNear(t, len);
  }

  /** A delay built with time `t < len` and never retimed delays its input by exactly `t` samples. */
  lemma {:induction false} FreshDelayLaw(len: int, t: int, xs: seq<real>)
    requires 0 <= t < len
    ensures Run(Fresh(len, t), xs).1 == Delayed(xs, t)
  {
    FreshDistance(len, t);
    DelayLaw(Fresh(len, t), t, xs);
  }

  /** The unit impulse of length `n`: 1 at step 0, 0 afterwards. */
  function Impulse(n: nat): (xs: seq<real>)
    ensures |xs| == n
  {
    seq(n, k => if k == 0 then 1.0 else 0.0)
  }

  /** An impulse fed to a fresh delay with time `t < len` comes out exactly at step
      `t` and nowhere else, however long the signal runs. */
  lemma {:induction false} ImpulseResponse(len: int, t: int, n: nat)
    requires 0 <= t < len
    ensures forall m :: 0 <= m < n ==> Run(Fresh(len, t), Impulse(n)).1[m] == if m == t then 1.0 else 0.0
  {
    FreshDelayLaw(len, t, Impulse(n));
  }

  /** With the read cursor on the write cursor, the delay passes its input
      through unchanged: write-before-read gives zero latency. */
  lemma {:induction false} ZeroDistanceIdentity(s: DelayState, xs: seq<real>)
    requires Consistent(s) && Distance(s) == 0
    ensures Run(s, xs).1 == xs
    decreases |xs|
  {
    if xs != [] {
      var init, last := xs[..|xs| - 1], xs[|xs| - 1];
      ZeroDistanceIdentity(s, init);
      var prev := Run(s, init);
      RunKeepsDistance(s, init);
      assert prev.0.outputI == prev.0.inputI;
      assert Run(s, xs).1 == prev.1 + [Step(prev.0, last).1];
      assert xs == init + [last];
    }
  }

  /** `set_time(t)` on a delay whose write cursor has advanced `k` times
      from `i` yields the delay `(i + k + t) mod len`. */
  lemma {:induction false} RetimeAfterWrites(s: DelayState, len: int, i: int, k: int, t: int)
    requires Consistent(s) && |s.buffer| == len && s.inputI == (i + k) % len
    ensures Distance(Retime(s, t)) == (i + k + t) % len
  {
    Euclid.ModAddMod(i + k, t, len);
    assert (s.inputI + t) % len == (i + k + t) % len;
  }

  /** After `xs` has been fed through, `set_time(t)` yields the delay
      `(inputI + |xs| + t) mod len`, counted from the starting write cursor:
      the write cursor has moved on and `set_time` ignores it. */
  lemma {:induction false} RetimeAfterRun(s: DelayState, xs: seq<real>, t: int)
    requires Consistent(s)
    ensures Distance(Retime(Run(s, xs).0, t)) == (s.inputI + |xs| + t) % |s.buffer|
  {
    RunWriteCursor(s, xs);
    RetimeAfterWrites(Run(s, xs).0, |s.buffer|, s.inputI, |xs|, t);
  }

  /** While the write cursor is still at 0, `set_time(0)` puts the read cursor
      on it, and from then on every input comes straight back out. */
  lemma {:induction false} RetimeZeroIdentity(s: DelayState, xs: seq<real>)
    requires Consistent(s) && s.inputI == 0
    ensures Run(Retime(s, 0), xs).1 == xs
  {
    assert Distance(Retime(s, 0)) == 0 % |s.buffer| == 0;
    ZeroDistanceIdentity(Retime(s, 0), xs);
  }

  /** `set_time(0)` is not an identity once a sample has been processed: with
      length 2, after one sample the next output is the previous input. */
  lemma {:induction false} RetimeZeroNotIdentity()
    ensures Step(Retime(Run(Fresh(2, 0), [1.0]).0, 0), 5.0).1 == 1.0
  {
    var s := Run(Fresh(2, 0), [1.0]).0;
    RunRecall(Fresh(2, 0), [], [1.0]);
    RetimeAfterRun(Fresh(2, 0), [1.0], 0);
    StepRecall(Retime(s, 0), [1.0], 5.0);
  }

  /** A `Delay`: the buffer is allocated once and never replaced. */
  class Delay {
    const buffer: array<real>
    var inputI: nat
    var outputI: nat
    var formerOutput: real

    /** The abstract value of this delay. */
    ghost function State(): DelayState
      reads this, buffer
    {
      DelayState(buffer[..], inputI, outputI, formerOutput)
    }

    /** Both cursors lie in `[0, buffer.Length)` and the buffer is non-empty. */
    ghost predicate Valid()
      reads this
    {
      1 <= buffer.Length && inputI < buffer.Length && outputI < buffer.Length
    }

    constructor (len: int, time: int)
      requires len >= 1
      ensures Valid() && fresh(buffer)
      ensures State() == Fresh(len, time)
    {
      buffer := new real[len](_ => 0.0);
      inputI := 0;
      outputI := (-time) % len;
      formerOutput := 0.0;
      new;
      assert buffer[..] == seq(len, _ => 0.0);
    }

    method SetTime(time: int)
      requires Valid()
      modifies this
      ensures Valid()
      ensures State() == Retime(old(State()), time)
    {
      outputI := (-time) % buffer.Length;
    }

    method ProcessSample(x: real) returns (y: real)
      requires Valid()
      modifies this, buffer
      ensures Valid()
      ensures (State(), y) == Step(old(State()), x)
    {
      buffer[inputI] := x;
      formerOutput := buffer[outputI];
      NextIsRemainder(inputI, buffer.Length);
      NextIsRemainder(outputI, buffer.Length);
      inputI := (inputI + 1) % buffer.Length;
      outputI := (outputI + 1) % buffer.Length;
      y := formerOutput;
    }
  }
}
