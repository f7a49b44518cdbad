# Delay-line core of a Schroeder-style reverb, in Dafny

This project models the three signal-processing structs of `src/dsp.rs`:

- `Delay` is a fixed-length ring buffer. It has a write cursor and a read cursor. `process_sample` writes the input, then reads, then advances both cursors modulo the length.
- `DelayWithFeedback` couples two `Delay`s of the same length and time. The primary delay is fed the input plus `feedback` times the previous output of the secondary delay. The primary delay's output is fed to the secondary delay.
- `Allpass` wraps a `DelayWithFeedback` whose coefficient is kept equal to its gain `g`. It outputs `x * -g + w * (1 - g^2)`, where `w` is the pair's output.

Each struct is modelled twice:

- A pure layer. A datatype holds the abstract state (`DelayState`, `FeedbackState`, `AllpassState`). Functions `Fresh`, `Retime` and `Step` say what `new`, `set_time` and `process_sample` do to it. `FeedbackDelay.Retune` and `AllpassFilter.Retune` say what `set_feedback` and `set_g` do; `Delay` has no such setter. `Run` feeds a whole signal through `Step`.
- An imperative layer. Classes `Delay`, `DelayWithFeedback` and `Allpass` have the source's fields. The `Delay` buffer is an `array<real>`. Each method is proved to move the object's `State()` exactly as the matching pure function does. Each method also keeps the object invariant `Valid()`. That invariant covers cursor bounds, the two inner delays running in lockstep, and `g` equal to the inner coefficient.

On top of the pure layer, lemmas prove the stream laws of each struct:

- A fresh `Delay` with time `t < len` outputs input `n - t` at step `n`, or 0 before that.
- A fresh `DelayWithFeedback` computes `y[n] = x[n - t] + g * y[n - 2t - 1]`. The loop delay is `2t + 1`: `t` in each inner delay, plus one because the secondary output is only used on the next call.
- An `Allpass` outputs `x[n] * -g + w[n] * (1 - g^2)`, where `w` is that recurrence. With `g = 0` it is a plain delay by `t`.

A classical Schroeder allpass has equal feed-forward and loop delays. In this code they are `t` and `2t + 1`, so the model proves the structure the code builds.

`set_time` is modelled as written. It sets the read cursor to `(-time) mod len` and ignores the write cursor. The delay it sets up is therefore `(input_i + time) mod len`, not `time`. So `set_time(0)` is an identity only while the write cursor is at 0: `DelayLine.RetimeZeroIdentity` proves that case, and `DelayLine.RetimeZeroNotIdentity` gives a concrete input where it is not an identity. Reading `set_time(0)` as "zero latency from now on" does not match the code, and this model follows the code.

Files:

- `euclid.dfy`: facts about Euclidean `%`, the operation `rem_euclid` computes.
- `delay.dfy`: module `DelayLine`.
- `feedback.dfy`: module `FeedbackDelay`.
- `allpass.dfy`: module `AllpassFilter`.

## Model

| member | source | states |
|---|---|---|
| DelayLine.Fresh | src/dsp.rs:9-17 | a new delay has a zeroed buffer of length `len`, write cursor 0 and last output 0, both cursors in range, and its read cursor trails the write cursor by `time mod len` |
| DelayLine.Retime | src/dsp.rs:19-21 | `set_time` leaves buffer, write cursor and last output unchanged, and the delay becomes `(input_i + time) mod len` |
| DelayLine.Step | src/dsp.rs:23-31 | `process_sample` changes only the slot at the write cursor (to the input), keeps the length, advances both cursors by one around the ring, and returns the slot at the read cursor read after the write: the input itself when the cursors coincide |
| DelayLine.NextIsRemainder | src/dsp.rs:27-28 | the cursor advance equals `(i + 1) rem_euclid len` |
| DelayLine.StepKeepsDistance | src/dsp.rs:27-28 | a step preserves the cursor distance `(input_i - output_i) mod len` |
| DelayLine.StepRecall | src/dsp.rs:23-31 | if the buffer holds the history written so far, after a step it holds that history plus the input, and the output is the sample written `distance` writes before the input |
| DelayLine.RunRecall | src/dsp.rs:23-31 | over a whole signal, the buffer holds the full history and output `n` is the sample written `distance` writes before input `n` |
| DelayLine.RunKeepsDistance | src/dsp.rs:27-28 | a whole signal leaves the cursor distance unchanged |
| DelayLine.RunWriteCursor | src/dsp.rs:27 | after `k` samples the write cursor is `(input_i + k) mod len` |
| DelayLine.FreshDelayLaw | src/dsp.rs:9-31 | a delay built with time `t < len` and never retimed outputs input `n - t` at step `n`, and 0 before step `t` |
| DelayLine.ImpulseResponse | src/dsp.rs:9-31 | an impulse into a fresh delay with time `t < len` comes out at step `t` and nowhere else |
| DelayLine.ZeroDistanceIdentity | src/dsp.rs:24-25 | with the read cursor on the write cursor, the output equals the input sample for sample |
| DelayLine.RetimeAfterRun | src/dsp.rs:19-21 | after `k` samples, `set_time(t)` sets the delay `(input_i + k + t) mod len` |
| DelayLine.RetimeZeroIdentity | src/dsp.rs:19-25 | while the write cursor is at 0, after `set_time(0)` every output equals its input |
| DelayLine.RetimeZeroNotIdentity | src/dsp.rs:19-25 | with length 2, after one sample, `set_time(0)` followed by input 5 returns the previous input 1, not 5 |
| DelayLine.Delay.constructor | src/dsp.rs:9-17 | the new object's state is `Fresh(len, time)` and its buffer is freshly allocated |
| DelayLine.Delay.SetTime | src/dsp.rs:19-21 | the object's state moves as `Retime` says |
| DelayLine.Delay.ProcessSample | src/dsp.rs:23-31 | the array, cursors and last output move, and the result is returned, as `Step` says |
| FeedbackDelay.Fresh | src/dsp.rs:43-51 | both inner delays are `DelayLine.Fresh(len, time)`, so they run in lockstep, and both remembered outputs are 0 |
| FeedbackDelay.Retime | src/dsp.rs:56-59 | both inner delays are retimed with the same time and still realise the same delay; coefficient and remembered outputs are unchanged |
| FeedbackDelay.Retune | src/dsp.rs:53-55 | `set_feedback` sets the coefficient; both delays and both remembered outputs are unchanged, and the delays stay in lockstep |
| FeedbackDelay.Step | src/dsp.rs:61-66 | the primary delay is stepped on the input plus `feedback` times the OLD secondary output; the secondary delay is then stepped on the primary's new output; the result is that output |
| FeedbackDelay.ZeroTimeStep | src/dsp.rs:61-66 | at delay 0 the output is the input plus `feedback` times the previous output |
| FeedbackDelay.RecurrenceAt | src/dsp.rs:61-66 | every sample of the reference signal satisfies `y[n] = x[n - t] + g * y[n - 2t - 1]` |
| FeedbackDelay.StepOutput | src/dsp.rs:61-66 | one step of a pair whose delays hold the histories so far produces the next sample of that recurrence |
| FeedbackDelay.StepTracks | src/dsp.rs:61-66 | one step keeps both delays holding their inputs so far, and keeps the remembered secondary output equal to output `n - t` |
| FeedbackDelay.RunTracks | src/dsp.rs:61-66 | over a whole signal, a pair that starts with zeroed buffers and delay `t` outputs the recurrence and stays tracked |
| FeedbackDelay.FeedbackLaw | src/dsp.rs:43-66 | a freshly built pair with time `t < len` and coefficient `g` outputs `y[n] = x[n - t] + g * y[n - 2t - 1]` |
| FeedbackDelay.RecurrenceZeroGain | src/dsp.rs:61-62 | with coefficient 0 the recurrence is the plain delay by `t` |
| FeedbackDelay.RecurrenceEarly | src/dsp.rs:61-66 | before the loop delay `2t + 1` has passed, the recurrence is the input delayed by `t` |
| FeedbackDelay.RecurrenceImpulse | src/dsp.rs:61-66 | the recurrence's impulse response is 1 at step `t`, `g` at step `3t + 1`, and 0 at every other step before that |
| FeedbackDelay.ImpulseEchoes | src/dsp.rs:43-66 | an impulse into a fresh pair comes out at step `t`, and its first echo, weighted by `g`, at step `3t + 1`, with silence between |
| FeedbackDelay.DelayWithFeedback.constructor | src/dsp.rs:43-51 | the new object's state is `Fresh(len, time, feedback)` and all its parts are freshly allocated |
| FeedbackDelay.DelayWithFeedback.SetFeedback | src/dsp.rs:53-55 | the object's state moves as `Retune` says |
| FeedbackDelay.DelayWithFeedback.SetTime | src/dsp.rs:56-59 | the object's state moves as `Retime` says |
| FeedbackDelay.DelayWithFeedback.ProcessSample | src/dsp.rs:61-66 | both delays, `former` and `former_feedback` move, and the result is returned, as `Step` says |
| AllpassFilter.Fresh | src/dsp.rs:75-80 | the inner pair is `FeedbackDelay.Fresh(len, time, g)`, so its coefficient equals the gain |
| AllpassFilter.Retime | src/dsp.rs:82-84 | only the inner pair is retimed; the gain is kept and stays in sync |
| AllpassFilter.Retune | src/dsp.rs:85-88 | the gain and the inner coefficient both become `g`; delays and remembered outputs are unchanged |
| AllpassFilter.Step | src/dsp.rs:90-92 | the inner pair steps on the same input, and the output is `x * -g + w * (1 - g^2)` of the pair's output `w` |
| AllpassFilter.ZeroGainStep | src/dsp.rs:90-92 | with gain 0 the output is exactly the inner pair's output |
| AllpassFilter.RunIsMix | src/dsp.rs:90-92 | over a whole signal the inner pair runs as a `DelayWithFeedback` on the same input, and each output sample mixes input and pair output |
| AllpassFilter.AllpassLaw | src/dsp.rs:75-92 | a fresh filter with time `t < len` outputs `x[n] * -g + w[n] * (1 - g^2)`, where `w[n] = x[n - t] + g * w[n - 2t - 1]` |
| AllpassFilter.ZeroGainIsDelay | src/dsp.rs:75-92 | a fresh filter with gain 0 is a plain delay by `t` |
| AllpassFilter.ImpulseResponse | src/dsp.rs:75-92 | an impulse into a fresh filter with `0 < t < len` gives `-g` at step 0, `1 - g^2` at step `t`, the first echo `g * (1 - g^2)` at step `3t + 1`, and 0 at every other step up to there |
| AllpassFilter.Allpass.constructor | src/dsp.rs:75-80 | the new object's state is `Fresh(len, time, g)`, so gain and inner coefficient agree |
| AllpassFilter.Allpass.SetTime | src/dsp.rs:82-84 | the object's state moves as `Retime` says |
| AllpassFilter.Allpass.SetG | src/dsp.rs:85-88 | the object's state moves as `Retune` says, so the sync invariant is kept |
| AllpassFilter.Allpass.ProcessSample | src/dsp.rs:90-92 | the inner pair moves, and the result is returned, as `Step` says |

## Left out

- `src/lib.rs`: the host plugin glue, the parameter model, the five-stage cascade and the copy to the right channel are not part of this model. The cascade is function composition of `Allpass::process_sample`.
- Floating point: samples are `real`, so `f32` rounding is not modelled. `powi(2)` is modelled as `g * g`.
- The buffer length is a parameter `len >= 1`. The cast `(sample_rate / 4.0) as usize` is not modelled. A length of 0 makes `rem_euclid` divide by zero in the source, so every constructor requires `len >= 1`.
- `-time` is computed on unbounded integers, so the overflow at `i32::MIN` is not modelled.
- Stability of the feedback loop for `|g| >= 1` is not modelled. The laws hold for every real `g`.
- Frequency-domain properties (flat magnitude response) are not modelled. Only the time-domain recurrence is proved.
- The downsampler, oscillator, damping, glitch mode and output clamping of the wider reverb are not in `src/dsp.rs` and are not modelled.
