/** Byte-at-a-time ciphers: a step function from state and input byte to new state and output byte,
    and what holds of every such cipher however its data is split over calls. */
module ByteStream {
  import opened Bytes

  datatype Result<S> = Result(state: S, out: seq<byte>)

  type Step<!S> = (S, byte) -> (S, byte)

  /** Runs a step function over data, first byte first. */
  function Run<S>(step: Step<S>, s: S, data: seq<byte>): (r: Result<S>)
    ensures |r.out| == |data|
  {
    if data == [] then Result(s, [])
    else
      var before := Run(step, s, data[..|data| - 1]);
      var (s', y) := step(before.state, data[|data| - 1]);
      Result(s', before.out + [y])
  }

  lemma RunNone<S>(step: Step<S>, s: S)
    ensures Run(step, s, []) == Result(s, [])
  {}

  /** One more byte. */
  lemma RunNext<S>(step: Step<S>, s0: S, p: seq<byte>, k: nat, s: S, out: seq<byte>)
    requires k < |p| && Run(step, s0, p[..k]) == Result(s, out)
    ensures Run(step, s0, p[..k + 1]) == Result(step(s, p[k]).0, out + [step(s, p[k]).1])
  {
    assert p[..k + 1][..k] == p[..k];
  }

  /** One call on a ++ b equals two calls in a row. */
  lemma {:induction false} RunAppend<S>(step: Step<S>, s: S, a: seq<byte>, b: seq<byte>)
    ensures Run(step, s, a + b).state == Run(step, Run(step, s, a).state, b).state
    ensures Run(step, s, a + b).out == Run(step, s, a).out + Run(step, Run(step, s, a).state, b).out
  {
    if b == [] {
      assert a + b == a;
    } else {
      var init := b[..|b| - 1];
      RunAppend(step, s, a, init);
      assert (a + b)[..|a + b| - 1] == a + init;
    }
  }

  /** Output byte i depends on the state the first i bytes lead to. */
  lemma RunAt<S>(step: Step<S>, s: S, p: seq<byte>, i: nat)
    requires i < |p|
    ensures Run(step, s, p).out[i] == step(Run(step, s, p[..i]).state, p[i]).1
  {
    hide Run;
    var before := Run(step, s, p[..i]);
    var y := step(before.state, p[i]).1;
    RunNext(step, s, p, i, before.state, before.out);
    RunAppend(step, s, p[..i + 1], p[i + 1..]);
    assert p == p[..i + 1] + p[i + 1..];
    Entry(before.out, y, Run(step, Run(step, s, p[..i + 1]).state, p[i + 1..]).out);
  }

  lemma Entry(a: seq<byte>, y: byte, b: seq<byte>)
    ensures (a + [y] + b)[|a|] == y
  {}

  function Flatten(chunks: seq<seq<byte>>): seq<byte> {
    if chunks == [] then [] else Flatten(chunks[..|chunks| - 1]) + chunks[|chunks| - 1]
  }

  /** A sequence of calls that carry the state from one to the next. */
  function RunCalls<S>(step: Step<S>, s: S, chunks: seq<seq<byte>>): Result<S> {
    if chunks == [] then Result(s, [])
    else
      var before := RunCalls(step, s, chunks[..|chunks| - 1]);
      var last := Run(step, before.state, chunks[|chunks| - 1]);
      Result(last.state, before.out + last.out)
  }

  /** Splitting the data over any sequence of calls changes neither output nor final state. */
  lemma {:induction false} CallsAreOneRun<S>(step: Step<S>, s: S, chunks: seq<seq<byte>>)
    ensures RunCalls(step, s, chunks) == Run(step, s, Flatten(chunks))
  {
    if chunks != [] {
      var init := chunks[..|chunks| - 1];
      CallsAreOneRun(step, s, init);
      RunAppend(step, s, Flatten(init), chunks[|chunks| - 1]);
    }
  }

  /** dec takes back the byte enc produced, and moves to the same state. */
  ghost predicate StepUndoes<S(!new)>(dec: Step<S>, enc: Step<S>) {
    forall s: S, x: byte {:trigger enc(s, x)} :: dec(s, enc(s, x).1) == (enc(s, x).0, x)
  }

  /** If every step is undone then so is every run, and both runs end in the same state. */
  lemma {:induction false} RunUndoes<S(!new)>(dec: Step<S>, enc: Step<S>, s: S, data: seq<byte>)
    requires StepUndoes(dec, enc)
    ensures Run(dec, s, Run(enc, s, data).out) == Result(Run(enc, s, data).state, data)
  {
    if data != [] {
      var init, x := data[..|data| - 1], data[|data| - 1];
      RunUndoes(dec, enc, s, init);
      var before := Run(enc, s, init);
      var out := Run(enc, s, data).out;
      assert out[..|out| - 1] == before.out;
      assert enc(before.state, x).1 == out[|out| - 1];
    }
  }

  // ---- bookkeeping for loops over buffers ----

  /** The unread input is still the original one: its next byte and its rest. */
  lemma NextInput(input: seq<byte>, p: seq<byte>, k: nat)
    requires k < |p| <= |input| && input[k..|p|] == p[k..]
    ensures input[k] == p[k] && input[k + 1..|p|] == p[k + 1..]
  {
    assert input[k] == input[k..|p|][0] && p[k] == p[k..][0];
    assert input[k + 1..|p|] == input[k..|p|][1..] && p[k + 1..] == p[k..][1..];
  }

  /** Writing byte k of a buffer. */
  lemma NextOutput(before: seq<byte>, k: nat, y: byte)
    requires k < |before|
    ensures before[k := y][..k + 1] == before[..k] + [y]
    ensures before[k := y][k + 1..] == before[k..][1..]
  {}
}
