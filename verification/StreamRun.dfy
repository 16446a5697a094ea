/** Running a step machine over a sequence: the shape shared by the cipher modes. */
module StreamRun {

  /** Feeds xs to the machine one by one; the final state and the outputs. */
  function Run<S, X, Y>(step: (S, X) -> (S, Y), s: S, xs: seq<X>): (r: (S, seq<Y>))
    ensures |r.1| == |xs|
  {
    if xs == [] then (s, [])
    else
      var (s1, ys) := Run(step, s, xs[..|xs| - 1]);
      var (s2, y) := step(s1, xs[|xs| - 1]);
      (s2, ys + [y])
  }

  /** Cutting the input anywhere and carrying the state over changes nothing. */
  lemma {:induction false} RunConcat<S, X, Y>(step: (S, X) -> (S, Y), s: S, xs: seq<X>, zs: seq<X>)
    ensures var (s1, ys) := Run(step, s, xs);
            var (s2, ws) := Run(step, s1, zs);
            Run(step, s, xs + zs) == (s2, ys + ws)
  {
    var ys := Run(step, s, xs).1;
    if zs == [] {
      assert xs + zs == xs;
      assert ys + [] == ys;
    } else {
      var front, last := zs[..|zs| - 1], zs[|zs| - 1];
      RunConcat(step, s, xs, front);
      assert (xs + zs)[..|xs + zs| - 1] == xs + front;
      var (s1, ws) := Run(step, Run(step, s, xs).0, front);
      assert ys + (ws + [step(s1, last).1]) == (ys + ws) + [step(s1, last).1];
    }
  }

  lemma RunSnoc<S, X, Y>(step: (S, X) -> (S, Y), s: S, xs: seq<X>, x: X)
    ensures var (s1, ys) := Run(step, s, xs);
            Run(step, s, xs + [x]) == (step(s1, x).0, ys + [step(s1, x).1])
  {
    assert (xs + [x])[..|xs + [x]| - 1] == xs;
  }

  /** The machines keep the same state and the second maps each output back to its input. */
  ghost predicate StepUndone<S(!new), X(!new), Y>(enc: (S, X) -> (S, Y), dec: (S, Y) -> (S, X)) {
    forall s, x :: dec(s, enc(s, x).1) == (enc(s, x).0, x)
  }

  /** A machine undone step by step is undone over every run. */
  lemma {:induction false} RunUndone<S(!new), X(!new), Y>(enc: (S, X) -> (S, Y), dec: (S, Y) -> (S, X), s: S,
          xs: seq<X>)
    requires StepUndone(enc, dec)
    ensures Run(dec, s, Run(enc, s, xs).1) == (Run(enc, s, xs).0, xs)
  {
    if xs != [] {
      var front, last := xs[..|xs| - 1], xs[|xs| - 1];
      RunUndone(enc, dec, s, front);
      var (s1, ys) := Run(enc, s, front);
      RunSnoc(dec, s, ys, enc(s1, last).1);
      assert xs == front + [last];
    }
  }

  /** The outputs of a shorter run are the first outputs of a longer one. */
  lemma RunPrefix<S, X, Y>(step: (S, X) -> (S, Y), s: S, xs: seq<X>, n: nat)
    requires n <= |xs|
    ensures Run(step, s, xs[..n]).1 == Run(step, s, xs).1[..n]
  {
    assert xs[..n] + xs[n..] == xs;
    RunConcat(step, s, xs[..n], xs[n..]);
    var (s1, ys) := Run(step, s, xs[..n]);
    var ws := Run(step, s1, xs[n..]).1;
    hide Run;
    assert (ys + ws)[..n] == ys;
  }

  /** Output k is what the machine makes of input k in the state after the first k inputs. */
  lemma RunAt<S, X, Y>(step: (S, X) -> (S, Y), s: S, xs: seq<X>, k: nat)
    requires k < |xs|
    ensures Run(step, s, xs).1[k] == step(Run(step, s, xs[..k]).0, xs[k]).1
  {
    RunPrefix(step, s, xs, k + 1);
    assert xs[..k + 1][..k] == xs[..k];
  }
}
