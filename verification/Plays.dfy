/** Playing a given list of steps from a state. */
module Plays {
  import opened Wrappers
  import opened World

  /** The state after the steps, if each is enabled in its turn. */
  function Play(w: World, steps: seq<Step>): Option<World>
    decreases |steps|
  {
    if steps == [] then Some(w)
    else if Enabled(w, steps[0]) then Play(Apply(w, steps[0]), steps[1..])
    else None
  }

  lemma PlayThree(w: World, a: Step, b: Step, c: Step)
    requires Enabled(w, a) && Enabled(Apply(w, a), b) && Enabled(Apply(Apply(w, a), b), c)
    ensures Play(w, [a, b, c]) == Some(Apply(Apply(Apply(w, a), b), c))
  {
    var (w1, w2) := (Apply(w, a), Apply(Apply(w, a), b));
    var w3 := Apply(w2, c);
    assert [a, b, c][1..] == [b, c] && [b, c][1..] == [c] && [c][1..] == [];
    assert Play(w3, []) == Some(w3);
    assert Play(w2, [c]) == Some(w3);
    assert Play(w1, [b, c]) == Some(w3);
  }

  lemma PlayFour(w: World, a: Step, b: Step, c: Step, d: Step)
    requires Enabled(w, a) && Enabled(Apply(w, a), b) && Enabled(Apply(Apply(w, a), b), c)
    requires Enabled(Apply(Apply(Apply(w, a), b), c), d)
    ensures Play(w, [a, b, c, d]) == Some(Apply(Apply(Apply(Apply(w, a), b), c), d))
  {
    var (w1, w2, w3) := (Apply(w, a), Apply(Apply(w, a), b), Apply(Apply(Apply(w, a), b), c));
    var w4 := Apply(w3, d);
    assert [a, b, c, d][1..] == [b, c, d] && [b, c, d][1..] == [c, d] && [c, d][1..] == [d] && [d][1..] == [];
    assert Play(w4, []) == Some(w4);
    assert Play(w3, [d]) == Some(w4);
    assert Play(w2, [c, d]) == Some(w4);
    assert Play(w1, [b, c, d]) == Some(w4);
  }

  lemma {:induction false} PlayThrough(w: World, first: seq<Step>, rest: seq<Step>)
    requires Play(w, first).Some?
    ensures Play(w, first + rest) == Play(Play(w, first).value, rest)
    decreases |first|
  {
    if first == [] {
      assert first + rest == rest;
    } else {
      assert (first + rest)[1..] == first[1..] + rest;
      PlayThrough(Apply(w, first[0]), first[1..], rest);
    }
  }
}
