/**
 * `renderFlint`: after scripts change, poll every 50 ms until the `Flint`
 * global exists and then schedule its `render`, giving up once the shared
 * counter of failed polls has passed 10.
 */
module Render {

  /** What one call does: give up, schedule `Flint.render`, or schedule another poll. */
  datatype Action = GiveUp | Render | Retry

  /** One call with counter `attempts`: the action and the new counter. */
  function Poll(attempts: nat, flintDefined: bool): (r: (Action, nat))
    ensures r.0 == GiveUp <==> attempts > 10
    ensures r.0 == Render <==> attempts <= 10 && flintDefined
    ensures r.0 == Retry ==> r.1 == attempts + 1 <= 11
    ensures r.0 != Retry ==> r.1 == 0
  {
    if attempts > 10 then (GiveUp, 0)
    else if flintDefined then (Render, 0)
    else (Retry, attempts + 1)
  }

  /**
   * The actions of a chain of polls begun with counter `attempts`, where
   * `flint[i]` says whether `Flint` is defined at the i-th call; each retry
   * makes the next call, and the chain is cut short where `flint` ends.
   */
  function Chain(attempts: nat, flint: seq<bool>): seq<Action>
    decreases |flint|
  {
    if flint == [] then []
    else
      var (a, n) := Poll(attempts, flint[0]);
      [a] + (if a == Retry then Chain(n, flint[1..]) else [])
  }

  /**
   * A chain begun with a counter of at most 11 makes at most `12 - attempts`
   * calls: all but the last retry, and given enough calls the last one
   * renders or gives up.
   */
  lemma {:induction false} ChainEnds(attempts: nat, flint: seq<bool>)
    requires attempts <= 11
    ensures var c := Chain(attempts, flint);
      && |c| <= 12 - attempts
      && (forall i | 0 <= i < |c| - 1 :: c[i] == Retry)
      && (|flint| >= 12 - attempts ==> |c| > 0 && c[|c| - 1] != Retry)
    decreases |flint|
  {
    if flint != [] {
      var (a, n) := Poll(attempts, flint[0]);
      if a == Retry {
        ChainEnds(n, flint[1..]);
        var c := Chain(attempts, flint);
        var rest := Chain(n, flint[1..]);
        assert c == [Retry] + rest;
        assert forall i | 1 <= i < |c| :: c[i] == rest[i - 1];
      }
    }
  }

  /** Never finding `Flint`, a chain from a fresh counter retries 11 times and gives up on the 12th call. */
  lemma {:induction false} GivesUpOnTwelfthCall(attempts: nat, flint: seq<bool>)
    requires attempts <= 11 && |flint| >= 12 - attempts
    requires forall i | 0 <= i < |flint| :: !flint[i]
    ensures Chain(attempts, flint) == seq(11 - attempts, _ => Retry) + [GiveUp]
    decreases 11 - attempts
  {
    if attempts <= 10 {
      GivesUpOnTwelfthCall(attempts + 1, flint[1..]);
      assert seq(11 - attempts, _ => Retry) == [Retry] + seq(11 - (attempts + 1), _ => Retry);
    }
  }

  /** Finding `Flint` at the j-th call, before the counter passes 10, renders there. */
  lemma {:induction false} RendersWhenFound(attempts: nat, flint: seq<bool>, j: nat)
    requires attempts + j <= 10 && j < |flint| && flint[j]
    requires forall i | 0 <= i < j :: !flint[i]
    ensures Chain(attempts, flint) == seq(j, _ => Retry) + [Render]
    decreases j
  {
    if j > 0 {
      RendersWhenFound(attempts + 1, flint[1..], j - 1);
      assert seq(j, _ => Retry) == [Retry] + seq(j - 1, _ => Retry);
    }
  }

  /** The module-level `renderAttempts` counter and the function that polls with it. */
  class Renderer {
    var renderAttempts: nat

    constructor ()
      ensures renderAttempts == 0
    {
      renderAttempts := 0;
    }

    method RenderFlint(flintDefined: bool) returns (action: Action)
      modifies this
      ensures (action, renderAttempts) == Poll(old(renderAttempts), flintDefined)
    {
      if renderAttempts > 10 {
        renderAttempts := 0;
        return GiveUp;
      }
      if flintDefined {
        action := Render;
        renderAttempts := 0;
      } else {
        renderAttempts := renderAttempts + 1;
        action := Retry;
      }
    }
  }
}
