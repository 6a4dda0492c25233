/**
 * The loop shape shared by the font enumerator and the older font-files
 * handler: every input is either skipped (`continue`), turned into one output
 * that is pushed onto the result, or aborts the whole call (`?` / early return).
 */
module Steps {
  import opened Wrappers

  /** What one iteration of such a loop does with one input. */
  datatype Step<+T, +E> = Skip | Keep(value: T) | Abort(error: E)

  /**
   * The outcome of running the steps in order and stopping at the first abort.
   * Defined from the last step backwards, the way a loop extends its prefix.
   */
  function Collect<T, E>(steps: seq<Step<T, E>>): (r: Result<seq<T>, E>)
    ensures r.Success? ==> |r.value| <= |steps|
  {
    if steps == [] then Success([])
    else
      var prev := Collect(steps[..|steps| - 1]);
      match prev
      case Failure(_) => prev
      case Success(done) =>
        match steps[|steps| - 1]
        case Skip => prev
        case Keep(v) => Success(done + [v])
        case Abort(e) => Failure(e)
  }

  /** Reference definition: the outputs of the `Keep` steps, front to back. */
  function Kept<T, E>(steps: seq<Step<T, E>>): seq<T>
  {
    if steps == [] then []
    else (if steps[0].Keep? then [steps[0].value] else []) + Kept(steps[1..])
  }

  predicate NoAbort<T, E>(steps: seq<Step<T, E>>)
  {
    forall i :: 0 <= i < |steps| ==> !steps[i].Abort?
  }

  lemma {:induction false} KeptAppend<T, E>(s: seq<Step<T, E>>, t: seq<Step<T, E>>)
    ensures Kept(s + t) == Kept(s) + Kept(t)
  {
    if s != [] {
      assert (s + t)[1..] == s[1..] + t;
      KeptAppend(s[1..], t);
    } else {
      assert s + t == t;
    }
  }

  /** Once a prefix has aborted, running further steps does not change the outcome. */
  lemma {:induction false} CollectSticky<T, E>(s: seq<Step<T, E>>, t: seq<Step<T, E>>)
    requires Collect(s).Failure?
    ensures Collect(s + t) == Collect(s)
  {
    if t != [] {
      var u := s + t;
      assert u[..|u| - 1] == s + t[..|t| - 1];
      CollectSticky(s, t[..|t| - 1]);
    } else {
      assert s + t == s;
    }
  }

  /**
   * The whole call succeeds exactly when no step aborts, and then it returns
   * the outputs of the kept inputs, one per kept input, in input order.
   */
  lemma {:induction false} CollectSucceeds<T, E>(steps: seq<Step<T, E>>)
    ensures Collect(steps).Success? <==> NoAbort(steps)
    ensures Collect(steps).Success? ==> Collect(steps).value == Kept(steps)
  {
    if steps != [] {
      var init, last := steps[..|steps| - 1], steps[|steps| - 1];
      assert steps == init + [last];
      CollectSucceeds(init);
      KeptAppend(init, [last]);
      assert [last][1..] == [];
      if Collect(init).Failure? {
        var i :| 0 <= i < |init| && init[i].Abort?;
        assert steps[i].Abort?;
      }
    }
  }

  /** A failed call reports the error of the first aborting step. */
  lemma {:induction false} CollectFirstAbort<T, E>(steps: seq<Step<T, E>>)
    requires Collect(steps).Failure?
    ensures exists i :: 0 <= i < |steps| && steps[i].Abort? && NoAbort(steps[..i])
                        && Collect(steps).error == steps[i].error
  {
    var init, last := steps[..|steps| - 1], steps[|steps| - 1];
    if Collect(init).Failure? {
      CollectFirstAbort(init);
      var i :| 0 <= i < |init| && init[i].Abort? && NoAbort(init[..i])
               && Collect(init).error == init[i].error;
      assert init[..i] == steps[..i];
    } else {
      CollectSucceeds(init);
      assert init == steps[..|steps| - 1];
    }
  }

  /** Every output comes from a `Keep` step. */
  lemma {:induction false} KeptOrigin<T, E>(steps: seq<Step<T, E>>, n: nat)
    requires n < |Kept(steps)|
    ensures exists i :: 0 <= i < |steps| && steps[i] == Keep(Kept(steps)[n])
  {
    if steps[0].Keep? && n == 0 {
      assert steps[0] == Keep(Kept(steps)[0]);
    } else {
      var m := if steps[0].Keep? then n - 1 else n;
      KeptOrigin(steps[1..], m);
      var i :| 0 <= i < |steps[1..]| && steps[1..][i] == Keep(Kept(steps[1..])[m]);
      assert steps[i + 1] == steps[1..][i];
    }
  }

  /** A loop that reaches an aborting step with a clean prefix ends the whole call with that step's error. */
  lemma CollectAbortAt<T, E>(steps: seq<Step<T, E>>, i: nat)
    requires i < |steps| && Collect(steps[..i]).Success? && steps[i].Abort?
    ensures Collect(steps) == Failure(steps[i].error)
  {
    assert steps[..i + 1][..i] == steps[..i];
    assert steps == steps[..i + 1] + steps[i + 1..];
    CollectSticky(steps[..i + 1], steps[i + 1..]);
  }
}
