/** Runs of a state machine: sequences of steps each enabled where it is taken. */
module Runs {

  datatype Machine<!S, !A> = Machine(init: S, step: (S, A) -> S, enabled: (S, A) -> bool)

  /** The state a sequence of steps leads to. */
  function After<S, A>(m: Machine<S, A>, run: seq<A>): S {
    if run == [] then m.init else m.step(After(m, run[..|run| - 1]), run[|run| - 1])
  }

  predicate IsRun<S, A>(m: Machine<S, A>, run: seq<A>) {
    run == [] || (IsRun(m, run[..|run| - 1]) && m.enabled(After(m, run[..|run| - 1]), run[|run| - 1]))
  }

  /** From s the actions can be taken one after the other, and lead to t. */
  ghost predicate Leads<S, A>(m: Machine<S, A>, s: S, actions: seq<A>, t: S)
    decreases |actions|
  {
    if actions == [] then s == t
    else m.enabled(s, actions[0]) && Leads(m, m.step(s, actions[0]), actions[1..], t)
  }

  lemma {:induction false} Extend<S, A>(m: Machine<S, A>, run: seq<A>, a: A)
    ensures After(m, run + [a]) == m.step(After(m, run), a)
    ensures IsRun(m, run + [a]) <==> IsRun(m, run) && m.enabled(After(m, run), a)
  {
    assert (run + [a])[..|run|] == run;
  }

  lemma {:induction false} LeadsBy<S, A>(m: Machine<S, A>, s: S, a: A, rest: seq<A>, t: S)
    requires m.enabled(s, a) && Leads(m, m.step(s, a), rest, t)
    ensures Leads(m, s, [a] + rest, t)
  {
    assert ([a] + rest)[1..] == rest;
  }

  lemma {:induction false} LeadsOn<S, A>(m: Machine<S, A>, s: S, a: seq<A>, u: S, b: seq<A>, t: S)
    requires Leads(m, s, a, u) && Leads(m, u, b, t)
    ensures Leads(m, s, a + b, t)
    decreases |a|
  {
    if a == [] {
      assert a + b == b;
    } else {
      LeadsOn(m, m.step(s, a[0]), a[1..], u, b, t);
      LeadsBy(m, s, a[0], a[1..] + b, t);
      assert a + b == [a[0]] + (a[1..] + b);
    }
  }

  /** The last step of a continuation. */
  lemma {:induction false} LastStep<S, A>(m: Machine<S, A>, run: seq<A>, more: seq<A>)
    requires more != []
    ensures var front, a := more[..|more| - 1], more[|more| - 1];
            && After(m, run + more) == m.step(After(m, run + front), a)
            && (IsRun(m, run + more) <==> IsRun(m, run + front) && m.enabled(After(m, run + front), a))
  {
    var front, a := more[..|more| - 1], more[|more| - 1];
    assert run + more == (run + front) + [a];
    Extend(m, run + front, a);
  }

  /** A step of a continuation was enabled where it was taken. */
  lemma {:induction false} EnabledLater<S, A>(m: Machine<S, A>, run: seq<A>, more: seq<A>, i: nat)
    requires IsRun(m, run + more) && i < |more|
    ensures IsRun(m, run + more[..i]) && m.enabled(After(m, run + more[..i]), more[i])
    decreases |more|
  {
    LastStep(m, run, more);
    if i < |more| - 1 {
      var front := more[..|more| - 1];
      EnabledLater(m, run, front, i);
      assert front[..i] == more[..i] && front[i] == more[i];
    }
  }

  lemma {:induction false} Continue<S, A>(m: Machine<S, A>, run: seq<A>, more: seq<A>, t: S)
    requires IsRun(m, run) && Leads(m, After(m, run), more, t)
    ensures IsRun(m, run + more) && After(m, run + more) == t
    decreases |more|
  {
    if more == [] {
      assert run + more == run;
    } else {
      Extend(m, run, more[0]);
      Continue(m, run + [more[0]], more[1..], t);
      assert run + [more[0]] + more[1..] == run + more;
    }
  }

  lemma {:induction false} PrefixIsRun<S, A>(m: Machine<S, A>, run: seq<A>, k: nat)
    requires IsRun(m, run) && k <= |run|
    ensures IsRun(m, run[..k])
  {
    if k < |run| {
      PrefixIsRun(m, run[..|run| - 1], k);
      assert run[..|run| - 1][..k] == run[..k];
    } else {
      assert run[..k] == run;
    }
  }

  lemma {:induction false} EnabledAt<S, A>(m: Machine<S, A>, run: seq<A>, i: nat)
    requires IsRun(m, run) && i < |run|
    ensures IsRun(m, run[..i]) && m.enabled(After(m, run[..i]), run[i])
  {
    PrefixIsRun(m, run, i + 1);
    assert run[..i + 1][..i] == run[..i];
  }
}
