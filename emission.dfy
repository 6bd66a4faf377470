/**
 * What a step of the query-building walk leaves behind: the clauses it added to its
 * builder, in order, and what it threw, if anything. A throw ends the walk, but the
 * clauses added before it stay on the builder.
 */
module Emissions {
  import opened Wrappers
  import opened Exceptions
  import opened QueryBuilders

  datatype Emission = Emission(clauses: seq<Clause>, error: Option<Error>)

  /** Nothing added, nothing thrown. */
  const Nothing := Emission([], None)

  /** Nothing added, `e` thrown. */
  function Throws(e: Error): Emission {
    Emission([], Some(e))
  }

  /** Run `a`, then `b` unless `a` threw. */
  function Then(a: Emission, b: Emission): Emission {
    if a.error.Some? then a else Emission(a.clauses + b.clauses, b.error)
  }

  /** Run the steps in order, stopping at the first one that throws. */
  function Steps(es: seq<Emission>): Emission
    decreases |es|
  {
    if |es| == 0 then Nothing else Then(Steps(es[..|es| - 1]), es[|es| - 1])
  }

  /** All clauses of the steps, in order. */
  function Flatten(es: seq<Emission>): seq<Clause>
    decreases |es|
  {
    if |es| == 0 then [] else Flatten(es[..|es| - 1]) + es[|es| - 1].clauses
  }

  predicate NoneThrows(es: seq<Emission>) {
    forall i :: 0 <= i < |es| ==> es[i].error.None?
  }

  /** One step more: the loop invariant of every walk over steps. */
  lemma StepsSnoc(es: seq<Emission>, i: nat)
    requires i < |es|
    ensures Steps(es[..i + 1]) == Then(Steps(es[..i]), es[i])
    ensures Flatten(es[..i + 1]) == Flatten(es[..i]) + es[i].clauses
  {
    assert es[..i + 1][..i] == es[..i];
  }

  /** A loop step that does not throw: its clauses follow those of the earlier steps. */
  lemma StepOk(es: seq<Emission>, i: nat)
    requires i < |es| && Steps(es[..i]).error.None? && es[i].error.None?
    ensures Steps(es[..i + 1]) == Emission(Steps(es[..i]).clauses + es[i].clauses, None)
  {
    StepsSnoc(es, i);
  }

  /** A loop step that throws: it ends the whole walk, keeping the clauses added so far. */
  lemma StepThrows(es: seq<Emission>, i: nat)
    requires i < |es| && Steps(es[..i]).error.None? && es[i].error.Some?
    ensures Steps(es) == Emission(Steps(es[..i]).clauses + es[i].clauses, es[i].error)
  {
    StepsSnoc(es, i);
    StepsAbsorb(es, i + 1);
  }

  /** The loop ran over every step. */
  lemma StepsDone(es: seq<Emission>, i: nat)
    requires i == |es|
    ensures Steps(es[..i]) == Steps(es)
  {
    assert es[..i] == es;
  }

  lemma AppendAssoc(log: seq<Clause>, done: seq<Clause>, added: seq<Clause>)
    ensures log + done + added == log + (done + added)
  {
  }

  /** Once a step has thrown, the later steps change nothing. */
  lemma {:induction false} StepsAbsorb(es: seq<Emission>, k: nat)
    requires k <= |es| && Steps(es[..k]).error.Some?
    ensures Steps(es) == Steps(es[..k])
    decreases |es|
  {
    if k < |es| {
      var init := es[..|es| - 1];
      assert init[..k] == es[..k];
      StepsAbsorb(init, k);
    } else {
      assert es[..k] == es;
    }
  }

  /** When no step throws, the steps add all their clauses and the whole does not throw; and conversely. */
  lemma {:induction false} StepsNoThrow(es: seq<Emission>)
    ensures Steps(es).error.None? <==> NoneThrows(es)
    ensures NoneThrows(es) ==> Steps(es) == Emission(Flatten(es), None)
    decreases |es|
  {
    if |es| > 0 {
      var init := es[..|es| - 1];
      StepsNoThrow(init);
      assert NoneThrows(es) <==> NoneThrows(init) && es[|es| - 1].error.None? by {
        if NoneThrows(init) && es[|es| - 1].error.None? {
          forall i | 0 <= i < |es| ensures es[i].error.None? {
            if i < |es| - 1 { assert es[i] == init[i]; }
          }
        }
        if NoneThrows(es) {
          forall i | 0 <= i < |init| ensures init[i].error.None? { assert init[i] == es[i]; }
        }
      }
      if Steps(init).error.Some? {
        assert !NoneThrows(init);
      }
    }
  }

  /**
   * The first step that throws decides what the whole throws, and the clauses left
   * behind are those of the steps before it followed by its own.
   */
  lemma StepsFirstThrow(es: seq<Emission>, k: nat)
    requires k < |es| && es[k].error.Some? && NoneThrows(es[..k])
    ensures Steps(es) == Emission(Flatten(es[..k]) + es[k].clauses, es[k].error)
  {
    StepsNoThrow(es[..k]);
    StepsSnoc(es, k);
    StepsAbsorb(es, k + 1);
  }

  /** Steps that each add one clause add those clauses, in order. */
  lemma {:induction false} FlattenSingletons(es: seq<Emission>)
    requires forall i :: 0 <= i < |es| ==> |es[i].clauses| == 1
    ensures Flatten(es) == seq(|es|, i requires 0 <= i < |es| => es[i].clauses[0])
    decreases |es|
  {
    if |es| > 0 {
      FlattenSingletons(es[..|es| - 1]);
    }
  }

  /** Whatever the steps leave behind, thrown or not, comes from the steps themselves. */
  lemma {:induction false} StepsClausesFrom(es: seq<Emission>, P: Clause -> bool)
    requires forall i, c :: 0 <= i < |es| && c in es[i].clauses ==> P(c)
    ensures forall c :: c in Steps(es).clauses ==> P(c)
    decreases |es|
  {
    if |es| > 0 {
      var init := es[..|es| - 1];
      assert forall i, c :: 0 <= i < |init| && c in init[i].clauses ==> P(c) by {
        forall i, c | 0 <= i < |init| && c in init[i].clauses ensures P(c) { assert init[i] == es[i]; }
      }
      StepsClausesFrom(init, P);
    }
  }
}
