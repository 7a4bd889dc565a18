/**
 Logs in which every entry obeys a rule on what came before it.
 */
module Logs {
  /** What a rule allows to follow a log. */
  type Rule<!E> = (seq<E>, E) -> bool

  predicate Orderly<E>(rule: Rule<E>, log: seq<E>) {
    log == [] || (Orderly(rule, log[..|log| - 1]) && rule(log[..|log| - 1], log[|log| - 1]))
  }

  lemma Extend<E>(rule: Rule<E>, log: seq<E>, e: E)
    requires Orderly(rule, log) && rule(log, e)
    ensures Orderly(rule, log + [e])
  {
    assert (log + [e])[..|log|] == log;
  }

  lemma {:induction false} Prefix<E>(rule: Rule<E>, log: seq<E>, i: nat)
    requires Orderly(rule, log) && i < |log|
    ensures Orderly(rule, log[..i]) && rule(log[..i], log[i])
  {
    if i < |log| - 1 {
      Prefix(rule, log[..|log| - 1], i);
      assert log[..|log| - 1][..i] == log[..i];
    }
  }
}
