/**
 * Ordered fallback over selector strategies: the first strategy that yields
 * something wins, not the best or the largest one. Field discovery uses it
 * three times (containers, titles, option lists).
 */
module Cascade {

  import opened Optional

  /** The result of the first strategy whose query is non-empty, or the empty
      sequence when every strategy comes back empty. */
  function FirstNonEmpty<S, T>(strategies: seq<S>, query: S -> seq<T>): (r: seq<T>)
    ensures r == [] <==> forall j :: 0 <= j < |strategies| ==> query(strategies[j]) == []
    ensures r != [] ==> exists i :: 0 <= i < |strategies| && r == query(strategies[i])
  {
    if strategies == [] then []
    else if query(strategies[0]) != [] then query(strategies[0])
    else FirstNonEmpty(strategies[1..], query)
  }

  /** Once strategy `i` is known to be the first non-empty one, its result is
      the cascade's result. */
  lemma {:induction false} FirstNonEmptyAt<S, T>(strategies: seq<S>, query: S -> seq<T>, i: nat)
    requires i < |strategies| && query(strategies[i]) != []
    requires forall j :: 0 <= j < i ==> query(strategies[j]) == []
    ensures FirstNonEmpty(strategies, query) == query(strategies[i])
  {
    if i > 0 {
      assert query(strategies[0]) == [];
      assert strategies[1..][i - 1] == strategies[i];
      FirstNonEmptyAt(strategies[1..], query, i - 1);
    }
  }

  /** The hit of the first strategy that finds anything, or None. */
  function FirstSome<S, T>(strategies: seq<S>, query: S -> Option<T>): (r: Option<T>)
    ensures r.None? <==> forall j :: 0 <= j < |strategies| ==> query(strategies[j]).None?
    ensures r.Some? ==> exists i :: 0 <= i < |strategies| && r == query(strategies[i])
  {
    if strategies == [] then None
    else if query(strategies[0]).Some? then query(strategies[0])
    else FirstSome(strategies[1..], query)
  }

  lemma {:induction false} FirstSomeAt<S, T>(strategies: seq<S>, query: S -> Option<T>, i: nat)
    requires i < |strategies| && query(strategies[i]).Some?
    requires forall j :: 0 <= j < i ==> query(strategies[j]).None?
    ensures FirstSome(strategies, query) == query(strategies[i])
  {
    if i > 0 {
      assert query(strategies[0]).None?;
      assert strategies[1..][i - 1] == strategies[i];
      FirstSomeAt(strategies[1..], query, i - 1);
    }
  }
}
