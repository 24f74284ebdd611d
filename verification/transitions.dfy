/** Status transition tables as the repositories declare them: a dictionary from
    a status to the list of statuses it may move to. */
module Transitions {

  type Table<S(==,!new)> = map<S, seq<S>>

  /** The repositories' check `TryGetValue(from, out next) && next.Contains(to)`:
      a status with no entry in the table has no exits at all. */
  predicate Allowed<S(==,!new)>(table: Table<S>, from: S, to: S) {
    from in table && to in table[from]
  }

  /** A status from which no transition is allowed. */
  predicate Terminal<S(==,!new)>(table: Table<S>, s: S) {
    s !in table || table[s] == []
  }

  /** The statuses reachable from `s` in one step. */
  function Exits<S(==,!new)>(table: Table<S>, s: S): (r: set<S>)
    ensures forall t :: t in r <==> Allowed(table, s, t)
    ensures r == {} <==> Terminal(table, s)
  {
    if s in table then
      var exits := set t | t in table[s];
      assert table[s] != [] ==> table[s][0] in exits;
      exits
    else {}
  }
}
