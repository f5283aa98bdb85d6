/** The value-or-nothing type and the facts on sets the other modules share. */
module Wrappers {

  datatype Option<+T> = None | Some(value: T) {
    /** The value held, or `default` when there is none: SQL's two-argument COALESCE. */
    function GetOr(default: T): T {
      if Some? then value else default
    }

    /** The first of two options that states something: COALESCE over two nullable columns. */
    function Or(other: Option<T>): Option<T> {
      if Some? then this else other
    }
  }

  lemma SubsetSize<T>(a: set<T>, b: set<T>)
    requires a <= b
    ensures |a| <= |b|
  {
    assert b == a + (b - a);
  }

  lemma HasMember(s: set<int>)
    requires s != {}
    ensures exists x :: x in s
  {
    assert (forall x :: x !in s) ==> s == {};
  }
}
