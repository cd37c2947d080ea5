/** Types several modules share. */
module Prelude {
  datatype Option<+T> = None | Some(value: T)

  newtype byte = b: int | 0 <= b < 256

  lemma InitLast<T>(s: seq<T>)
    requires s != []
    ensures s[..|s| - 1] + [s[|s| - 1]] == s
  {
  }

  lemma MaxExists(s: set<nat>)
    requires s != {}
    ensures exists m :: m in s && forall x :: x in s ==> x <= m
  {
    var x :| x in s;
    var rest := s - {x};
    if rest != {} {
      MaxExists(rest);
      var m :| m in rest && forall y :: y in rest ==> y <= m;
      assert forall y :: y in s ==> y in rest || y == x;
      assert (if x <= m then m else x) in s;
    } else {
      assert s == {x};
    }
  }

  /** The id a new row gets: one above the highest there is. */
  function NextId<T>(rows: map<nat, T>): (id: nat)
    ensures forall g :: g in rows ==> g < id
    ensures if rows.Keys == {} then id == 1 else id > 0 && id - 1 in rows
  {
    if rows.Keys == {} then 1
    else
      MaxExists(rows.Keys);
      var m :| m in rows.Keys && forall x :: x in rows.Keys ==> x <= m;
      m + 1
  }
}
