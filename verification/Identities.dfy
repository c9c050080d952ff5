/** Numbers that stand for operations and objects: there is always another one. */
module Identities {
  lemma {:induction false} Unused(used: set<nat>) returns (n: nat)
    ensures forall x | x in used :: x < n
  {
    n := 0;
    if used != {} {
      var x :| x in used;
      var m := Unused(used - {x});
      n := if x >= m then x + 1 else m;
      assert forall y | y in used :: y == x || y in used - {x};
    }
  }
}
