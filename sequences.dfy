/** Index bookkeeping shared by the two filters of the core: both keep some
    positions of their input, in order, and are characterised by the list of
    the positions they keep. */
module Sequences {

  /** The positions below `n` at which `p` holds, in increasing order. */
  ghost function Positions(n: nat, p: int -> bool): (idx: seq<int>)
    ensures forall a, b :: 0 <= a < b < |idx| ==> idx[a] < idx[b]
    ensures forall a :: 0 <= a < |idx| ==> 0 <= idx[a] < n && p(idx[a])
    ensures forall i :: 0 <= i < n && p(i) ==> i in idx
  {
    if n == 0 then [] else Positions(n - 1, p) + if p(n - 1) then [n - 1] else []
  }

  /** One more position is kept exactly when `p` holds there. */
  lemma PositionsSnoc(n: nat, p: int -> bool)
    ensures Positions(n + 1, p) == Positions(n, p) + if p(n) then [n] else []
  {
  }
}
