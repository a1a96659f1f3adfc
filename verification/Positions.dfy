/** Where the lines of a kind are. */
module Positions {
  /** The places among the first k lines where a predicate holds. */
  function Places<T>(lines: seq<T>, p: T -> bool, k: nat): seq<nat>
    requires k <= |lines|
  {
    if k == 0 then [] else Places(lines, p, k - 1) + if p(lines[k - 1]) then [k - 1] else []
  }

  lemma {:induction false} PlacesAre<T>(lines: seq<T>, p: T -> bool, k: nat)
    requires k <= |lines|
    ensures forall j | 0 <= j < |Places(lines, p, k)| :: Places(lines, p, k)[j] < k && p(lines[Places(lines, p, k)[j]])
    ensures forall i | 0 <= i < k && p(lines[i]) :: i in Places(lines, p, k)
    ensures forall j, j' | 0 <= j < j' < |Places(lines, p, k)| :: Places(lines, p, k)[j] < Places(lines, p, k)[j']
  {
    if k > 0 { PlacesAre(lines, p, k - 1); }
  }

  /** The predicate holds at this line and at no other. */
  predicate Only<T>(lines: seq<T>, p: T -> bool, at: nat) {
    at < |lines| && p(lines[at]) && forall i | 0 <= i < |lines| && p(lines[i]) :: i == at
  }

  lemma OnePlace<T>(lines: seq<T>, p: T -> bool)
    requires |Places(lines, p, |lines|)| == 1
    ensures Only(lines, p, Places(lines, p, |lines|)[0])
  {
    hide Places;
    PlacesAre(lines, p, |lines|);
  }

  lemma {:induction false} PlacesOfOnly<T>(lines: seq<T>, p: T -> bool, at: nat, k: nat)
    requires Only(lines, p, at) && k <= |lines|
    ensures Places(lines, p, k) == if at < k then [at] else []
  {
    if k > 0 { PlacesOfOnly(lines, p, at, k - 1); }
  }
}
