/** The persistent game settings: the number of computer players chosen in the
    menu, kept within 0..2 by its setter. */
module Settings {

  /** What `aiCount` holds after the setter is given v: v when 0 <= v <= 2,
      otherwise the old count. */
  function Assign(count: int, v: int): int
  {
    if v >= 0 && v <= 2 then v else count
  }

  /** `aiCount` after the setter is called with each of vals in turn,
      starting from the initial 0. */
  function AfterSets(vals: seq<int>): int
  {
    if vals == [] then 0 else Assign(AfterSets(vals[..|vals| - 1]), vals[|vals| - 1])
  }

  predicate Accepted(v: int)
  {
    0 <= v <= 2
  }

  /** Whatever is set, the count stays within 0..2. */
  lemma {:induction false} AfterSetsInRange(vals: seq<int>)
    ensures 0 <= AfterSets(vals) <= 2
  {
    if vals != [] {
      AfterSetsInRange(vals[..|vals| - 1]);
    }
  }

  /** The getter answers the last accepted value of a run of sets, or 0 when
      none was accepted. */
  lemma {:induction false} AfterSetsIsLastAccepted(vals: seq<int>, k: int)
    ensures 0 <= k < |vals| && Accepted(vals[k]) && (forall m :: k < m < |vals| ==> !Accepted(vals[m]))
            ==> AfterSets(vals) == vals[k]
    ensures (forall m :: 0 <= m < |vals| ==> !Accepted(vals[m])) ==> AfterSets(vals) == 0
  {
    if vals != [] {
      var init := vals[..|vals| - 1];
      assert forall m :: 0 <= m < |init| ==> init[m] == vals[m];
      AfterSetsIsLastAccepted(init, k);
    }
  }

  /** Setting the same value twice is the same as setting it once. */
  lemma {:induction false} SetIdempotent(vals: seq<int>, v: int)
    ensures AfterSets(vals + [v, v]) == AfterSets(vals + [v])
  {
    assert (vals + [v, v])[..|vals + [v, v]| - 1] == vals + [v];
    assert (vals + [v])[..|vals + [v]| - 1] == vals;
  }

  /** `GameSettings`: the count of computer players behind its guarded property. */
  class GameSettings {
    /** The private field `_AICount`. */
    var aiCount: int

    constructor ()
      ensures aiCount == 0 && Valid()
    {
      aiCount := 0;
    }

    predicate Valid()
      reads this
    {
      0 <= aiCount <= 2
    }

    /** The property's getter. */
    function AICount(): int
      reads this
    {
      aiCount
    }

    /** The property's setter: a value outside 0..2 is ignored. */
    method SetAICount(value: int)
      modifies this
      ensures aiCount == Assign(old(aiCount), value)
      ensures old(Valid()) ==> Valid()
    {
      aiCount := if value >= 0 && value <= 2 then value else aiCount;
    }
  }
}
