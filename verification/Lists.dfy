/** Lists of numbers without repetitions. */
module Lists {

  ghost predicate NoDup(s: seq<nat>) { forall j, k | 0 <= j < k < |s| :: s[j] != s[k] }

  ghost function Members(s: seq<nat>): set<nat> { set o | o in s }

  lemma {:induction false} NoDupCount(s: seq<nat>)
    requires NoDup(s)
    ensures |Members(s)| == |s|
  {
    if s != [] {
      var r := s[..|s| - 1];
      NoDupCount(r);
      assert Members(s) == Members(r) + {s[|s| - 1]};
    }
  }
}
