/** What several modules share: an optional value, and lists without repetition. */
module Wrappers {
  datatype Option<+T> = None | Some(value: T)

  ghost predicate NoRepeats<T>(s: seq<T>) {
    forall i, j :: 0 <= i < j < |s| ==> s[i] != s[j]
  }

  ghost function Elements<T>(s: seq<T>): set<T> {
    set x | x in s
  }

  /** A list without repetition is as long as its set of elements is large. */
  lemma {:induction false} ElementsCount<T>(s: seq<T>)
    requires NoRepeats(s)
    ensures |Elements(s)| == |s|
  {
    if s != [] {
      var k := |s| - 1;
      ElementsCount(s[..k]);
      assert s == s[..k] + [s[k]];
      assert Elements(s) == Elements(s[..k]) + {s[k]};
    }
  }
}
