/** Values shared by every model: optional values and small facts about sequences. */
module Common {

  datatype Option<+T> = None | Some(value: T)

  /** A string field that is present and not empty. */
  predicate Truthy(s: Option<string>) {
    s.Some? && s.value != ""
  }

  ghost predicate NoDuplicates<T>(s: seq<T>) {
    forall i, j :: 0 <= i < j < |s| ==> s[i] != s[j]
  }

  predicate StartsWith(s: string, prefix: string) {
    |prefix| <= |s| && s[..|prefix|] == prefix
  }

  /** The first position whose element satisfies `p`; `|s|` when there is none. */
  function IndexOf<T>(s: seq<T>, p: T -> bool): (k: nat)
    ensures k <= |s|
    ensures k < |s| ==> p(s[k])
    ensures forall j :: 0 <= j < k ==> !p(s[j])
  {
    if s == [] then 0
    else if p(s[0]) then 0
    else
      assert s == [s[0]] + s[1..];
      1 + IndexOf(s[1..], p)
  }

  function Elements<T>(s: seq<T>): (r: set<T>) {
    set x | x in s
  }

  lemma {:induction false} DistinctCount<T>(s: seq<T>)
    requires NoDuplicates(s)
    ensures |Elements(s)| == |s|
  {
    if s != [] {
      var n := |s| - 1;
      DistinctCount(s[..n]);
      assert Elements(s) == Elements(s[..n]) + {s[n]} by {
        assert s == s[..n] + [s[n]];
      }
      assert s[n] !in Elements(s[..n]);
    }
  }
}
