/** A few facts about sequences, texts and finite sets. */
module Collections {

  function Min(a: nat, b: nat): nat { if a < b then a else b }

  function Front<T>(run: seq<T>): (r: seq<T>)
    requires run != []
    ensures |r| == |run| - 1
  {
    run[..|run| - 1]
  }

  function Last<T>(run: seq<T>): T
    requires run != []
  {
    run[|run| - 1]
  }

  function JoinWith(separator: string, parts: seq<string>): string {
    if parts == [] then []
    else if |parts| == 1 then parts[0]
    else parts[0] + separator + JoinWith(separator, parts[1..])
  }

  lemma SubsetSize<T>(a: set<T>, b: set<T>)
    requires a <= b
    ensures |a| <= |b|
    ensures a != b ==> |a| < |b|
  {
    assert b == a + (b - a);
    assert |b| == |a| + |b - a|;
  }
}
