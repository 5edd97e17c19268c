/** First-occurrence de-duplication of retrieved chunk texts, as both the
    document-search tools do it: a `seen` set and a single pass that keeps a
    document only when its text has not been seen before. */
module Retrieval {

  predicate NoDuplicates(xs: seq<string>) {
    forall i, j :: 0 <= i < j < |xs| ==> xs[i] != xs[j]
  }

  /** Reference definition: `xs[i]` is kept exactly when it does not occur
      in `xs[..i]`. */
  function Dedup(xs: seq<string>): (r: seq<string>)
    ensures forall x :: x in r <==> x in xs
    ensures NoDuplicates(r)
    ensures |r| <= |xs|
  {
    if |xs| == 0 then []
    else
      var init := xs[..|xs| - 1];
      var last := xs[|xs| - 1];
      assert forall x :: x in xs <==> x in init || x == last;
      if last in init then Dedup(init) else Dedup(init) + [last]
  }

  /** Index of the first occurrence of `x` in `xs`. */
  function FirstIndex(xs: seq<string>, x: string): (k: nat)
    requires x in xs
    ensures k < |xs| && xs[k] == x && x !in xs[..k]
  {
    if xs[0] == x then 0 else 1 + FirstIndex(xs[1..], x)
  }

  lemma {:induction false} FirstIndexOfPrefix(xs: seq<string>, n: nat, x: string)
    requires n <= |xs| && x in xs[..n]
    ensures FirstIndex(xs, x) == FirstIndex(xs[..n], x)
  {
    var k := FirstIndex(xs[..n], x);
    assert xs[..n][..k] == xs[..k];
  }

  /** The kept texts appear in the order of their first occurrence. */
  lemma {:induction false} DedupKeepsFirstOccurrenceOrder(xs: seq<string>)
    ensures forall i, j :: 0 <= i < j < |Dedup(xs)| ==>
              FirstIndex(xs, Dedup(xs)[i]) < FirstIndex(xs, Dedup(xs)[j])
  {
    if |xs| > 0 {
      var init := xs[..|xs| - 1];
      var last := xs[|xs| - 1];
      var d := Dedup(init);
      DedupKeepsFirstOccurrenceOrder(init);
      forall i, j | 0 <= i < j < |Dedup(xs)|
        ensures FirstIndex(xs, Dedup(xs)[i]) < FirstIndex(xs, Dedup(xs)[j])
      {
        var a := Dedup(xs)[i];
        var b := Dedup(xs)[j];
        assert a == d[i];
        FirstIndexOfPrefix(xs, |xs| - 1, a);
        if j < |d| {
          assert b == d[j];
          FirstIndexOfPrefix(xs, |xs| - 1, b);
        } else {
          assert b == last && last !in init;
          assert FirstIndex(xs, b) == |xs| - 1 by {
            assert xs[..|xs| - 1] == init;
          }
        }
      }
    }
  }

  /** A list that already has no duplicates is left as it is, so
      de-duplicating twice changes nothing. */
  lemma {:induction false} DedupIdempotent(xs: seq<string>)
    requires NoDuplicates(xs)
    ensures Dedup(xs) == xs
  {
    if |xs| > 0 {
      var init := xs[..|xs| - 1];
      DedupIdempotent(init);
      assert xs[|xs| - 1] !in init;
      assert init + [xs[|xs| - 1]] == xs;
    }
  }

  /** The loop of the source: scan the documents once, remembering the texts
      already seen. */
  method DedupScan(docs: seq<string>) returns (unique: seq<string>)
    ensures unique == Dedup(docs)
  {
    var seen: set<string> := {};
    unique := [];
    var i := 0;
    while i < |docs|
      invariant i <= |docs|
      invariant unique == Dedup(docs[..i])
      invariant seen == set x | x in unique
    {
      var d := docs[i];
      assert docs[..i + 1][..i] == docs[..i];
      if d !in seen {
        seen := seen + {d};
        unique := unique + [d];
      }
      i := i + 1;
    }
    assert docs[..i] == docs;
  }
}
