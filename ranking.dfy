/** `doc.sort(key=lambda x: x[2], reverse=True)`: a stable sort of the hits by
    weight, largest first. Equal weights keep their scan order. */
module Ranking {
  import opened Records

  predicate SortedByWeight(hits: seq<Hit>) {
    forall i, j :: 0 <= i < j < |hits| ==> hits[i].weight >= hits[j].weight
  }

  /** The hits of weight `w`, in their order. */
  function WithWeight(hits: seq<Hit>, w: real): seq<Hit> {
    if hits == [] then []
    else (if hits[0].weight == w then [hits[0]] else []) + WithWeight(hits[1..], w)
  }

  /** Puts `h` before the first hit that does not outweigh it. */
  function Insert(h: Hit, hits: seq<Hit>): seq<Hit> {
    if hits == [] || hits[0].weight <= h.weight then [h] + hits
    else [hits[0]] + Insert(h, hits[1..])
  }

  function SortByWeight(hits: seq<Hit>): seq<Hit> {
    if hits == [] then [] else Insert(hits[0], SortByWeight(hits[1..]))
  }

  lemma {:induction false} InsertPermutes(h: Hit, hits: seq<Hit>)
    ensures multiset(Insert(h, hits)) == multiset(hits) + multiset{h}
  {
    if hits != [] && hits[0].weight > h.weight {
      InsertPermutes(h, hits[1..]);
      assert hits == [hits[0]] + hits[1..];
    }
  }

  lemma {:induction false} InsertSorted(h: Hit, hits: seq<Hit>)
    requires SortedByWeight(hits)
    ensures SortedByWeight(Insert(h, hits))
  {
    if hits != [] && hits[0].weight > h.weight {
      var rest := Insert(h, hits[1..]);
      InsertSorted(h, hits[1..]);
      InsertPermutes(h, hits[1..]);
      forall x | x in rest
        ensures x.weight <= hits[0].weight
      {
        assert x in multiset(rest);
        if x != h {
          assert x in hits[1..];
        }
      }
    }
  }

  /** The sorted hits never increase in weight. */
  lemma {:induction false} SortSorted(hits: seq<Hit>)
    ensures SortedByWeight(SortByWeight(hits))
  {
    if hits != [] {
      SortSorted(hits[1..]);
      InsertSorted(hits[0], SortByWeight(hits[1..]));
    }
  }

  /** Sorting keeps every hit, as often as it occurs. */
  lemma {:induction false} SortPermutes(hits: seq<Hit>)
    ensures multiset(SortByWeight(hits)) == multiset(hits)
  {
    if hits != [] {
      SortPermutes(hits[1..]);
      InsertPermutes(hits[0], SortByWeight(hits[1..]));
      assert hits == [hits[0]] + hits[1..];
    }
  }

  lemma {:induction false} WithWeightAppend(a: seq<Hit>, b: seq<Hit>, w: real)
    ensures WithWeight(a + b, w) == WithWeight(a, w) + WithWeight(b, w)
  {
    if a != [] {
      WithWeightAppend(a[1..], b, w);
      assert (a + b)[1..] == a[1..] + b;
    } else {
      assert a + b == b;
    }
  }

  lemma {:induction false} InsertWithWeight(h: Hit, hits: seq<Hit>, w: real)
    ensures WithWeight(Insert(h, hits), w) == (if h.weight == w then [h] else []) + WithWeight(hits, w)
  {
    if hits == [] || hits[0].weight <= h.weight {
      WithWeightAppend([h], hits, w);
    } else {
      WithWeightAppend([hits[0]], Insert(h, hits[1..]), w);
      InsertWithWeight(h, hits[1..], w);
      WithWeightAppend([hits[0]], hits[1..], w);
      assert hits == [hits[0]] + hits[1..];
    }
  }

  /** Stability: the hits of any one weight come out in the order they went in. */
  lemma {:induction false} SortStable(hits: seq<Hit>, w: real)
    ensures WithWeight(SortByWeight(hits), w) == WithWeight(hits, w)
  {
    if hits != [] {
      SortStable(hits[1..], w);
      InsertWithWeight(hits[0], SortByWeight(hits[1..]), w);
    }
  }
}
