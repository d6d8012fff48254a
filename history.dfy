/** The search-history memo `history.pkl`: a map from a query term to the
    `(doc_name, tf_idf)` pairs recorded for it. `history` adds one pair;
    `store_history` adds every hit of a result, in order. */
module History {
  import opened Records

  /** One `(doc_name, tf_idf)` pair of the memo. */
  datatype Cached = Cached(name: string, weight: real)

  type Memo = map<string, seq<Cached>>

  /** `history(doc_name, text, tf_idf, d)`: a new key gets a one-pair list, an
      existing key gets the pair appended; every other key is untouched. */
  function Remember(name: string, text: string, weight: real, d: Memo): (d': Memo)
    ensures d'.Keys == d.Keys + {text}
    ensures text !in d ==> d'[text] == [Cached(name, weight)]
    ensures text in d ==> d'[text] == d[text] + [Cached(name, weight)]
    ensures forall t :: t in d && t != text ==> d'[t] == d[t]
  {
    if text !in d then d[text := [Cached(name, weight)]]
    else d[text := d[text] + [Cached(name, weight)]]
  }

  /** The loop of `store_history`: `history` applied to each hit, first to last. */
  function RememberAll(d: Memo, hits: seq<Hit>): Memo {
    if hits == [] then d
    else
      var h := hits[|hits| - 1];
      Remember(h.name, h.term, h.weight, RememberAll(d, hits[..|hits| - 1]))
  }

  /** The pairs recorded for `hits`. */
  function Entries(hits: seq<Hit>): seq<Cached> {
    seq(|hits|, i requires 0 <= i < |hits| => Cached(hits[i].name, hits[i].weight))
  }

  /** `[(doc_name, text, tf_idf) for doc_name, tf_idf in cached]`: the hits a
      history hit returns. */
  function Replay(cached: seq<Cached>, text: string): seq<Hit> {
    seq(|cached|, i requires 0 <= i < |cached| => Hit(cached[i].name, text, cached[i].weight))
  }

  /** Storing hits that all carry the term `text`: nothing changes when there
      are none; otherwise exactly the key `text` changes, and its list grows by
      the hits' pairs in order. */
  lemma {:induction false} RememberAllOneTerm(d: Memo, hits: seq<Hit>, text: string)
    requires forall k :: 0 <= k < |hits| ==> hits[k].term == text
    ensures hits == [] ==> RememberAll(d, hits) == d
    ensures hits != [] ==>
      RememberAll(d, hits) == d[text := (if text in d then d[text] else []) + Entries(hits)]
    decreases |hits|
  {
    if hits != [] {
      var init := hits[..|hits| - 1];
      var h := hits[|hits| - 1];
      RememberAllOneTerm(d, init, text);
      var prior := if text in d then d[text] else [];
      assert Entries(hits) == Entries(init) + [Cached(h.name, h.weight)];
      if init == [] {
        assert [] + [Cached(h.name, h.weight)] == [Cached(h.name, h.weight)];
        assert prior + Entries(hits) == prior + [Cached(h.name, h.weight)];
      } else {
        assert prior + Entries(hits) == (prior + Entries(init)) + [Cached(h.name, h.weight)];
      }
    }
  }

  /** Replaying the recorded pairs under their own term gives back the hits. */
  lemma ReplayEntries(hits: seq<Hit>, text: string)
    requires forall k :: 0 <= k < |hits| ==> hits[k].term == text
    ensures Replay(Entries(hits), text) == hits
  {
  }
}
