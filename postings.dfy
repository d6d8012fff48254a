/** The postings file `index.dat`: a flat array of floats in which every three
    consecutive values are one posting `doc id, term column, weight`. The
    writer lays the non-zero matrix entries out in order; a query reads the
    array back three values at a time and keeps the records of one column. */
module Postings {
  import opened Basics
  import opened Records
  import opened Catalogs

  /** `int(x)` on a float: truncation toward zero. */
  function Trunc(x: real): int {
    if x >= 0.0 then x.Floor else -((-x).Floor)
  }

  /** An integer stored as a float reads back as itself. */
  lemma TruncOfInt(n: int)
    ensures Trunc(n as real) == n
  {
    if n < 0 {
      assert -(n as real) == (-n) as real;
    }
  }

  /** The three floats written for one posting. */
  function Triple(q: Posting): seq<real> {
    [q.doc as real, q.column as real, q.weight]
  }

  /** The contents of `index.dat` written from `entries`, one triple per entry. */
  function Encode(entries: seq<Posting>): seq<real> {
    if entries == [] then []
    else Encode(entries[..|entries| - 1]) + Triple(entries[|entries| - 1])
  }

  /** The array read back as whole records, every field passed through `int()`
      except the weight. */
  function Decode(p: seq<real>): seq<Posting> {
    seq(|p| / 3, k requires 0 <= k < |p| / 3 =>
      Posting(Trunc(p[3 * k]), Trunc(p[3 * k + 1]), p[3 * k + 2]))
  }

  /** The postings of one column, in order. */
  function OnColumn(ps: seq<Posting>, column: int): seq<Posting> {
    if ps == [] then []
    else (if ps[0].column == column then [ps[0]] else []) + OnColumn(ps[1..], column)
  }

  function Prepend(hits: seq<Hit>, r: Result<seq<Hit>, Error>): Result<seq<Hit>, Error> {
    match r
    case Success(rest) => Success(hits + rest)
    case Failure(e) => Failure(e)
  }

  /** The hits for `ps`, each doc id resolved through the document catalog; the
      first id that does not resolve fails the whole sequence. */
  function Resolve(ps: seq<Posting>, docs: Option<seq<DocRow>>, text: string): Result<seq<Hit>, Error> {
    if ps == [] then Success([])
    else
      match NameAt(docs, ps[0].doc)
      case Failure(e) => Failure(e)
      case Success(name) => Prepend([Hit(name, text, ps[0].weight)], Resolve(ps[1..], docs, text))
  }

  /** The scan of `query`: `for i in range(0, len(p), 3)`, compare `int(p[i + 1])`
      with the column and, on a match, append `(id_to_name(int(p[i])), text,
      p[i + 2])`. Reading past the end of the array fails, as `p[i + 1]` does for
      every trailing record and `p[i + 2]` does for a trailing record that matches. */
  function Scan(p: seq<real>, column: int, docs: Option<seq<DocRow>>, text: string): Result<seq<Hit>, Error>
    decreases |p|
  {
    if p == [] then Success([])
    else if |p| == 1 then Failure(TruncatedPostings)
    else if Trunc(p[1]) != column then
      (if |p| == 2 then Success([]) else Scan(p[3..], column, docs, text))
    else
      match NameAt(docs, Trunc(p[0]))
      case Failure(e) => Failure(e)
      case Success(name) =>
        if |p| == 2 then Failure(TruncatedPostings)
        else Prepend([Hit(name, text, p[2])], Scan(p[3..], column, docs, text))
  }

  /** Where each field of each entry lands in the flat array. */
  lemma {:induction false} EncodeLayout(entries: seq<Posting>)
    ensures |Encode(entries)| == 3 * |entries|
    ensures forall k :: 0 <= k < |entries| ==>
      Encode(entries)[3 * k] == entries[k].doc as real &&
      Encode(entries)[3 * k + 1] == entries[k].column as real &&
      Encode(entries)[3 * k + 2] == entries[k].weight
    decreases |entries|
  {
    if entries != [] {
      var init := entries[..|entries| - 1];
      EncodeLayout(init);
      forall k | 0 <= k < |entries|
        ensures Encode(entries)[3 * k] == entries[k].doc as real
        ensures Encode(entries)[3 * k + 1] == entries[k].column as real
        ensures Encode(entries)[3 * k + 2] == entries[k].weight
      {
        if k < |init| {
          assert entries[k] == init[k];
        }
      }
    }
  }

  /** Reading the written array back gives exactly the entries that were written. */
  lemma DecodeEncode(entries: seq<Posting>)
    ensures Decode(Encode(entries)) == entries
  {
    EncodeLayout(entries);
    var p := Encode(entries);
    assert |p| / 3 == |entries|;
    forall k | 0 <= k < |entries|
      ensures Decode(p)[k] == entries[k]
    {
      TruncOfInt(entries[k].doc);
      TruncOfInt(entries[k].column);
    }
  }

  lemma DecodeFirst(p: seq<real>)
    requires |p| >= 3 && |p| % 3 == 0
    ensures Decode(p) == [Posting(Trunc(p[0]), Trunc(p[1]), p[2])] + Decode(p[3..])
  {
    var q := p[3..];
    assert |q| / 3 == |p| / 3 - 1;
    forall k | 0 <= k < |q| / 3
      ensures Decode(p)[k + 1] == Decode(q)[k]
    {
      assert p[3 * (k + 1)] == q[3 * k];
      assert p[3 * (k + 1) + 1] == q[3 * k + 1];
      assert p[3 * (k + 1) + 2] == q[3 * k + 2];
    }
  }

  /** On a whole number of records, the scan is: decode the records, keep those
      of the column, resolve their doc ids. */
  lemma {:induction false} ScanDecoded(p: seq<real>, column: int, docs: Option<seq<DocRow>>, text: string)
    requires |p| % 3 == 0
    ensures Scan(p, column, docs, text) == Resolve(OnColumn(Decode(p), column), docs, text)
    decreases |p|
  {
    if p != [] {
      DecodeFirst(p);
      ScanDecoded(p[3..], column, docs, text);
      var d := Decode(p);
      assert d[1..] == Decode(p[3..]);
      var rest := OnColumn(Decode(p[3..]), column);
      if Trunc(p[1]) == column {
        assert OnColumn(d, column) == [d[0]] + rest;
        assert ([d[0]] + rest)[1..] == rest;
      } else {
        assert OnColumn(d, column) == rest;
      }
    }
  }

  /** The scan succeeds only when the array holds whole records, or when the
      one incomplete trailing record is of another column. */
  lemma {:induction false} ScanNeedsWholeRecords(p: seq<real>, column: int, docs: Option<seq<DocRow>>, text: string)
    requires Scan(p, column, docs, text).Success?
    ensures |p| % 3 == 0 || (|p| % 3 == 2 && Trunc(p[|p| - 1]) != column)
    decreases |p|
  {
    if |p| > 3 {
      ScanNeedsWholeRecords(p[3..], column, docs, text);
      assert p[3..][|p| - 4] == p[|p| - 1];
    }
  }

  /** Resolution succeeds exactly when every doc id resolves, and then yields one
      hit per posting, in order, carrying the posting's weight. */
  lemma {:induction false} ResolveSpec(ps: seq<Posting>, docs: Option<seq<DocRow>>, text: string)
    ensures Resolve(ps, docs, text).Success? <==>
      forall k :: 0 <= k < |ps| ==> NameAt(docs, ps[k].doc).Success?
    ensures Resolve(ps, docs, text).Success? ==>
      var hits := Resolve(ps, docs, text).value;
      |hits| == |ps| &&
      forall k :: 0 <= k < |ps| ==>
        hits[k] == Hit(NameAt(docs, ps[k].doc).value, text, ps[k].weight)
  {
    if ps != [] {
      ResolveSpec(ps[1..], docs, text);
      assert forall k :: 1 <= k < |ps| ==> ps[k] == ps[1..][k - 1];
    }
  }

  /** The postings of a column are exactly the postings with that column, each
      as often as it occurs, in order. */
  lemma {:induction false} OnColumnSpec(ps: seq<Posting>, column: int)
    ensures forall q :: q in OnColumn(ps, column) <==> q in ps && q.column == column
    ensures forall q :: multiset(OnColumn(ps, column))[q] == if q.column == column then multiset(ps)[q] else 0
    ensures |OnColumn(ps, column)| <= |ps|
  {
    if ps != [] {
      OnColumnSpec(ps[1..], column);
      assert ps == [ps[0]] + ps[1..];
    }
  }

  /** Every hit of a scan carries the query text. */
  lemma {:induction false} ScanTerms(p: seq<real>, column: int, docs: Option<seq<DocRow>>, text: string)
    requires Scan(p, column, docs, text).Success?
    ensures forall k :: 0 <= k < |Scan(p, column, docs, text).value| ==> Scan(p, column, docs, text).value[k].term == text
    decreases |p|
  {
    if |p| > 3 {
      ScanTerms(p[3..], column, docs, text);
    }
  }
}
