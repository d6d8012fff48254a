/** What a query means, as functions of the artifacts it reads: the answer of
    `query(text)`, the history it leaves behind, and the display lines `run`
    makes of the answer. */
module Search {
  import opened Basics
  import opened Records
  import opened Catalogs
  import opened Postings
  import opened Ranking
  import opened History
  import opened Builder

  /** The memo exists and already has the term. */
  predicate InMemo(history: Option<Memo>, text: string) {
    history.Some? && text in history.value
  }

  /** The memo as `store_history` starts from it: the stored map, or `{}`. */
  function OrEmpty(history: Option<Memo>): Memo {
    if history.Some? then history.value else map[]
  }

  /** Reading `index.dat` and scanning it for the column. */
  function ScanOf(index: Option<seq<real>>, column: int, docs: Option<seq<DocRow>>, text: string): Result<seq<Hit>, Error> {
    if index.None? then Failure(Missing(PostingsFile)) else Scan(index.value, column, docs, text)
  }

  /** `query(text)`: None when no term row matches; the replayed memo on a
      history hit; otherwise the scan, sorted by weight, largest first. */
  function Answer(terms: Option<seq<TermRow>>, index: Option<seq<real>>, docs: Option<seq<DocRow>>,
                  history: Option<Memo>, text: string): Result<Option<seq<Hit>>, Error>
  {
    if terms.None? then Failure(Missing(TermsFile))
    else match FirstColumn(terms.value, text)
      case None => Success(None)
      case Some(column) =>
        if InMemo(history, text) then Success(Some(Replay(history.value[text], text)))
        else match ScanOf(index, column, docs, text)
          case Failure(e) => Failure(e)
          case Success(hits) => Success(Some(SortByWeight(hits)))
  }

  /** The memo after `query(text)`: only a completed scan stores its result. */
  function HistoryAfter(terms: Option<seq<TermRow>>, index: Option<seq<real>>, docs: Option<seq<DocRow>>,
                        history: Option<Memo>, text: string): Option<Memo>
  {
    match Answer(terms, index, docs, history, text)
    case Success(Some(hits)) =>
      if InMemo(history, text) then history else Some(RememberAll(OrEmpty(history), hits))
    case _ => history
  }

  /** `f"{tf_idf} - {doc_name}"`, with the float's text given by `show`. */
  function Display(h: Hit, show: real -> string): string {
    show(h.weight) + " - " + h.name
  }

  /** One display line per hit, in order. */
  function Lines(hits: seq<Hit>, show: real -> string): seq<string> {
    seq(|hits|, i requires 0 <= i < |hits| => Display(hits[i], show))
  }

  /** What `run` returns for an answer. */
  function Present(answer: Result<Option<seq<Hit>>, Error>, show: real -> string): Result<seq<string>, Error> {
    match answer
    case Failure(e) => Failure(e)
    case Success(None) => Success(["No result."])
    case Success(Some(hits)) => Success(Lines(hits, show))
  }

  /** A term with no catalog row gives "No result.", whatever the postings and
      the memo hold, and leaves the memo alone. */
  lemma TermNotFound(rows: seq<TermRow>, index: Option<seq<real>>, docs: Option<seq<DocRow>>,
                     history: Option<Memo>, text: string, show: real -> string)
    requires forall i :: 0 <= i < |rows| ==> rows[i].term != text
    ensures Answer(Some(rows), index, docs, history, text) == Success(None)
    ensures HistoryAfter(Some(rows), index, docs, history, text) == history
    ensures Present(Answer(Some(rows), index, docs, history, text), show) == Success(["No result."])
  {
  }

  /** A history hit returns the memo's pairs under the term, in memo order,
      whatever the postings and the document catalog hold. */
  lemma HistoryHit(rows: seq<TermRow>, index: Option<seq<real>>, docs: Option<seq<DocRow>>,
                   memo: Memo, text: string)
    requires exists i :: 0 <= i < |rows| && rows[i].term == text
    requires text in memo
    ensures Answer(Some(rows), index, docs, Some(memo), text) == Success(Some(Replay(memo[text], text)))
    ensures HistoryAfter(Some(rows), index, docs, Some(memo), text) == Some(memo)
  {
  }

  lemma AnswerTerms(terms: Option<seq<TermRow>>, index: Option<seq<real>>, docs: Option<seq<DocRow>>,
                    history: Option<Memo>, text: string)
    requires Answer(terms, index, docs, history, text).Success?
    requires Answer(terms, index, docs, history, text).value.Some?
    ensures forall h :: h in Answer(terms, index, docs, history, text).value.value ==> h.term == text
  {
    var column := FirstColumn(terms.value, text).value;
    if !InMemo(history, text) {
      var hits := ScanOf(index, column, docs, text).value;
      ScanTerms(index.value, column, docs, text);
      SortPermutes(hits);
      forall h | h in SortByWeight(hits)
        ensures h.term == text
      {
        assert h in multiset(SortByWeight(hits));
      }
    }
  }

  /** On a scan over whole records whose matching doc ids all resolve, the
      answer holds exactly the records of the term's column, each as (name of
      its document row, text, weight), sorted with weights never increasing,
      and records of equal weight in scan order. */
  lemma ScanAnswer(rows: seq<TermRow>, p: seq<real>, docs: Option<seq<DocRow>>,
                   history: Option<Memo>, text: string)
    requires FirstColumn(rows, text).Some? && !InMemo(history, text)
    requires |p| % 3 == 0
    requires forall q :: q in OnColumn(Decode(p), FirstColumn(rows, text).value) ==> NameAt(docs, q.doc).Success?
    ensures Answer(Some(rows), Some(p), docs, history, text).Success?
    ensures Answer(Some(rows), Some(p), docs, history, text).value.Some?
    ensures
      var hits := Answer(Some(rows), Some(p), docs, history, text).value.value;
      var ps := OnColumn(Decode(p), FirstColumn(rows, text).value);
      var expected := Resolve(ps, docs, text);
      && expected.Success?
      && |expected.value| == |ps|
      && (forall k :: 0 <= k < |ps| ==> expected.value[k] == Hit(NameAt(docs, ps[k].doc).value, text, ps[k].weight))
      && multiset(hits) == multiset(expected.value)
      && SortedByWeight(hits)
      && (forall w :: WithWeight(hits, w) == WithWeight(expected.value, w))
  {
    var column := FirstColumn(rows, text).value;
    var ps := OnColumn(Decode(p), column);
    ScanDecoded(p, column, docs, text);
    ResolveSpec(ps, docs, text);
    var found := Resolve(ps, docs, text).value;
    SortSorted(found);
    SortPermutes(found);
    forall w | true
      ensures WithWeight(SortByWeight(found), w) == WithWeight(found, w)
    {
      SortStable(found, w);
    }
  }

  /** The first scan of a term stores exactly its sorted pairs under the term,
      once, and changes no other key; an empty result stores nothing. */
  lemma FirstStoreExact(terms: Option<seq<TermRow>>, index: Option<seq<real>>, docs: Option<seq<DocRow>>,
                        history: Option<Memo>, text: string)
    requires !InMemo(history, text)
    requires Answer(terms, index, docs, history, text).Success?
    requires Answer(terms, index, docs, history, text).value.Some?
    ensures
      var hits := Answer(terms, index, docs, history, text).value.value;
      HistoryAfter(terms, index, docs, history, text) ==
        Some(if hits == [] then OrEmpty(history) else OrEmpty(history)[text := Entries(hits)])
  {
    var hits := Answer(terms, index, docs, history, text).value.value;
    AnswerTerms(terms, index, docs, history, text);
    assert forall k :: 0 <= k < |hits| ==> hits[k] in hits;
    RememberAllOneTerm(OrEmpty(history), hits, text);
    assert text !in OrEmpty(history);
    assert [] + Entries(hits) == Entries(hits);
  }

  /** Asking the same question twice gives the same answer, and the second
      call leaves the memo as the first left it. */
  lemma QueryTwice(terms: Option<seq<TermRow>>, index: Option<seq<real>>, docs: Option<seq<DocRow>>,
                   history: Option<Memo>, text: string)
    requires Answer(terms, index, docs, history, text).Success?
    ensures
      var after := HistoryAfter(terms, index, docs, history, text);
      && Answer(terms, index, docs, after, text) == Answer(terms, index, docs, history, text)
      && HistoryAfter(terms, index, docs, after, text) == after
  {
    var answer := Answer(terms, index, docs, history, text);
    if answer.value.Some? && !InMemo(history, text) {
      var hits := answer.value.value;
      FirstStoreExact(terms, index, docs, history, text);
      AnswerTerms(terms, index, docs, history, text);
      if hits != [] {
        ReplayEntries(hits, text);
      }
    }
  }

  /** A build into an empty directory, whose vectorizer accepts the corpus and
      gives every entry a corpus row, raises nothing, and no query on what it
      wrote fails: every doc id in the postings has a document row. */
  lemma {:induction false} FreshIndexAnswers(files: seq<SourceFile>, vectorize: Vectorizer, history: Option<Memo>, text: string)
    requires CorpusOf(files) != []
    requires vectorize(CorpusOf(files)).Some?
    requires var m := vectorize(CorpusOf(files)).value;
      forall k :: 0 <= k < |m.entries| ==> 0 <= m.entries[k].doc < |CorpusOf(files)|
    ensures BuildError(None, None, None, Some(files), vectorize).None?
    ensures var after := AfterBuild(None, None, None, Some(files), vectorize);
      Answer(after.1, after.0, after.2, history, text).Success?
  {
    var m := vectorize(CorpusOf(files)).value;
    var after := AfterBuild(None, None, None, Some(files), vectorize);
    assert after == (Some(Encode(m.entries)), Some(m.vocabulary), Some(FileStats(files)));
    var column := FirstColumn(m.vocabulary, text);
    if column.Some? {
      BuiltScan(files, m.entries, column.value, text);
      assert ScanOf(after.0, column.value, after.2, text).Success?;
    }
  }
}
