/** The search engine as it acts on its directory: the corpus folder and the
    four artifact files `index.dat`, `terms.csv`, `document.csv` and
    `history.pkl`, each absent (None) or holding its rows. */
module Searcher {
  import opened Basics
  import opened Records
  import opened Cleaning
  import opened Catalogs
  import opened Postings
  import opened Ranking
  import opened History
  import opened Builder
  import opened Search

  class AppDir {
    /** The `*.txt` files of `large-sample/`, in listing order; None when the folder is missing. */
    const folder: Option<seq<SourceFile>>
    var index: Option<seq<real>>
    var terms: Option<seq<TermRow>>
    var docs: Option<seq<DocRow>>
    var history: Option<Memo>

    constructor (folder: Option<seq<SourceFile>>, index: Option<seq<real>>, terms: Option<seq<TermRow>>,
                 docs: Option<seq<DocRow>>, history: Option<Memo>)
      ensures this.folder == folder && this.index == index && this.terms == terms
      ensures this.docs == docs && this.history == history
    {
      this.folder := folder;
      this.index := index;
      this.terms := terms;
      this.docs := docs;
      this.history := history;
    }

    /** `main`: when some artifact is missing, validate and clean the corpus,
        vectorize it and write the missing artifacts. */
    method Build(vectorize: Vectorizer) returns (r: Outcome<Error>)
      modifies this`index, this`terms, this`docs
      ensures var e := BuildError(old(index), old(terms), old(docs), folder, vectorize);
        r == if e.Some? then Fail(e.value) else Pass
      ensures (index, terms, docs) == AfterBuild(old(index), old(terms), old(docs), folder, vectorize)
    {
      var fileStat: seq<DocRow> := [];
      var corpus: seq<string> := [];
      if index.None? || terms.None? || docs.None? {
        if folder.None? {
          return Fail(CorpusMissing);
        }
        var files := folder.value;
        if files == [] {
          return Fail(NoTextFiles);
        }
        for k := 0 to |files|
          invariant fileStat == FileStats(files[..k])
          invariant corpus == CorpusOf(files[..k])
        {
          assert files[..k + 1][..k] == files[..k];
          fileStat := fileStat + [DocRow(files[k].name, files[k].size)];
          var cleaned := Clean(files[k].content);
          if cleaned != "" {
            corpus := corpus + [cleaned];
          }
        }
        assert files[..|files|] == files;
        if corpus == [] {
          return Fail(AllDocumentsEmpty);
        }
        var vectorized := vectorize(corpus);
        if vectorized.None? {
          return Fail(EmptyVocabulary);
        }
        var m := vectorized.value;
        CreateIndex(m.entries);
        CreateTerms(m.vocabulary);
        CreateDoc(fileStat);
      }
      return Pass;
    }

    /** `create_terms`: one row per vocabulary item, unless `terms.csv` exists. */
    method CreateTerms(vocabulary: seq<TermRow>)
      modifies this`terms
      ensures terms == Written(old(terms), vocabulary)
    {
      if terms.None? {
        var rows: seq<TermRow> := [];
        for k := 0 to |vocabulary|
          invariant rows == vocabulary[..k]
        {
          rows := rows + [TermRow(vocabulary[k].term, vocabulary[k].column)];
        }
        assert vocabulary[..|vocabulary|] == vocabulary;
        terms := Some(rows);
      }
    }

    /** `create_doc`: one row per `file_stat` entry, unless `document.csv` exists. */
    method CreateDoc(fileStat: seq<DocRow>)
      modifies this`docs
      ensures docs == Written(old(docs), fileStat)
    {
      if docs.None? {
        var rows: seq<DocRow> := [];
        for k := 0 to |fileStat|
          invariant rows == fileStat[..k]
        {
          rows := rows + [DocRow(fileStat[k].name, fileStat[k].size)];
        }
        assert fileStat[..|fileStat|] == fileStat;
        docs := Some(rows);
      }
    }

    /** `create_index`: three floats per non-zero entry, in enumeration order,
        unless `index.dat` exists. */
    method CreateIndex(entries: seq<Posting>)
      modifies this`index
      ensures index == Written(old(index), Encode(entries))
    {
      if index.None? {
        var out: seq<real> := [];
        for k := 0 to |entries|
          invariant out == Encode(entries[..k])
        {
          assert entries[..k + 1][..k] == entries[..k];
          out := out + [entries[k].doc as real, entries[k].column as real, entries[k].weight];
        }
        assert entries[..|entries|] == entries;
        index := Some(out);
      }
    }

    /** `id_to_name`: read every row of `document.csv`, then index the rows. */
    method IdToName(id: int) returns (r: Result<string, Error>)
      ensures r == NameAt(docs, id)
    {
      if docs.None? {
        return Failure(Missing(DocumentsFile));
      }
      var fileName: seq<DocRow> := [];
      for k := 0 to |docs.value|
        invariant fileName == docs.value[..k]
      {
        fileName := fileName + [docs.value[k]];
      }
      assert fileName == docs.value;
      var n := |fileName|;
      if 0 <= id < n {
        return Success(fileName[id].name);
      } else if -n <= id < 0 {
        return Success(fileName[n + id].name);
      }
      return Failure(DocIdOutOfRange(id));
    }

    /** The term lookup of `query`: the column of the first row whose term is
        `text`, or None. */
    method LookupColumn(text: string) returns (r: Result<Option<int>, Error>)
      ensures terms.None? ==> r == Failure(Missing(TermsFile))
      ensures terms.Some? ==> r == Success(FirstColumn(terms.value, text))
    {
      if terms.None? {
        return Failure(Missing(TermsFile));
      }
      var rows := terms.value;
      var exist := false;
      var column := 0;
      var k := 0;
      while k < |rows|
        invariant 0 <= k <= |rows|
        invariant forall j :: 0 <= j < k ==> rows[j].term != text
      {
        if text == rows[k].term {
          column := rows[k].column;
          exist := true;
          break;
        }
        k := k + 1;
      }
      if !exist {
        return Success(None);
      }
      return Success(Some(column));
    }

    /** The scan of `query`: every three floats of `index.dat`, keeping the
        records of `column`, each doc id resolved through `id_to_name`. */
    method ScanIndex(column: int, text: string) returns (r: Result<seq<Hit>, Error>)
      ensures r == ScanOf(index, column, docs, text)
    {
      if index.None? {
        return Failure(Missing(PostingsFile));
      }
      var p := index.value;
      var doc: seq<Hit> := [];
      var i := 0;
      assert p[0..] == p;
      assert Scan(p, column, docs, text).Success? ==> [] + Scan(p, column, docs, text).value == Scan(p, column, docs, text).value;
      while i < |p|
        invariant 0 <= i <= |p|
        invariant Scan(p, column, docs, text) == Prepend(doc, Scan(p[i..], column, docs, text))
      {
        if i + 1 >= |p| {
          return Failure(TruncatedPostings);
        }
        if column == Trunc(p[i + 1]) {
          var name :- IdToName(Trunc(p[i]));
          if i + 2 >= |p| {
            return Failure(TruncatedPostings);
          }
          ghost var rest := Scan(p[i + 3..], column, docs, text);
          assert p[i..][3..] == p[i + 3..];
          assert rest.Success? ==> (doc + [Hit(name, text, p[i + 2])]) + rest.value == doc + ([Hit(name, text, p[i + 2])] + rest.value);
          doc := doc + [Hit(name, text, p[i + 2])];
        } else if i + 3 <= |p| {
          assert p[i..][3..] == p[i + 3..];
        }
        if i + 3 > |p| {
          break;
        }
        i := i + 3;
      }
      assert doc + [] == doc;
      return Success(doc);
    }

    /** `query(text)` */
    method Query(text: string) returns (r: Result<Option<seq<Hit>>, Error>)
      modifies this`history
      ensures r == Answer(terms, index, docs, old(history), text)
      ensures history == HistoryAfter(terms, index, docs, old(history), text)
    {
      var found :- LookupColumn(text);
      if found.None? {
        return Success(None);
      }
      var column := found.value;
      if history.Some? && text in history.value {
        var cached := history.value[text];
        var doc: seq<Hit> := [];
        for k := 0 to |cached|
          invariant |doc| == k
          invariant forall j :: 0 <= j < k ==> doc[j] == Hit(cached[j].name, text, cached[j].weight)
        {
          doc := doc + [Hit(cached[k].name, text, cached[k].weight)];
        }
        assert doc == Replay(cached, text);
        return Success(Some(doc));
      }
      var doc :- ScanIndex(column, text);
      doc := SortByWeight(doc);
      StoreHistory(doc);
      return Success(Some(doc));
    }

    /** `store_history`: fold `history` over the hits, starting from the stored
        memo or from `{}`, and write the memo back. */
    method StoreHistory(doc: seq<Hit>)
      modifies this`history
      ensures history == Some(RememberAll(OrEmpty(old(history)), doc))
    {
      var historyDict: Memo;
      if history.None? {
        historyDict := map[];
      } else {
        historyDict := history.value;
      }
      for k := 0 to |doc|
        invariant historyDict == RememberAll(OrEmpty(old(history)), doc[..k])
      {
        assert doc[..k + 1][..k] == doc[..k];
        historyDict := Remember(doc[k].name, doc[k].term, doc[k].weight, historyDict);
      }
      assert doc[..|doc|] == doc;
      history := Some(historyDict);
    }

    /** `run(text)`: build if needed, query the lower-cased text, and turn the
        answer into display lines. */
    method Run(text: string, vectorize: Vectorizer, show: real -> string)
      returns (r: Result<seq<string>, Error>)
      modifies this`index, this`terms, this`docs, this`history
      ensures (index, terms, docs) == AfterBuild(old(index), old(terms), old(docs), folder, vectorize)
      ensures var e := BuildError(old(index), old(terms), old(docs), folder, vectorize);
        && (e.Some? ==> r == Failure(e.value) && history == old(history))
        && (e.None? ==>
              && r == Present(Answer(terms, index, docs, old(history), Lower(text)), show)
              && history == HistoryAfter(terms, index, docs, old(history), Lower(text)))
    {
      var built := Build(vectorize);
      if built.Fail? {
        return Failure(built.error);
      }
      var result :- Query(Lower(text));
      if result.None? {
        return Success(["No result."]);
      }
      var hits := result.value;
      var returnList: seq<string> := [];
      var remaining := |hits|;
      for k := 0 to |hits|
        invariant |returnList| == k
        invariant forall j :: 0 <= j < k ==> returnList[j] == Display(hits[j], show)
      {
        var s := show(hits[k].weight) + " - " + hits[k].name;
        returnList := returnList + [s];
        if remaining != 1 {
          s := s + "\n";
          remaining := remaining - 1;
        }
      }
      assert returnList == Lines(hits, show);
      return Success(returnList);
    }
  }
}
