/** What `main` computes before it writes anything: the `file_stat` rows (one
    per `*.txt` file), the `corpus` (the cleaned text of every file that is not
    empty once cleaned) and the validation that can abort the build.

    Document ids in the postings are corpus row positions, while the document
    catalog is written from `file_stat`; the two agree only when no skipped file
    comes before a kept one. */
module Builder {
  import opened Basics
  import opened Records
  import opened Cleaning
  import opened Catalogs
  import opened Postings

  /** A file that is empty once cleaned contributes no corpus row. */
  predicate Skipped(f: SourceFile) {
    Clean(f.content) == ""
  }

  /** `file_stat`: `(name, size)` for every file, in folder order. */
  function FileStats(files: seq<SourceFile>): seq<DocRow> {
    if files == [] then []
    else
      var f := files[|files| - 1];
      FileStats(files[..|files| - 1]) + [DocRow(f.name, f.size)]
  }

  /** `corpus`: the cleaned text of every file that is not skipped, in folder order. */
  function CorpusOf(files: seq<SourceFile>): seq<string> {
    if files == [] then []
    else
      var f := files[|files| - 1];
      CorpusOf(files[..|files| - 1]) + (if Skipped(f) then [] else [Clean(f.content)])
  }

  /** For each corpus row, the position of the file it was cleaned from. */
  function Kept(files: seq<SourceFile>): seq<nat> {
    if files == [] then []
    else
      Kept(files[..|files| - 1]) + (if Skipped(files[|files| - 1]) then [] else [|files| - 1])
  }

  /** Document id `k` names document row `k`; it is aligned when corpus row `k`
      came from file `k`. */
  ghost predicate Aligned(files: seq<SourceFile>) {
    forall k :: 0 <= k < |Kept(files)| ==> Kept(files)[k] == k
  }

  /** The validation of `main`: a missing folder, a folder without `*.txt`
      files, and a corpus that is empty once every file is cleaned each abort
      the build; otherwise the corpus handed to the vectorizer. */
  function CorpusFor(folder: Option<seq<SourceFile>>): Result<seq<string>, Error> {
    if folder.None? then Failure(CorpusMissing)
    else if folder.value == [] then Failure(NoTextFiles)
    else if CorpusOf(folder.value) == [] then Failure(AllDocumentsEmpty)
    else Success(CorpusOf(folder.value))
  }

  /** The build runs only when some artifact is missing. */
  predicate Complete(index: Option<seq<real>>, terms: Option<seq<TermRow>>, docs: Option<seq<DocRow>>) {
    index.Some? && terms.Some? && docs.Some?
  }

  /** The error `main` raises, if any: a failed validation, or the vectorizer
      rejecting the corpus. */
  function BuildError(index: Option<seq<real>>, terms: Option<seq<TermRow>>, docs: Option<seq<DocRow>>,
                      folder: Option<seq<SourceFile>>, vectorize: Vectorizer): Option<Error>
  {
    if Complete(index, terms, docs) then None
    else match CorpusFor(folder)
      case Failure(e) => Some(e)
      case Success(corpus) => if vectorize(corpus).None? then Some(EmptyVocabulary) else None
  }

  /** A writer leaves an existing artifact as it is and creates a missing one. */
  function Written<T>(existing: Option<T>, contents: T): Option<T> {
    if existing.Some? then existing else Some(contents)
  }

  /** The three artifacts after `main`: untouched when they all exist or the
      build raises; otherwise each missing one written from the corpus. */
  function AfterBuild(index: Option<seq<real>>, terms: Option<seq<TermRow>>, docs: Option<seq<DocRow>>,
                      folder: Option<seq<SourceFile>>, vectorize: Vectorizer)
    : (Option<seq<real>>, Option<seq<TermRow>>, Option<seq<DocRow>>)
  {
    if Complete(index, terms, docs) || BuildError(index, terms, docs, folder, vectorize).Some? then (index, terms, docs)
    else
      var m := vectorize(CorpusFor(folder).value).value;
      (Written(index, Encode(m.entries)), Written(terms, m.vocabulary), Written(docs, FileStats(folder.value)))
  }

  /** A build that raises nothing leaves all three artifacts in place. */
  lemma BuildCompletes(index: Option<seq<real>>, terms: Option<seq<TermRow>>, docs: Option<seq<DocRow>>,
                       folder: Option<seq<SourceFile>>, vectorize: Vectorizer)
    requires BuildError(index, terms, docs, folder, vectorize).None?
    ensures var after := AfterBuild(index, terms, docs, folder, vectorize);
      Complete(after.0, after.1, after.2)
  {
  }

  /** Building again changes nothing. */
  lemma BuildTwice(index: Option<seq<real>>, terms: Option<seq<TermRow>>, docs: Option<seq<DocRow>>,
                   folder: Option<seq<SourceFile>>, vectorize: Vectorizer)
    requires BuildError(index, terms, docs, folder, vectorize).None?
    ensures var after := AfterBuild(index, terms, docs, folder, vectorize);
      && BuildError(after.0, after.1, after.2, folder, vectorize).None?
      && AfterBuild(after.0, after.1, after.2, folder, vectorize) == after
  {
  }

  lemma {:induction false} FileStatsSpec(files: seq<SourceFile>)
    ensures |FileStats(files)| == |files|
    ensures forall j :: 0 <= j < |files| ==> FileStats(files)[j] == DocRow(files[j].name, files[j].size)
    decreases |files|
  {
    if files != [] {
      var init := files[..|files| - 1];
      FileStatsSpec(init);
      assert forall j :: 0 <= j < |init| ==> files[j] == init[j];
    }
  }

  /** Corpus row `k` is the cleaned text of file `Kept(files)[k]`. */
  lemma {:induction false} KeptSources(files: seq<SourceFile>)
    ensures |Kept(files)| == |CorpusOf(files)| <= |files|
    ensures forall k :: 0 <= k < |Kept(files)| ==>
      Kept(files)[k] < |files| && CorpusOf(files)[k] == Clean(files[Kept(files)[k]].content)
    decreases |files|
  {
    if files != [] {
      var init := files[..|files| - 1];
      KeptSources(init);
      assert forall j :: 0 <= j < |init| ==> files[j] == init[j];
    }
  }

  /** The kept positions are increasing and are exactly the files not skipped. */
  lemma {:induction false} KeptMembers(files: seq<SourceFile>)
    ensures forall k :: 0 <= k < |Kept(files)| ==> Kept(files)[k] < |files|
    ensures forall k, l :: 0 <= k < l < |Kept(files)| ==> Kept(files)[k] < Kept(files)[l]
    ensures forall j :: 0 <= j < |files| ==> (j in Kept(files) <==> !Skipped(files[j]))
    decreases |files|
  {
    if files != [] {
      var init := files[..|files| - 1];
      KeptMembers(init);
      assert forall j :: 0 <= j < |init| ==> files[j] == init[j];
    }
  }

  /** Every file is kept exactly when the corpus has one row per file. */
  lemma {:induction false} KeptAll(files: seq<SourceFile>)
    ensures |Kept(files)| <= |files|
    ensures |Kept(files)| == |files| <==> forall j :: 0 <= j < |files| ==> !Skipped(files[j])
    decreases |files|
  {
    if files != [] {
      var init := files[..|files| - 1];
      KeptAll(init);
      assert forall j :: 0 <= j < |init| ==> files[j] == init[j];
    }
  }

  /** No skipped file comes before a kept one. */
  predicate SkippedLast(files: seq<SourceFile>) {
    forall i, j :: 0 <= i < j < |files| && Skipped(files[i]) ==> Skipped(files[j])
  }

  /** Adding one file keeps the build aligned exactly when that file is skipped
      or every earlier file was kept. */
  lemma AlignedSnoc(files: seq<SourceFile>)
    requires files != []
    ensures var init := files[..|files| - 1];
      Aligned(files) <==> Aligned(init) && (Skipped(files[|files| - 1]) || |Kept(init)| == |init|)
  {
    var init := files[..|files| - 1];
    var n := |init|;
    if Skipped(files[n]) {
      assert Kept(files) == Kept(init);
    } else {
      var ks := Kept(init);
      assert Kept(files) == ks + [n];
      assert forall k :: 0 <= k < |ks| ==> Kept(files)[k] == ks[k];
      if Aligned(files) {
        assert Kept(files)[|ks|] == n;
        assert Aligned(init);
      }
      if Aligned(init) && |ks| == n {
        assert Aligned(files);
      }
    }
  }

  lemma SkippedLastSnoc(files: seq<SourceFile>)
    requires files != []
    ensures var init := files[..|files| - 1];
      SkippedLast(files) <==>
        SkippedLast(init) && (Skipped(files[|files| - 1]) || forall i :: 0 <= i < |init| ==> !Skipped(init[i]))
  {
    var init := files[..|files| - 1];
    assert forall j :: 0 <= j < |init| ==> files[j] == init[j];
  }

  /** The document catalog names the source of every corpus row exactly when no
      skipped file comes before a kept one. */
  lemma {:induction false} AlignedIff(files: seq<SourceFile>)
    ensures Aligned(files) <==> SkippedLast(files)
    decreases |files|
  {
    if files != [] {
      var init := files[..|files| - 1];
      AlignedIff(init);
      KeptAll(init);
      AlignedSnoc(files);
      SkippedLastSnoc(files);
    }
  }

  /** Two files, the first of which cleans to nothing: the only document id, 0,
      is the text of "b.txt" but names "a.txt". */
  lemma SkippedFileShiftsNames()
    ensures var files := [SourceFile("a.txt", 3, "..."), SourceFile("b.txt", 7, "cat dog")];
      && |CorpusOf(files)| == 1
      && Kept(files) == [1]
      && FileStats(files)[0].name == "a.txt"
      && !Aligned(files)
  {
    DotsSkipped();
    WordsKept();
    SkippedThenKept(SourceFile("a.txt", 3, "..."), SourceFile("b.txt", 7, "cat dog"));
  }

  /** A skipped file followed by a kept one: the only corpus row comes from the
      second file, while document row 0 names the first. */
  lemma SkippedThenKept(a: SourceFile, b: SourceFile)
    requires Skipped(a) && !Skipped(b)
    ensures |CorpusOf([a, b])| == 1
    ensures Kept([a, b]) == [1]
    ensures FileStats([a, b])[0].name == a.name
    ensures !Aligned([a, b])
  {
    var files := [a, b];
    assert files[..1] == [a];
    assert [a][..0] == [];
    assert files[1] == b && files[|files| - 1] == b;
    assert Kept([a]) == [] + [];
    assert Kept(files) == Kept([a]) + [1];
    assert CorpusOf([a]) == [];
    assert CorpusOf(files) == CorpusOf([a]) + [Clean(b.content)];
    assert FileStats([a]) == [] + [DocRow(a.name, a.size)];
    assert FileStats(files) == FileStats([a]) + [DocRow(b.name, b.size)];
    assert Kept(files)[0] != 0;
  }

  lemma DotsSkipped()
    ensures Skipped(SourceFile("a.txt", 3, "..."))
  {
    CleanIsRegex("...");
    RegexEmptyIff("...");
  }

  lemma WordsKept()
    ensures !Skipped(SourceFile("b.txt", 7, "cat dog"))
  {
    CleanIsRegex("cat dog");
    RegexEmptyIff("cat dog");
    assert IsWordChar("cat dog"[0]);
  }

  /** The build aborts on an all-empty corpus exactly when no file holds a word character. */
  lemma AllEmptyIff(files: seq<SourceFile>)
    requires files != []
    ensures CorpusFor(Some(files)) == Failure(AllDocumentsEmpty) <==>
      forall j :: 0 <= j < |files| ==> forall i :: 0 <= i < |files[j].content| ==> !IsWordChar(files[j].content[i])
  {
    KeptMembers(files);
    KeptSources(files);
    forall j | 0 <= j < |files|
      ensures Skipped(files[j]) <==>
        forall i :: 0 <= i < |files[j].content| ==> !IsWordChar(files[j].content[i])
    {
      CleanIsRegex(files[j].content);
      RegexEmptyIff(files[j].content);
    }
    if CorpusOf(files) != [] {
      assert Kept(files)[0] in Kept(files);
    }
  }

  /** Every doc id of a column's entries, a corpus row, names a document row. */
  lemma BuiltNames(files: seq<SourceFile>, entries: seq<Posting>, column: int)
    requires forall k :: 0 <= k < |entries| ==> 0 <= entries[k].doc < |CorpusOf(files)|
    ensures forall q :: q in OnColumn(entries, column) ==>
      && 0 <= q.doc < |CorpusOf(files)| <= |files|
      && NameAt(Some(FileStats(files)), q.doc) == Success(files[q.doc].name)
  {
    OnColumnSpec(entries, column);
    FileStatsSpec(files);
    KeptSources(files);
  }

  /** Scanning postings freshly written from the vectorizer's entries, whose
      rows are corpus rows, never fails: every entry of the column comes back,
      in order, with its exact weight and the name of document row `doc`; that
      name is the file the row was cleaned from when the build is aligned. */
  lemma BuiltScan(files: seq<SourceFile>, entries: seq<Posting>, column: int, text: string)
    requires forall k :: 0 <= k < |entries| ==> 0 <= entries[k].doc < |CorpusOf(files)|
    ensures Scan(Encode(entries), column, Some(FileStats(files)), text).Success?
    ensures
      var hits := Scan(Encode(entries), column, Some(FileStats(files)), text).value;
      var ps := OnColumn(entries, column);
      |hits| == |ps| &&
      forall k :: 0 <= k < |ps| ==>
        && 0 <= ps[k].doc < |files|
        && hits[k] == Hit(files[ps[k].doc].name, text, ps[k].weight)
        && (Aligned(files) ==>
             ps[k].doc < |CorpusOf(files)| && CorpusOf(files)[ps[k].doc] == Clean(files[ps[k].doc].content))
  {
    var p := Encode(entries);
    var ps := OnColumn(entries, column);
    var docs := Some(FileStats(files));
    DecodeEncode(entries);
    EncodeLayout(entries);
    ScanDecoded(p, column, docs, text);
    BuiltNames(files, entries, column);
    KeptSources(files);
    ResolveSpec(ps, docs, text);
    assert forall k :: 0 <= k < |ps| ==> ps[k] in ps;
  }
}
