/** The entities that flow between the parts of the search engine: the source
    files of the corpus, the rows of the two catalogs, the postings, the hits a
    query returns, the output of the vectorizer, and the errors. */
module Records {
  import opened Basics

  /** One `*.txt` file of the corpus folder: its name, its size in bytes and its text. */
  datatype SourceFile = SourceFile(name: string, size: nat, content: string)

  /** A row of the document catalog `document.csv`: `name, size`. Its position is the document id. */
  datatype DocRow = DocRow(name: string, size: nat)

  /** A row of the term catalog `terms.csv`: `term, column`. */
  datatype TermRow = TermRow(term: string, column: int)

  /** A posting: a non-zero matrix entry (document row, term column, weight). */
  datatype Posting = Posting(doc: int, column: int, weight: real)

  /** One search result: `(doc_name, term, tf_idf)`. */
  datatype Hit = Hit(name: string, term: string, weight: real)

  /** What the external vectorizer returns for a corpus: its non-zero entries
      in enumeration order and its vocabulary in iteration order. */
  datatype Matrix = Matrix(entries: seq<Posting>, vocabulary: seq<TermRow>)

  /** `TfidfVectorizer(...).fit_transform(corpus)` with its vocabulary: None when
      it raises, as it does when no token survives stop-word removal and the
      `min_df` cut. */
  type Vectorizer = seq<string> -> Option<Matrix>

  /** The three artifacts the build writes. */
  datatype Artifact = PostingsFile | TermsFile | DocumentsFile

  datatype Error =
    | CorpusMissing           // the corpus folder does not exist
    | NoTextFiles             // the corpus folder holds no `*.txt` file
    | AllDocumentsEmpty       // every file is empty once cleaned
    | Missing(file: Artifact) // an artifact is read before it exists
    | DocIdOutOfRange(id: int)
    | TruncatedPostings       // the flat postings array ends inside a record
    | EmptyVocabulary         // the vectorizer keeps no term of the corpus
}
