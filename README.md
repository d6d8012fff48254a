# A verified model of the search engine core (`app/searcher.py`)

The search engine indexes a folder of `*.txt` files with TF-IDF weights and
answers one-word queries from the files it wrote. This project models that
core in Dafny and proves its properties.

The artifacts it keeps beside the corpus folder `large-sample/`:

- the postings file `index.dat`, a flat array of doubles, `doc id, term column, weight` per non-zero entry;
- the term catalog `terms.csv`, with rows `term, column`;
- the document catalog `document.csv`, with rows `name, size`, where the row position is the document id;
- the search memo `history.pkl`, which maps a term to its `(name, weight)` pairs.

The modules:

- `Basics`: `Option`, `Result` (usable with `:-`) and `Outcome`.
- `Records`: the entities (source file, catalog rows, posting, hit, vectorizer output) and the errors the program raises.
- `Cleaning`: `regex` (lower-case, then join the `\w+` runs with single spaces) and the `.strip()` of `main`.
- `Catalogs`: the first-match term lookup and `id_to_name` with Python list indexing. A negative id counts from the end.
- `Postings`: the layout of `index.dat`, its read-back as whole records (`int()` truncates toward zero), and the scan of `query`.
- `Ranking`: `doc.sort(key=weight, reverse=True)`, a stable sort with the largest weight first.
- `History`: `history()` and the fold that `store_history` performs.
- `Builder`: what `main` computes and checks before it writes: `file_stat`, `corpus`, the errors that abort the build (three from validation, one from the vectorizer), and the relation between document ids and catalog rows.
- `Search`: `query` and `run` as functions of the artifacts, with the lemmas that relate them.
- `Searcher`: class `AppDir`. It holds the corpus folder and the four artifacts, each absent (`None`) or present. Its methods do what the Python functions do, loop for loop. Each method is proved against the functions above.

How the model reads the source:

- The scan reads `p[i + 1]` for every record, but `p[i + 2]` only for a record of the queried column. So a scan succeeds only on whole records, or when the trailing fragment has two values and its column value does not match. A one-value fragment always fails. `Postings.ScanNeedsWholeRecords` states this.
- Document ids are corpus row numbers, and the corpus drops files that are empty once cleaned. `document.csv`, by contrast, has a row for every file. So an id names the right file exactly when no skipped file precedes a kept one (`Builder.AlignedIff`). `Builder.SkippedFileShiftsNames` is a two-file folder where id 0 holds the text of `b.txt` but resolves to `a.txt`. The model keeps this behaviour as written.
- In `run`, the `s += "\n"` statement rebinds a local after the string has already been appended. The returned lines therefore carry no newline, and `Search.Lines` has none.
- `store_history` writes the memo even for an empty result. A first empty scan therefore creates an empty memo, and adds no key to an existing one.

## Model

| member | source | states |
|---|---|---|
| Cleaning.Regex | app/searcher.py:15-18 | `regex`: the `\w+` runs of the lower-cased text joined with single spaces; its properties are the lemmas below |
| Cleaning.Strip | app/searcher.py:50 | `.strip()`: white space removed from both ends |
| Cleaning.Clean | app/searcher.py:50 | `regex(content).strip()`, the text a file contributes to the corpus |
| Cleaning.RunLength | app/searcher.py:17 | the greedy `\w+` match: a maximal leading run of word characters |
| Cleaning.Words | app/searcher.py:17 | `re.findall(r"\w+")` yields only non-empty runs of word characters |
| Cleaning.WordsOfJoin | app/searcher.py:15-18 | splitting the space-joined words gives back exactly those words |
| Cleaning.WordsEmptyIff | app/searcher.py:17 | `findall` finds nothing exactly when the text has no word character |
| Cleaning.JoinEmptyIff | app/searcher.py:18 | the joined text of non-empty words is empty exactly when there are no words |
| Cleaning.RegexEmptyIff | app/searcher.py:15-18 | `regex` gives the empty string exactly when the text has no word character |
| Cleaning.JoinEnds | app/searcher.py:18 | the joined text starts with the first word's first character and ends with the last word's last character |
| Cleaning.StripKeeps | app/searcher.py:50 | `.strip()` leaves a string alone when it neither starts nor ends with white space |
| Cleaning.CleanIsRegex | app/searcher.py:50 | `regex(content).strip()` equals `regex(content)`: the strip never removes anything |
| Cleaning.WordsLowered | app/searcher.py:17 | every word found in lower-cased text is lower-case |
| Cleaning.JoinLowered | app/searcher.py:18 | joining lower-case words gives lower-case text |
| Cleaning.RegexIdempotent | app/searcher.py:15-18 | cleaning already-cleaned text changes nothing |
| Cleaning.RegexLowered | app/searcher.py:15-18 | the cleaned text is lower-case |
| Cleaning.WordsAreRuns | app/searcher.py:17 | the words found are the maximal runs of word characters of the text, left to right: each is a slice that no word character extends on either side, the slices are in order and apart, and every word character lies in one |
| Catalogs.FirstColumn | app/searcher.py:144-152 | None exactly when no term row matches; otherwise the column of the first matching row |
| Catalogs.NameAt | app/searcher.py:124-131 | `id_to_name`: the name of row `doc_id` with Python list indexing; fails when `document.csv` is missing or the id is out of range |
| Catalogs.NameAtRow | app/searcher.py:124-131 | a non-negative id resolves exactly when it is a row position, to that row's name; otherwise it fails with the id |
| Postings.Encode | app/searcher.py:113-118 | the contents `create_index` writes: the triple of each non-zero entry, in enumeration order |
| Postings.Decode | app/searcher.py:167-171 | the array read back as whole records, ids and columns through `int()` |
| Postings.Scan | app/searcher.py:166-172 | the scan loop: each record of the column resolved through `id_to_name`, failing where the loop reads past the end or an id does not resolve |
| Postings.TruncOfInt | app/searcher.py:171-172 | `int()` of an integer stored as a double gives the integer back |
| Postings.EncodeLayout | app/searcher.py:106-119 | `index.dat` holds three doubles per entry: entry k's id, column and weight at positions 3k, 3k+1 and 3k+2 |
| Postings.DecodeEncode | app/searcher.py:113-119 | reading the written array back as whole records gives exactly the entries written, in order |
| Postings.ScanDecoded | app/searcher.py:166-172 | on whole records, the scan resolves the records of the column in order, and only those |
| Postings.ScanNeedsWholeRecords | app/searcher.py:170-172 | a scan succeeds only on whole records, or on a trailing two-value fragment of another column |
| Postings.ResolveSpec | app/searcher.py:172 | resolution succeeds exactly when every doc id resolves, giving one hit per record with that record's name and weight |
| Postings.OnColumnSpec | app/searcher.py:171 | the kept records are exactly the records whose column matches, each as often as it occurs |
| Postings.ScanTerms | app/searcher.py:172 | every hit of a scan carries the query text |
| Ranking.SortByWeight | app/searcher.py:174 | the sort by weight, largest first, as an insertion sort that keeps ties in order |
| Ranking.SortSorted | app/searcher.py:174 | the sorted hits never increase in weight |
| Ranking.SortPermutes | app/searcher.py:174 | the sort keeps every hit as often as it occurs |
| Ranking.SortStable | app/searcher.py:174 | hits of equal weight keep their scan order |
| History.Remember | app/searcher.py:198-204 | a new term gets a one-pair list and a known term gets the pair appended; the keys grow by the term alone and every other key is unchanged |
| History.RememberAll | app/searcher.py:185-194 | the loop of `store_history`: `history` applied to each hit, first to last |
| History.Replay | app/searcher.py:162-163 | the hits a memo hit returns: each stored pair with the query text |
| History.RememberAllOneTerm | app/searcher.py:179-195 | storing hits of one term appends their pairs, in order, under that term only; no hits change nothing |
| History.ReplayEntries | app/searcher.py:162-163 | replaying the stored pairs under their term gives back the stored hits |
| Builder.FileStats | app/searcher.py:46-47 | `file_stat`, one `(name, size)` per file |
| Builder.CorpusOf | app/searcher.py:46-52 | `corpus`, the cleaned text of each file that is not empty once cleaned |
| Builder.CorpusFor | app/searcher.py:34-57 | the validation: missing folder, no `*.txt` file, or an all-empty corpus; otherwise the corpus |
| Builder.BuildError | app/searcher.py:31-68 | the error `main` raises: none when all artifacts exist, else a validation error or the vectorizer's rejection |
| Builder.AfterBuild | app/searcher.py:31-77 | the artifacts after `main`: unchanged when complete or on an error, else each missing one written |
| Builder.FileStatsSpec | app/searcher.py:46-47 | `file_stat` has one `(name, size)` row per file, in folder order |
| Builder.KeptSources | app/searcher.py:46-52 | corpus row k is the cleaned text of a file, and there are no more rows than files |
| Builder.KeptMembers | app/searcher.py:50-52 | the files behind the corpus rows are in folder order, and are exactly the files that are not empty once cleaned |
| Builder.KeptAll | app/searcher.py:46-52 | the corpus has one row per file exactly when no file is empty once cleaned |
| Builder.AlignedIff | app/searcher.py:46-52 | document id k names the file of corpus row k exactly when no skipped file precedes a kept one |
| Builder.SkippedThenKept | app/searcher.py:46-52 | a skipped file followed by a kept one: the only corpus row comes from the second file, but document id 0 names the first |
| Builder.SkippedFileShiftsNames | app/searcher.py:46-52 | a two-file folder whose first file cleans to nothing: id 0 names the wrong file |
| Builder.AllEmptyIff | app/searcher.py:54-57 | the build aborts on an all-empty corpus exactly when no file has a word character |
| Builder.BuildCompletes | app/searcher.py:31-75 | a build that raises nothing leaves all three artifacts present |
| Builder.BuildTwice | app/searcher.py:31-77 | building again after a successful build raises nothing and changes nothing |
| Builder.BuiltScan | app/searcher.py:68-75 | scanning freshly built postings never fails and returns each entry of the column in order, with its exact weight and the name of document row `doc` |
| Search.ScanOf | app/searcher.py:166-172 | the scan, failing when `index.dat` is missing |
| Search.Answer | app/searcher.py:134-176 | `query(text)`: None without a term row, the replayed memo on a memo hit, else the sorted scan |
| Search.HistoryAfter | app/searcher.py:156-176 | the memo after `query(text)`: only a completed scan stores its result |
| Search.Display | app/searcher.py:215 | one display line, `weight - name` |
| Search.Lines | app/searcher.py:212-220 | one display line per hit, in order |
| Search.Present | app/searcher.py:209-220 | what `run` returns for an answer: the error, "No result.", or the lines |
| Search.TermNotFound | app/searcher.py:144-152 | a term without a catalog row answers "No result." and leaves the memo alone, whatever the postings and memo hold |
| Search.HistoryHit | app/searcher.py:157-164 | a memo hit returns the stored pairs in order without reading postings or the document catalog, and leaves the memo alone |
| Search.AnswerTerms | app/searcher.py:162-172 | every hit of an answer carries the query text |
| Search.ScanAnswer | app/searcher.py:166-176 | on whole records whose ids resolve, the answer is a permutation of the column's resolved records, sorted by non-increasing weight and stable |
| Search.FirstStoreExact | app/searcher.py:174-195 | the first scan of a term stores exactly its sorted pairs under that term and changes no other key; an empty result adds no key |
| Search.QueryTwice | app/searcher.py:134-176 | a second identical query gives the same answer and leaves the memo as the first left it |
| Search.FreshIndexAnswers | app/searcher.py:68-75 | a build into an empty directory whose vectorizer accepts the corpus and gives every entry a corpus row raises nothing, and no query on the artifacts it wrote fails |
| Searcher.AppDir.Build | app/searcher.py:21-77 | `main`: the error it raises, if any, from validation or from the vectorizer; otherwise each missing artifact written from the cleaned corpus and the existing ones left alone |
| Searcher.AppDir.CreateTerms | app/searcher.py:80-90 | `terms.csv` becomes one row per vocabulary item, in order, unless it exists |
| Searcher.AppDir.CreateDoc | app/searcher.py:93-103 | `document.csv` becomes one row per `file_stat` entry, in order, unless it exists |
| Searcher.AppDir.CreateIndex | app/searcher.py:106-121 | `index.dat` becomes the encoding of the entries, unless it exists |
| Searcher.AppDir.IdToName | app/searcher.py:124-131 | the name of row `doc_id` with Python indexing; fails when the catalog is missing or the id is out of range |
| Searcher.AppDir.LookupColumn | app/searcher.py:143-152 | the column of the first matching term row, or None; fails when the catalog is missing |
| Searcher.AppDir.ScanIndex | app/searcher.py:166-172 | the loop over `index.dat` computes the scan, failing where the scan fails |
| Searcher.AppDir.Query | app/searcher.py:134-176 | `query(text)` returns the answer, and the memo becomes what the answer stores |
| Searcher.AppDir.StoreHistory | app/searcher.py:179-195 | the memo becomes the stored memo, or `{}`, with `history` applied to each hit in order |
| Searcher.AppDir.Run | app/searcher.py:207-220 | `run(text)`: the build error, or the display lines of the answer to the lower-cased text, with the artifacts and memo updated as above |

## Left out

- Cleaning.IsWordChar: `\w`, `str.lower` and `str.strip` are modelled on ASCII only (letters, digits, `_`, and ASCII white space). Unicode classes and case mappings are not modelled.
- Search.Display: how a double is printed (`f"{tf_idf}"`) is a parameter `show`, not modelled.
- Postings.Decode: doubles are modelled as exact reals. Rounding of ids above 2^53, and `int()` on NaN or infinity, are not modelled.
- The vectorizer (stop words, `min_df`, TF-IDF weighting) is a parameter. It returns the non-zero entries in enumeration order and the vocabulary in iteration order, or nothing when it raises. Which corpora make it raise is not modelled.
- File formats (CSV quoting, pickling, the byte order of `array("d")`) are not modelled. Each artifact is its sequence of rows or values. The column read back from `terms.csv` as text and passed to `int()` is an integer in the model. Malformed rows are not modelled.
- The folder listing is given as its `*.txt` files in listing order. `glob` itself, its order, file sizes from `stat` and decoding with `errors="ignore"` are inputs.
- Console output (`print`), the `__main__` block and `app/demo.py` are not modelled.
- I/O failures other than a missing artifact are not modelled. That covers unreadable files, crashes between writes that leave a partial artifact, and a memo that is not a map of pair lists. Concurrent runs are not modelled either.
