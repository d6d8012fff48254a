/** The two lookup tables the build writes: the term catalog (`terms.csv`,
    searched row by row for the query text) and the document catalog
    (`document.csv`, indexed by row position). */
module Catalogs {
  import opened Basics
  import opened Records

  /** The column of the first term row whose term equals `text`, or None when
      no row does. */
  function FirstColumn(rows: seq<TermRow>, text: string): (r: Option<int>)
    ensures r.None? <==> forall i :: 0 <= i < |rows| ==> rows[i].term != text
    ensures r.Some? ==>
      exists i :: 0 <= i < |rows| && rows[i].term == text && rows[i].column == r.value &&
        forall j :: 0 <= j < i ==> rows[j].term != text
  {
    if rows == [] then None
    else if rows[0].term == text then Some(rows[0].column)
    else
      var r := FirstColumn(rows[1..], text);
      assert forall i :: 1 <= i < |rows| ==> rows[i] == rows[1..][i - 1];
      r
  }

  /** `file_name[doc_id][0]` over the rows of `document.csv`, with Python's list
      indexing: a negative id counts from the end, and an id outside
      `-len <= id < len` fails. A missing catalog fails before any indexing. */
  function NameAt(docs: Option<seq<DocRow>>, id: int): Result<string, Error> {
    if docs.None? then Failure(Missing(DocumentsFile))
    else
      var rows := docs.value;
      if 0 <= id < |rows| then Success(rows[id].name)
      else if -|rows| <= id < 0 then Success(rows[|rows| + id].name)
      else Failure(DocIdOutOfRange(id))
  }

  /** A non-negative id resolves exactly when it is a row position, and then to
      that row's name. */
  lemma NameAtRow(rows: seq<DocRow>, id: nat)
    ensures NameAt(Some(rows), id).Success? <==> id < |rows|
    ensures id < |rows| ==> NameAt(Some(rows), id).value == rows[id].name
    ensures id >= |rows| ==> NameAt(Some(rows), id) == Failure(DocIdOutOfRange(id))
  {
  }
}
