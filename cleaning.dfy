/** Text normalisation: `regex(s)` lower-cases `s`, finds every maximal run of
    word characters (the pattern `\w+`) and joins the runs with single spaces;
    the build then strips surrounding whitespace from that. */
module Cleaning {

  /** The characters matched by `\w`. */
  predicate IsWordChar(c: char) {
    ('a' <= c <= 'z') || ('A' <= c <= 'Z') || ('0' <= c <= '9') || c == '_'
  }

  /** The characters `str.strip()` removes. */
  predicate IsSpace(c: char) {
    c == ' ' || ('\t' <= c <= '\r') || ('\U{1c}' <= c <= '\U{1f}')
  }

  function LowerChar(c: char): char {
    if 'A' <= c <= 'Z' then (c as int - 'A' as int + 'a' as int) as char else c
  }

  /** `str.lower()` */
  function Lower(s: string): string {
    seq(|s|, i requires 0 <= i < |s| => LowerChar(s[i]))
  }

  /** A non-empty run of word characters. */
  predicate IsWord(w: string) {
    w != [] && forall i :: 0 <= i < |w| ==> IsWordChar(w[i])
  }

  /** Every character is its own lower case. */
  predicate IsLowered(s: string) {
    forall i :: 0 <= i < |s| ==> LowerChar(s[i]) == s[i]
  }

  /** The length of the longest run of word characters at the front of `s`. */
  function RunLength(s: string): (n: nat)
    ensures n <= |s|
    ensures forall i :: 0 <= i < n ==> IsWordChar(s[i])
    ensures n < |s| ==> !IsWordChar(s[n])
  {
    if s == [] || !IsWordChar(s[0]) then 0 else 1 + RunLength(s[1..])
  }

  /** `re.findall(r"\w+", s)`: the maximal runs of word characters, left to right. */
  function Words(s: string): (ws: seq<string>)
    ensures forall k :: 0 <= k < |ws| ==> IsWord(ws[k])
    decreases |s|
  {
    if s == [] then []
    else if !IsWordChar(s[0]) then Words(s[1..])
    else
      var n := RunLength(s);
      [s[..n]] + Words(s[n..])
  }

  /** `" ".join(ws)` */
  function Join(ws: seq<string>): string {
    if ws == [] then ""
    else if |ws| == 1 then ws[0]
    else ws[0] + " " + Join(ws[1..])
  }

  /** `regex(s)` */
  function Regex(s: string): string {
    Join(Words(Lower(s)))
  }

  function StripLeft(s: string): string {
    if s != [] && IsSpace(s[0]) then StripLeft(s[1..]) else s
  }

  function StripRight(s: string): string {
    if s != [] && IsSpace(s[|s| - 1]) then StripRight(s[..|s| - 1]) else s
  }

  /** `str.strip()` */
  function Strip(s: string): string {
    StripRight(StripLeft(s))
  }

  /** `regex(content).strip()`: what the build keeps of a document. */
  function Clean(content: string): string {
    Strip(Regex(content))
  }

  /** Splitting the space-joined words again gives back exactly the words. */
  lemma {:induction false} WordsOfJoin(ws: seq<string>)
    requires forall k :: 0 <= k < |ws| ==> IsWord(ws[k])
    ensures Words(Join(ws)) == ws
  {
    if ws == [] {
    } else {
      var w := ws[0];
      var tail: string := if |ws| == 1 then "" else " " + Join(ws[1..]);
      var s := w + tail;
      assert Join(ws) == s;
      var n := RunLength(s);
      assert forall i :: 0 <= i < |w| ==> s[i] == w[i];
      assert |w| < |s| ==> s[|w|] == ' ';
      assert n == |w|;
      assert s[..n] == w;
      assert s[n..] == tail;
      if |ws| > 1 {
        var rest := Join(ws[1..]);
        assert tail[1..] == rest;
        WordsOfJoin(ws[1..]);
      }
    }
  }

  /** `Words` finds nothing exactly when the text holds no word character. */
  lemma {:induction false} WordsEmptyIff(s: string)
    ensures Words(s) == [] <==> forall i :: 0 <= i < |s| ==> !IsWordChar(s[i])
    decreases |s|
  {
    if s != [] && !IsWordChar(s[0]) {
      WordsEmptyIff(s[1..]);
      assert forall i :: 1 <= i < |s| ==> s[i] == s[1..][i - 1];
    }
  }

  lemma {:induction false} JoinEmptyIff(ws: seq<string>)
    requires forall k :: 0 <= k < |ws| ==> IsWord(ws[k])
    ensures Join(ws) == "" <==> ws == []
  {
    if |ws| > 1 {
      assert |Join(ws)| >= |ws[0]| > 0;
    }
  }

  /** The cleaned text is empty exactly when the input has no word character. */
  lemma RegexEmptyIff(s: string)
    ensures Regex(s) == "" <==> forall i :: 0 <= i < |s| ==> !IsWordChar(s[i])
  {
    var t := Lower(s);
    assert forall i :: 0 <= i < |s| ==> (IsWordChar(t[i]) <==> IsWordChar(s[i]));
    WordsEmptyIff(t);
    JoinEmptyIff(Words(t));
  }

  /** The joined text starts with its first word's first character and ends
      with its last word's last character. */
  lemma {:induction false} JoinEnds(ws: seq<string>)
    requires ws != []
    requires forall k :: 0 <= k < |ws| ==> IsWord(ws[k])
    ensures |Join(ws)| > 0
    ensures IsWord(ws[0]) && Join(ws)[0] == ws[0][0]
    ensures IsWord(ws[|ws| - 1]) && Join(ws)[|Join(ws)| - 1] == ws[|ws| - 1][|ws[|ws| - 1]| - 1]
  {
    if |ws| > 1 {
      var tail := Join(ws[1..]);
      JoinEnds(ws[1..]);
      assert Join(ws) == ws[0] + " " + tail;
      assert ws[1..][|ws| - 2] == ws[|ws| - 1];
      assert Join(ws)[|Join(ws)| - 1] == tail[|tail| - 1];
    }
  }

  lemma StripKeeps(s: string)
    requires s != [] ==> !IsSpace(s[0]) && !IsSpace(s[|s| - 1])
    ensures Strip(s) == s
  {
  }

  /** The `.strip()` after `regex` removes nothing. */
  lemma CleanIsRegex(content: string)
    ensures Clean(content) == Regex(content)
  {
    var ws := Words(Lower(content));
    if ws != [] {
      JoinEnds(ws);
    }
    StripKeeps(Regex(content));
  }

  lemma {:induction false} WordsLowered(s: string)
    requires IsLowered(s)
    ensures forall k :: 0 <= k < |Words(s)| ==> IsLowered(Words(s)[k])
    decreases |s|
  {
    if s != [] {
      if !IsWordChar(s[0]) {
        WordsLowered(s[1..]);
      } else {
        var n := RunLength(s);
        WordsLowered(s[n..]);
      }
    }
  }

  lemma {:induction false} JoinLowered(ws: seq<string>)
    requires forall k :: 0 <= k < |ws| ==> IsLowered(ws[k])
    ensures IsLowered(Join(ws))
  {
    if |ws| > 1 {
      JoinLowered(ws[1..]);
    }
  }

  /** Cleaning cleaned text changes nothing. */
  lemma RegexIdempotent(s: string)
    ensures Regex(Regex(s)) == Regex(s)
  {
    var ws := Words(Lower(s));
    WordsLowered(Lower(s));
    JoinLowered(ws);
    assert Lower(Join(ws)) == Join(ws);
    WordsOfJoin(ws);
  }

  /** The cleaned text is lower-case. */
  lemma RegexLowered(s: string)
    ensures IsLowered(Regex(s))
  {
    WordsLowered(Lower(s));
    JoinLowered(Words(Lower(s)));
  }

  /** Word k is the slice `s[starts[k]..ends[k]]`, which no word character
      extends on either side. */
  ghost predicate Placed(s: string, ws: seq<string>, starts: seq<nat>, ends: seq<nat>) {
    && |starts| == |ends| == |ws|
    && forall k :: 0 <= k < |starts| ==>
      && starts[k] < ends[k] <= |s|
      && ws[k] == s[starts[k]..ends[k]]
      && (0 < starts[k] ==> !IsWordChar(s[starts[k] - 1]))
      && (ends[k] < |s| ==> !IsWordChar(s[ends[k]]))
  }

  /** The slices come in order, apart from each other. */
  ghost predicate Apart(starts: seq<nat>, ends: seq<nat>)
    requires |starts| == |ends|
  {
    forall k :: 0 <= k < |starts| - 1 ==> ends[k] < starts[k + 1]
  }

  /** Every word character of `s` from position `from` on lies in a slice. */
  ghost predicate Covers(s: string, starts: seq<nat>, ends: seq<nat>, from: nat)
    requires |starts| == |ends|
  {
    forall i :: from <= i < |s| && IsWordChar(s[i]) ==>
      exists k :: 0 <= k < |starts| && starts[k] <= i < ends[k]
  }

  function Shift(xs: seq<nat>, n: nat): seq<nat> {
    seq(|xs|, k requires 0 <= k < |xs| => xs[k] + n)
  }

  /** Slices of `s[n..]` moved to their place in `s`, when no word runs across
      position `n`. */
  lemma ShiftPlaced(s: string, n: nat, ws: seq<string>, b: seq<nat>, e: seq<nat>)
    requires 0 < n <= |s|
    requires n < |s| && IsWordChar(s[n]) ==> !IsWordChar(s[n - 1])
    requires forall k :: 0 <= k < |ws| ==> IsWord(ws[k])
    requires Placed(s[n..], ws, b, e)
    ensures Placed(s, ws, Shift(b, n), Shift(e, n))
  {
    var rest := s[n..];
    var sb, se := Shift(b, n), Shift(e, n);
    forall k | 0 <= k < |b|
      ensures ws[k] == s[sb[k]..se[k]]
      ensures 0 < sb[k] ==> !IsWordChar(s[sb[k] - 1])
      ensures se[k] < |s| ==> !IsWordChar(s[se[k]])
    {
      assert s[sb[k]..se[k]] == rest[b[k]..e[k]];
      if b[k] == 0 {
        assert ws[k][0] == rest[0];
      } else {
        assert s[sb[k] - 1] == rest[b[k] - 1];
      }
      if e[k] < |rest| {
        assert s[se[k]] == rest[e[k]];
      }
    }
  }

  lemma ShiftCovers(s: string, n: nat, b: seq<nat>, e: seq<nat>)
    requires n <= |s| && |b| == |e|
    requires Covers(s[n..], b, e, 0)
    ensures Covers(s, Shift(b, n), Shift(e, n), n)
  {
    var sb, se := Shift(b, n), Shift(e, n);
    forall i | n <= i < |s| && IsWordChar(s[i])
      ensures exists k :: 0 <= k < |sb| && sb[k] <= i < se[k]
    {
      assert s[n..][i - n] == s[i];
      var k :| 0 <= k < |b| && b[k] <= i - n < e[k];
      assert sb[k] <= i < se[k];
    }
  }

  /** The run `s[..n]` placed in front of the runs of `s[n..]`. */
  lemma ConsPlaced(s: string, n: nat, ws: seq<string>, b: seq<nat>, e: seq<nat>)
    requires 0 < n <= |s|
    requires n < |s| ==> !IsWordChar(s[n])
    requires Placed(s, ws, b, e)
    ensures Placed(s, [s[..n]] + ws, [0] + b, [n] + e)
  {
    var words, starts, ends := [s[..n]] + ws, [0] + b, [n] + e;
    forall k | 0 <= k < |starts|
      ensures starts[k] < ends[k] <= |s|
      ensures words[k] == s[starts[k]..ends[k]]
      ensures 0 < starts[k] ==> !IsWordChar(s[starts[k] - 1])
      ensures ends[k] < |s| ==> !IsWordChar(s[ends[k]])
    {
      if k > 0 {
        assert words[k] == ws[k - 1] && starts[k] == b[k - 1] && ends[k] == e[k - 1];
      }
    }
  }

  lemma ConsCovers(s: string, n: nat, b: seq<nat>, e: seq<nat>)
    requires n <= |s| && |b| == |e|
    requires Covers(s, b, e, n)
    ensures Covers(s, [0] + b, [n] + e, 0)
  {
    var starts, ends := [0] + b, [n] + e;
    forall i | 0 <= i < |s| && IsWordChar(s[i])
      ensures exists k :: 0 <= k < |starts| && starts[k] <= i < ends[k]
    {
      if i < n {
        assert starts[0] <= i < ends[0];
      } else {
        var k :| 0 <= k < |b| && b[k] <= i < e[k];
        assert starts[k + 1] <= i < ends[k + 1];
      }
    }
  }

  lemma ConsApart(n: nat, b: seq<nat>, e: seq<nat>)
    requires |b| == |e| && Apart(b, e)
    requires b != [] ==> n < b[0]
    ensures Apart([0] + b, [n] + e)
  {
    var starts, ends := [0] + b, [n] + e;
    forall k | 0 < k < |starts| - 1
      ensures ends[k] < starts[k + 1]
    {
      assert ends[k] == e[k - 1] && starts[k + 1] == b[k];
    }
  }

  lemma ShiftApart(n: nat, b: seq<nat>, e: seq<nat>)
    requires |b| == |e| && Apart(b, e)
    ensures Apart(Shift(b, n), Shift(e, n))
  {
  }

  /** A leading character that is not a word character shifts every run by one. */
  lemma SkipRuns(s: string, ws: seq<string>, b: seq<nat>, e: seq<nat>)
    requires s != [] && !IsWordChar(s[0])
    requires forall k :: 0 <= k < |ws| ==> IsWord(ws[k])
    requires Placed(s[1..], ws, b, e) && Apart(b, e) && Covers(s[1..], b, e, 0)
    ensures Placed(s, ws, Shift(b, 1), Shift(e, 1))
    ensures Apart(Shift(b, 1), Shift(e, 1)) && Covers(s, Shift(b, 1), Shift(e, 1), 0)
  {
    ShiftPlaced(s, 1, ws, b, e);
    ShiftCovers(s, 1, b, e);
    ShiftApart(1, b, e);
  }

  /** A leading run of `n` word characters is the first word; the runs after it
      shift by `n`. */
  lemma LeadPlaced(s: string, n: nat, ws: seq<string>, b: seq<nat>, e: seq<nat>)
    requires 0 < n <= |s|
    requires n < |s| ==> !IsWordChar(s[n])
    requires forall k :: 0 <= k < |ws| ==> IsWord(ws[k])
    requires Placed(s[n..], ws, b, e)
    ensures Placed(s, [s[..n]] + ws, [0] + Shift(b, n), [n] + Shift(e, n))
  {
    ShiftPlaced(s, n, ws, b, e);
    ConsPlaced(s, n, ws, Shift(b, n), Shift(e, n));
  }

  lemma LeadApart(s: string, n: nat, ws: seq<string>, b: seq<nat>, e: seq<nat>)
    requires 0 < n <= |s|
    requires n < |s| ==> !IsWordChar(s[n])
    requires forall k :: 0 <= k < |ws| ==> IsWord(ws[k])
    requires Placed(s, ws, Shift(b, n), Shift(e, n)) && Apart(b, e)
    ensures Apart([0] + Shift(b, n), [n] + Shift(e, n))
  {
    ShiftApart(n, b, e);
    var sb := Shift(b, n);
    if sb != [] {
      assert ws[0][0] == s[sb[0]];
    }
    ConsApart(n, sb, Shift(e, n));
  }

  lemma LeadCovers(s: string, n: nat, b: seq<nat>, e: seq<nat>)
    requires 0 < n <= |s| && |b| == |e|
    requires Covers(s[n..], b, e, 0)
    ensures Covers(s, [0] + Shift(b, n), [n] + Shift(e, n), 0)
  {
    ShiftCovers(s, n, b, e);
    ConsCovers(s, n, Shift(b, n), Shift(e, n));
  }

  /** `Words(s)` is the list of maximal runs of word characters of `s`, left to
      right: this gives the positions of each. */
  lemma {:induction false} WordsAreRuns(s: string) returns (starts: seq<nat>, ends: seq<nat>)
    ensures Placed(s, Words(s), starts, ends)
    ensures Apart(starts, ends)
    ensures Covers(s, starts, ends, 0)
    decreases |s|
  {
    if s == [] {
      return [], [];
    } else if !IsWordChar(s[0]) {
      var b, e := WordsAreRuns(s[1..]);
      assert Words(s) == Words(s[1..]);
      SkipRuns(s, Words(s[1..]), b, e);
      starts, ends := Shift(b, 1), Shift(e, 1);
    } else {
      var n := RunLength(s);
      var b, e := WordsAreRuns(s[n..]);
      assert Words(s) == [s[..n]] + Words(s[n..]);
      var ws := Words(s[n..]);
      LeadPlaced(s, n, ws, b, e);
      ShiftPlaced(s, n, ws, b, e);
      LeadApart(s, n, ws, b, e);
      LeadCovers(s, n, b, e);
      starts, ends := [0] + Shift(b, n), [n] + Shift(e, n);
    }
  }
}
