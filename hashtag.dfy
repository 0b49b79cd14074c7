/** The two replacement callbacks of the tweet normaliser that the model keeps:
    the hashtag rewriter (with its camel-case splitter) and the all-caps
    marker. Both receive the text of a regular-expression match. */
module Hashtag {
  import opened Seqs
  import opened Text

  const HashtagMarker: string := "<hashtag>"
  const AllcapsMarker: string := "<allcaps>"

  /** The markers are single tokens: non-empty and free of whitespace. */
  lemma MarkersAreTokens()
    ensures HashtagMarker != [] && NoSpace(HashtagMarker)
    ensures AllcapsMarker != [] && NoSpace(AllcapsMarker)
  {
    assert HashtagMarker == ['<', 'h', 'a', 's', 'h', 't', 'a', 'g', '>'];
    assert AllcapsMarker == ['<', 'a', 'l', 'l', 'c', 'a', 'p', 's', '>'];
  }

  /** `[s[starts[j]:ends[j]] for j in ...]` over two lists of equal length. */
  function Pieces(s: string, starts: seq<nat>, ends: seq<nat>): (r: seq<string>)
    requires |starts| == |ends|
    ensures |r| == |starts|
    ensures forall j :: 0 <= j < |r| ==> r[j] == Slice(s, starts[j], ends[j])
  {
    if starts == [] then []
    else [Slice(s, starts[0], ends[0])] + Pieces(s, starts[1..], ends[1..])
  }

  /** Where the lookahead `(?=[A-Z])` matches: the (empty) matches sit at
      every position that holds an upper-case letter, in ascending order. */
  function Cuts(s: string): (r: seq<nat>)
    ensures forall k :: 0 <= k < |r| ==> r[k] < |s| && IsUpper(s[r[k]])
    ensures Increasing(r)
  {
    Positions(s, IsUpper)
  }

  /** Every upper-case letter is the position of a cut. */
  lemma CutsComplete(s: string, p: nat)
    requires p < |s| && IsUpper(s[p])
    ensures p in Cuts(s)
  {
  }

  /** `starts = [0] + [m.end() for m in matches]` */
  function Starts(s: string): seq<nat>
  {
    [0] + Cuts(s)
  }

  /** `ends = [m.start() for m in matches] + [len(s)]` */
  function Ends(s: string): seq<nat>
  {
    Cuts(s) + [|s|]
  }

  lemma StartsEnds(s: string)
    ensures |Starts(s)| == |Ends(s)| == |Cuts(s)| + 1
    ensures Starts(s)[0] == 0 && Ends(s)[|Cuts(s)|] == |s|
    ensures forall j :: 0 < j <= |Cuts(s)| ==> Starts(s)[j] == Cuts(s)[j - 1]
    ensures forall j :: 0 <= j < |Cuts(s)| ==> Ends(s)[j] == Cuts(s)[j]
  {
  }

  /** The starts and ends of `fix_split` are consecutive, non-decreasing cuts
      of `s`. */
  lemma CutsOrdered(s: string)
    ensures |Starts(s)| == |Ends(s)| == |Cuts(s)| + 1
    ensures forall j :: 0 <= j < |Starts(s)| ==> Starts(s)[j] <= Ends(s)[j] <= |s|
    ensures forall j, k :: 0 <= j <= k < |Starts(s)| ==> Starts(s)[j] <= Starts(s)[k]
    ensures forall j :: 0 <= j < |Starts(s)| - 1 ==> Ends(s)[j] == Starts(s)[j + 1]
  {
    StartsEnds(s);
    StartsBeforeEnds(s);
    StartsSorted(s);
  }

  lemma StartsBeforeEnds(s: string)
    ensures |Starts(s)| == |Ends(s)|
    ensures forall j :: 0 <= j < |Starts(s)| ==> Starts(s)[j] <= Ends(s)[j] <= |s|
  {
    var c, st, en := Cuts(s), Starts(s), Ends(s);
    StartsEnds(s);
    forall j | 0 <= j < |st|
      ensures st[j] <= en[j] <= |s|
    {
      if 0 < j < |c| {
        assert c[j - 1] < c[j];
      }
    }
  }

  lemma StartsSorted(s: string)
    ensures forall j, k :: 0 <= j <= k < |Starts(s)| ==> Starts(s)[j] <= Starts(s)[k]
  {
    var c, st := Cuts(s), Starts(s);
    StartsEnds(s);
    forall j, k | 0 <= j <= k < |st|
      ensures st[j] <= st[k]
    {
      if 0 < j < k {
        assert c[j - 1] < c[k - 1];
      }
    }
  }

  /** `fix_split(r"(?=[A-Z])", s)`: the pieces between consecutive cuts,
      one more than there are matches of the lookahead. */
  function FixSplit(s: string): (pieces: seq<string>)
    ensures |pieces| == |Cuts(s)| + 1
  {
    Pieces(s, Starts(s), Ends(s))
  }

  /** Piece `j` of `fix_split` is the slice between cut `j - 1` (or 0) and
      cut `j` (or the end). */
  lemma PieceAt(s: string, j: nat)
    requires j <= |Cuts(s)|
    ensures |FixSplit(s)| == |Cuts(s)| + 1
    ensures Starts(s)[j] <= Ends(s)[j] <= |s|
    ensures FixSplit(s)[j] == s[Starts(s)[j]..Ends(s)[j]]
  {
    CutsOrdered(s);
  }

  /** Gluing the pieces of consecutive cuts gives back the covered slice. */
  lemma {:induction false} ConcatPieces(s: string, starts: seq<nat>, ends: seq<nat>)
    requires |starts| == |ends| >= 1
    requires forall j :: 0 <= j < |starts| ==> starts[j] <= ends[j] <= |s|
    requires forall j, k :: 0 <= j <= k < |starts| ==> starts[j] <= starts[k]
    requires forall j :: 0 <= j < |starts| - 1 ==> ends[j] == starts[j + 1]
    ensures Concat(Pieces(s, starts, ends)) == s[starts[0]..ends[|ends| - 1]]
  {
    if |starts| > 1 {
      ConcatPieces(s, starts[1..], ends[1..]);
      assert s[starts[0]..ends[|ends| - 1]] == s[starts[0]..ends[0]] + s[starts[1]..ends[|ends| - 1]];
    }
  }

  /** The pieces of `fix_split` concatenate back to the input. */
  lemma FixSplitConcat(s: string)
    ensures Concat(FixSplit(s)) == s
  {
    CutsOrdered(s);
    StartsEnds(s);
    ConcatPieces(s, Starts(s), Ends(s));
    assert s[0..|s|] == s;
  }

  /** There is one more piece than there are upper-case letters. */
  lemma FixSplitCount(s: string)
    ensures |FixSplit(s)| == Count(s, IsUpper) + 1
  {
    CutsOrdered(s);
    PositionsCount(s, IsUpper);
  }

  /** An upper-case letter at or after cut `m` is itself a cut of index at
      least `m`. */
  lemma UpperAfterCut(s: string, m: nat, p: nat)
    requires m < |Cuts(s)| && Cuts(s)[m] <= p < |s| && IsUpper(s[p])
    ensures exists q :: m <= q < |Cuts(s)| && Cuts(s)[q] == p
  {
    var c := Cuts(s);
    CutsComplete(s, p);
    var q :| 0 <= q < |c| && c[q] == p;
    assert m <= q;
  }

  /** An upper-case letter before the first cut is impossible. */
  lemma NoUpperBeforeFirstCut(s: string, p: nat)
    requires p < |s| && IsUpper(s[p])
    ensures Cuts(s) != [] && Cuts(s)[0] <= p
  {
    var c := Cuts(s);
    CutsComplete(s, p);
    var q :| 0 <= q < |c| && c[q] == p;
    assert q == 0 || c[0] < c[q];
  }

  /** The first piece holds no upper-case letter, and it is empty exactly
      when the input is empty or starts with an upper-case letter. */
  lemma FixSplitFirstPiece(s: string)
    ensures NoUpper(FixSplit(s)[0])
    ensures FixSplit(s)[0] == [] <==> (s == [] || IsUpper(s[0]))
  {
    PieceAt(s, 0);
    StartsEnds(s);
    var first := FixSplit(s)[0];
    var end := Ends(s)[0];
    assert first == s[0..end];
    forall i | 0 <= i < |first|
      ensures !IsUpper(first[i])
    {
      assert first[i] == s[i];
      if IsUpper(s[i]) {
        NoUpperBeforeFirstCut(s, i);
        assert false;
      }
    }
    if s != [] && IsUpper(s[0]) {
      NoUpperBeforeFirstCut(s, 0);
    }
  }

  /** Strictly between cut `m` and the next cut (or the end) there is no
      upper-case letter. */
  lemma NoUpperBetweenCuts(s: string, m: nat, p: nat)
    requires m < |Cuts(s)| && Cuts(s)[m] < p < |s|
    requires m + 1 < |Cuts(s)| ==> p < Cuts(s)[m + 1]
    ensures !IsUpper(s[p])
  {
    var c := Cuts(s);
    forall q | 0 <= q < |c|
      ensures c[q] != p
    {
      if q <= m {
        assert q == m || c[q] < c[m];
      } else {
        assert q == m + 1 || c[m + 1] < c[q];
      }
    }
    if IsUpper(s[p]) {
      CutsComplete(s, p);
    }
  }

  lemma SliceTailNoUpper(s: string, a: nat, b: nat)
    requires a < b <= |s|
    requires forall p :: a < p < b ==> !IsUpper(s[p])
    ensures NoUpper(s[a..b][1..])
  {
    var tail := s[a..b][1..];
    forall i | 0 <= i < |tail|
      ensures !IsUpper(tail[i])
    {
      assert tail[i] == s[a + 1 + i];
    }
  }

  /** A camel-case word: non-empty, an upper-case letter first and no other
      upper-case letter after it. */
  predicate CamelWord(w: string)
  {
    w != [] && IsUpper(w[0]) && NoUpper(w[1..])
  }

  /** The text from cut `m` up to the next cut (or the end) is non-empty,
      starts with an upper-case letter and holds no other. */
  lemma Segment(s: string, m: nat, end: nat)
    requires m < |Cuts(s)|
    requires end == if m + 1 < |Cuts(s)| then Cuts(s)[m + 1] else |s|
    ensures Cuts(s)[m] < end <= |s|
    ensures CamelWord(s[Cuts(s)[m]..end])
  {
    var c := Cuts(s);
    var start := c[m];
    if m + 1 < |c| { assert c[m] < c[m + 1]; }
    forall p | start < p < end
      ensures !IsUpper(s[p])
    {
      NoUpperBetweenCuts(s, m, p);
    }
    SliceTailNoUpper(s, start, end);
  }

  /** Piece `j >= 1` runs from cut `j - 1` to cut `j` (or the end). */
  lemma LaterPieceAt(s: string, j: nat)
    requires 1 <= j <= |Cuts(s)|
    ensures |FixSplit(s)| == |Cuts(s)| + 1
    ensures Cuts(s)[j - 1] <= (if j < |Cuts(s)| then Cuts(s)[j] else |s|) <= |s|
    ensures FixSplit(s)[j] == s[Cuts(s)[j - 1]..if j < |Cuts(s)| then Cuts(s)[j] else |s|]
  {
    PieceAt(s, j);
    StartsEnds(s);
  }

  /** Piece `j >= 1` is non-empty, starts with an upper-case letter and holds
      no other upper-case letter. */
  lemma LaterPiece(s: string, j: nat)
    requires 1 <= j <= |Cuts(s)|
    ensures CamelWord(FixSplit(s)[j])
  {
    var m := j - 1;
    var end := if j < |Cuts(s)| then Cuts(s)[j] else |s|;
    assert m + 1 == j;
    Segment(s, m, end);
    LaterPieceAt(s, j);
  }

  /** Every later piece is non-empty, starts with an upper-case letter and
      holds no other upper-case letter. */
  lemma FixSplitLaterPieces(s: string)
    ensures forall j :: 1 <= j < |FixSplit(s)| ==> CamelWord(FixSplit(s)[j])
  {
    PieceAt(s, 0);
    forall j | 1 <= j < |FixSplit(s)|
      ensures CamelWord(FixSplit(s)[j])
    {
      LaterPiece(s, j);
    }
  }

  lemma SliceNoSpace(s: string, a: nat, b: nat)
    requires a <= b <= |s| && NoSpace(s)
    ensures NoSpace(s[a..b])
  {
    forall i | 0 <= i < b - a
      ensures !IsSpace(s[a..b][i])
    {
      assert s[a..b][i] == s[a + i];
    }
  }

  /** A piece of `s` has no whitespace when `s` has none. */
  lemma FixSplitNoSpace(s: string)
    requires NoSpace(s)
    ensures forall j :: 0 <= j < |FixSplit(s)| ==> NoSpace(FixSplit(s)[j])
  {
    PieceAt(s, 0);
    forall j | 0 <= j < |FixSplit(s)|
      ensures NoSpace(FixSplit(s)[j])
    {
      PieceAt(s, j);
      SliceNoSpace(s, Starts(s)[j], Ends(s)[j]);
    }
  }

  /** The body of a hashtag match: the text after the leading `#`. */
  function Body(matched: string): string
  {
    if matched == [] then [] else matched[1..]
  }

  /** `hashtag(m)`: an all-caps body is lowered and padded with spaces;
      any other body becomes the marker followed by its camel-case pieces,
      all joined with single spaces. */
  function Hashtag(matched: string): (r: string)
    ensures PyIsUpper(Body(matched)) ==> |r| == |Body(matched)| + 2 && NoUpper(r)
    ensures !PyIsUpper(Body(matched)) ==> |r| > |HashtagMarker| && r[..|HashtagMarker|] == HashtagMarker
  {
    var body := Body(matched);
    if PyIsUpper(body) then " " + Lower(body) + " "
    else Join([HashtagMarker] + FixSplit(body))
  }

  /** An all-caps body (`str.isupper()`) yields the lowered body between two
      spaces: one token, no marker. */
  lemma HashtagAllUpper(body: string)
    requires NoSpace(body) && PyIsUpper(body)
    ensures Hashtag(['#'] + body) == " " + Lower(body) + " "
    ensures Words(Hashtag(['#'] + body)) == [Lower(body)]
  {
    assert Body(['#'] + body) == body;
    var low := Lower(body);
    LowerFacts(body);
    assert low != [];
    assert " " + low + " " == [' '] + low + [' '] + [];
    WordsAppendSpace([' '] + low, ' ', []);
    assert ([' '] + low)[1..] == low;
    WordsOfWord(low);
  }

  /** Any other body yields a string that starts with the marker; splitting
      it on whitespace gives the marker followed by the non-empty camel-case
      pieces, and those pieces glue back to the body. */
  lemma HashtagCamelCase(body: string)
    requires NoSpace(body) && !PyIsUpper(body)
    ensures |Hashtag(['#'] + body)| >= |HashtagMarker|
    ensures Hashtag(['#'] + body)[..|HashtagMarker|] == HashtagMarker
    ensures Words(Hashtag(['#'] + body)) == [HashtagMarker] + NonEmpty(FixSplit(body))
    ensures Concat(Words(Hashtag(['#'] + body))[1..]) == body
  {
    assert Body(['#'] + body) == body;
    var pieces := FixSplit(body);
    var xs := [HashtagMarker] + pieces;
    var r := Hashtag(['#'] + body);
    assert r == Join(xs);
    FixSplitCount(body);
    assert xs[1..] == pieces;
    assert r == HashtagMarker + " " + Join(pieces);
    FixSplitNoSpace(body);
    MarkersAreTokens();
    WordsOfJoin(xs);
    assert NonEmpty(xs) == [HashtagMarker] + NonEmpty(pieces);
    assert Words(r)[1..] == NonEmpty(pieces);
    ConcatNonEmpty(pieces);
    FixSplitConcat(body);
  }

  /** `allcaps(m)`: the lowered match followed by the all-caps marker. */
  function Allcaps(matched: string): (r: string)
    ensures |r| == |matched| + 1 + |AllcapsMarker|
    ensures NoUpper(r)
  {
    Lower(matched) + " " + AllcapsMarker
  }

  /** For a match of `([A-Z]){2,}` the result splits into the lowered run
      and the marker, and the lowered run is the run letter by letter in
      lower case. */
  lemma AllcapsWords(matched: string)
    requires |matched| >= 2 && forall i :: 0 <= i < |matched| ==> IsUpper(matched[i])
    ensures Words(Allcaps(matched)) == [Lower(matched), AllcapsMarker]
    ensures forall i :: 0 <= i < |matched| ==>
              IsLower(Lower(matched)[i]) && Lower(matched)[i] as int == matched[i] as int + 32
  {
    var low := Lower(matched);
    LowerFacts(matched);
    assert NoSpace(matched);
    assert Allcaps(matched) == low + [' '] + AllcapsMarker;
    WordsAppendSpace(low, ' ', AllcapsMarker);
    WordsOfWord(low);
    MarkersAreTokens();
    WordsOfWord(AllcapsMarker);
  }
}
