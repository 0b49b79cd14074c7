/** Character classes and the two Python string operations the preprocessing
    relies on: `str.split()` without arguments (maximal runs of non-whitespace)
    and `" ".join(...)`. Characters are classified by their ASCII meaning. */
module Text {
  import opened Seqs

  /** Python's whitespace within Latin-1: space, `\t` `\n` `\v` `\f` `\r`,
      the separators `\x1c`..`\x1f`, NEL and NO-BREAK SPACE. */
  predicate IsSpace(c: char)
  {
    var n := c as int;
    n == 0x20 || 0x09 <= n <= 0x0D || 0x1C <= n <= 0x1F || n == 0x85 || n == 0xA0
  }

  /** The class `[A-Z]`. */
  predicate IsUpper(c: char) { 'A' <= c <= 'Z' }

  predicate IsLower(c: char) { 'a' <= c <= 'z' }

  predicate NoSpace(s: string)
  {
    forall i :: 0 <= i < |s| ==> !IsSpace(s[i])
  }

  predicate NoUpper(s: string)
  {
    forall i :: 0 <= i < |s| ==> !IsUpper(s[i])
  }

  function LowerChar(c: char): char
  {
    if IsUpper(c) then (c as int + 32) as char else c
  }

  /** `str.lower()` on the ASCII letters: the length is kept, no upper-case
      letter is left, every upper-case letter moves exactly 32 code points to
      its lower-case partner and every other character is fixed. */
  function Lower(s: string): (r: string)
    ensures |r| == |s|
    ensures NoUpper(r)
    ensures forall i :: 0 <= i < |s| && IsUpper(s[i]) ==> IsLower(r[i]) && r[i] as int == s[i] as int + 32
    ensures forall i :: 0 <= i < |s| && !IsUpper(s[i]) ==> r[i] == s[i]
  {
    seq(|s|, i requires 0 <= i < |s| => LowerChar(s[i]))
  }

  /** `str.isupper()`: at least one cased character and no lower-case one.
      Such a string is changed by lowering; a string without upper-case
      letters never qualifies. */
  function PyIsUpper(s: string): (b: bool)
    ensures b ==> s != [] && Lower(s) != s
    ensures NoUpper(s) ==> !b
  {
    (exists i :: 0 <= i < |s| && IsUpper(s[i])) &&
    (forall i :: 0 <= i < |s| ==> !IsLower(s[i]))
  }

  /** Lowering keeps whitespace where it is, and is idempotent. */
  lemma LowerFacts(s: string)
    ensures NoSpace(s) ==> NoSpace(Lower(s))
    ensures Lower(Lower(s)) == Lower(s)
  {
  }

  /** The longest prefix of `s` without whitespace. */
  function TakeWord(s: string): (w: string)
    ensures |w| <= |s| && w == s[..|w|]
    ensures NoSpace(w)
    ensures |w| < |s| ==> IsSpace(s[|w|])
  {
    if s == [] || IsSpace(s[0]) then [] else [s[0]] + TakeWord(s[1..])
  }

  /** Python's `str.split()` with no separator: the maximal runs of
      non-whitespace characters, left to right; leading, trailing and
      repeated whitespace produce no empty fields. */
  function Words(s: string): (ws: seq<string>)
    ensures forall k :: 0 <= k < |ws| ==> ws[k] != [] && NoSpace(ws[k])
    decreases |s|
  {
    if s == [] then []
    else if IsSpace(s[0]) then Words(s[1..])
    else
      var w := TakeWord(s);
      [w] + Words(s[|w|..])
  }

  /** `" ".join(xs)`: the fields glued together with exactly one separator
      between neighbours. */
  function Join(xs: seq<string>): (r: string)
    ensures xs != [] ==> |r| == |Concat(xs)| + |xs| - 1
  {
    if xs == [] then ""
    else if |xs| == 1 then xs[0]
    else xs[0] + " " + Join(xs[1..])
  }

  lemma {:induction false} TakeWordBeforeSpace(a: string, c: char, b: string)
    requires IsSpace(c) && NoSpace(a)
    ensures TakeWord(a + [c] + b) == a
  {
    if a == [] {
      assert (a + [c] + b)[0] == c;
    } else {
      assert (a + [c] + b)[1..] == a[1..] + [c] + b;
      TakeWordBeforeSpace(a[1..], c, b);
    }
  }

  lemma {:induction false} TakeWordAppendSpace(a: string, c: char, b: string)
    requires IsSpace(c)
    ensures TakeWord(a + [c] + b) == TakeWord(a)
  {
    if a != [] && !IsSpace(a[0]) {
      assert (a + [c] + b)[1..] == a[1..] + [c] + b;
      TakeWordAppendSpace(a[1..], c, b);
    }
  }

  /** A whitespace character separates: splitting `a c b` is splitting `a`
      followed by splitting `b`. */
  lemma {:induction false} WordsAppendSpace(a: string, c: char, b: string)
    requires IsSpace(c)
    ensures Words(a + [c] + b) == Words(a) + Words(b)
    decreases |a|
  {
    var s := a + [c] + b;
    if a == [] {
      assert s[1..] == b;
    } else if IsSpace(a[0]) {
      assert s[1..] == a[1..] + [c] + b;
      WordsAppendSpace(a[1..], c, b);
    } else {
      var w := TakeWord(a);
      TakeWordAppendSpace(a, c, b);
      assert s[|w|..] == a[|w|..] + [c] + b;
      WordsAppendSpace(a[|w|..], c, b);
    }
  }

  lemma {:induction false} TakeWordOfWord(w: string)
    requires NoSpace(w)
    ensures TakeWord(w) == w
  {
    if w != [] {
      TakeWordOfWord(w[1..]);
    }
  }

  /** A non-empty string without whitespace splits into itself. */
  lemma WordsOfWord(w: string)
    requires w != [] && NoSpace(w)
    ensures Words(w) == [w]
  {
    TakeWordOfWord(w);
    assert w[|w|..] == [];
  }

  /** Joining with single spaces and splitting again gives back the
      non-empty fields, provided no field holds whitespace of its own. */
  lemma {:induction false} WordsOfJoin(xs: seq<string>)
    requires forall k :: 0 <= k < |xs| ==> NoSpace(xs[k])
    ensures Words(Join(xs)) == NonEmpty(xs)
  {
    if xs == [] {
    } else if |xs| == 1 {
      assert xs[1..] == [];
      if xs[0] != [] { WordsOfWord(xs[0]); }
    } else {
      WordsOfJoin(xs[1..]);
      WordsAppendSpace(xs[0], ' ', Join(xs[1..]));
      if xs[0] != [] { WordsOfWord(xs[0]); }
    }
  }

  /** Round trip: splitting undoes joining for a list of words. */
  lemma WordsJoinRoundTrip(ws: seq<string>)
    requires forall k :: 0 <= k < |ws| ==> ws[k] != [] && NoSpace(ws[k])
    ensures Words(Join(ws)) == ws
  {
    WordsOfJoin(ws);
    NonEmptyOfNonEmpty(ws);
  }

  lemma {:induction false} NonEmptyOfNonEmpty(ws: seq<string>)
    requires forall k :: 0 <= k < |ws| ==> ws[k] != []
    ensures NonEmpty(ws) == ws
  {
    if ws != [] {
      NonEmptyOfNonEmpty(ws[1..]);
    }
  }
}
