/** The encoder loops of the preprocessing script: each normalised tweet
    becomes one row of `MaxTweetLength` word indices, its first words looked
    up in the lexicon (an unknown word gets the unknown-word index), the rest
    of the row left at the padding index 0. */
module Encoder {
  import opened Text
  import opened Lexicon

  const MaxTweetLength: nat := 35

  /** `word_to_index[word]`, falling back to the unknown-word index on a
      `KeyError`: the result is always a dictionary value or that index. */
  function Lookup(wordToIndex: map<string, int>, unknownToken: int, word: string): (r: int)
    ensures r in wordToIndex.Values || r == unknownToken
  {
    if word in wordToIndex then wordToIndex[word] else unknownToken
  }

  /** The row a tweet is encoded to. */
  function EncodedRow(tweet: string, wordToIndex: map<string, int>, unknownToken: int): (row: seq<int>)
    ensures |row| == MaxTweetLength
  {
    var words := Words(tweet);
    seq(MaxTweetLength, k requires 0 <= k < MaxTweetLength =>
      if k < |words| then Lookup(wordToIndex, unknownToken, words[k]) else PadToken)
  }

  /** One encoder loop: a zero matrix with a row per tweet, filled word by
      word, stopping after `MaxTweetLength` words. */
  method EncodeTweets(tweets: seq<string>, wordToIndex: map<string, int>, unknownToken: int)
    returns (ids: array2<int>)
    ensures fresh(ids)
    ensures ids.Length0 == |tweets| && ids.Length1 == MaxTweetLength
    ensures forall t, k :: 0 <= t < |tweets| && 0 <= k < MaxTweetLength ==>
              ids[t, k] == EncodedRow(tweets[t], wordToIndex, unknownToken)[k]
  {
    ids := new int[|tweets|, MaxTweetLength]((t, k) => 0);
    var tweetCounter := 0;
    while tweetCounter < |tweets|
      invariant 0 <= tweetCounter <= |tweets|
      invariant forall t, k :: 0 <= t < tweetCounter && 0 <= k < MaxTweetLength ==>
                  ids[t, k] == EncodedRow(tweets[t], wordToIndex, unknownToken)[k]
      invariant forall t, k :: tweetCounter <= t < |tweets| && 0 <= k < MaxTweetLength ==> ids[t, k] == 0
    {
      var row := EncodedRow(tweets[tweetCounter], wordToIndex, unknownToken);
      var split := Words(tweets[tweetCounter]);
      var indexCounter := 0;
      while indexCounter < |split|
        invariant 0 <= indexCounter <= |split| && indexCounter < MaxTweetLength
        invariant forall t, k :: 0 <= t < tweetCounter && 0 <= k < MaxTweetLength ==>
                    ids[t, k] == EncodedRow(tweets[t], wordToIndex, unknownToken)[k]
        invariant forall t, k :: tweetCounter < t < |tweets| && 0 <= k < MaxTweetLength ==> ids[t, k] == 0
        invariant forall k :: 0 <= k < indexCounter ==> ids[tweetCounter, k] == row[k]
        invariant forall k :: indexCounter <= k < MaxTweetLength ==> ids[tweetCounter, k] == 0
      {
        var word := split[indexCounter];
        if word in wordToIndex {
          ids[tweetCounter, indexCounter] := wordToIndex[word];
        } else {
          ids[tweetCounter, indexCounter] := unknownToken;
        }
        indexCounter := indexCounter + 1;
        if indexCounter >= MaxTweetLength {
          break;
        }
      }
      tweetCounter := tweetCounter + 1;
    }
  }

  /** Both encoder loops of the script over a built lexicon: the has-emotion
      loop falls back to `word_to_index['UNK']`, the no-emotion loop to
      `UNKNOWN_TOKEN`; both encode with the lexicon's unknown-word index. */
  method EncodeCorpus(lines: seq<Fields>, numbering: Numbering, lex: Lexicon, has: seq<string>, no: seq<string>)
    returns (hasIds: array2<int>, noIds: array2<int>)
    requires LexiconOf(lines, numbering) == Built(lex)
    ensures fresh(hasIds) && fresh(noIds)
    ensures hasIds.Length0 == |has| && hasIds.Length1 == MaxTweetLength
    ensures noIds.Length0 == |no| && noIds.Length1 == MaxTweetLength
    ensures forall t, k :: 0 <= t < |has| && 0 <= k < MaxTweetLength ==>
              hasIds[t, k] == EncodedRow(has[t], lex.wordToIndex, lex.unknownToken)[k]
    ensures forall t, k :: 0 <= t < |no| && 0 <= k < MaxTweetLength ==>
              noIds[t, k] == EncodedRow(no[t], lex.wordToIndex, lex.unknownToken)[k]
  {
    LexiconShape(lines, numbering);
    hasIds := EncodeTweets(has, lex.wordToIndex, lex.wordToIndex[UnkWord]);
    noIds := EncodeTweets(no, lex.wordToIndex, lex.unknownToken);
  }

  /** The row holds one index per word up to `MaxTweetLength`, each the
      word's own index or the unknown-word index, and padding after. */
  lemma EncodedRowMeaning(tweet: string, wordToIndex: map<string, int>, unknownToken: int, k: nat)
    requires k < MaxTweetLength
    ensures k < |Words(tweet)| && Words(tweet)[k] in wordToIndex ==>
              EncodedRow(tweet, wordToIndex, unknownToken)[k] == wordToIndex[Words(tweet)[k]]
    ensures k < |Words(tweet)| && Words(tweet)[k] !in wordToIndex ==>
              EncodedRow(tweet, wordToIndex, unknownToken)[k] == unknownToken
    ensures k >= |Words(tweet)| ==> EncodedRow(tweet, wordToIndex, unknownToken)[k] == PadToken
  {
  }

  /** Words past the first `MaxTweetLength` are dropped: appending more text
      after a space to a tweet that already has that many words does not
      change its row. */
  lemma EncodedRowTruncates(tweet: string, c: char, more: string, wordToIndex: map<string, int>, unknownToken: int)
    requires IsSpace(c) && |Words(tweet)| >= MaxTweetLength
    ensures EncodedRow(tweet + [c] + more, wordToIndex, unknownToken) == EncodedRow(tweet, wordToIndex, unknownToken)
  {
    WordsAppendSpace(tweet, c, more);
    var a := EncodedRow(tweet + [c] + more, wordToIndex, unknownToken);
    var b := EncodedRow(tweet, wordToIndex, unknownToken);
    assert forall k :: 0 <= k < MaxTweetLength ==> a[k] == b[k];
  }

  /** Over a built lexicon an entry is 0 exactly at the padding positions and
      at the word `PAD` when the file did not redefine it: no other word and
      no unknown word is confused with padding. */
  lemma EncodedRowPadding(lines: seq<Fields>, numbering: Numbering, tweet: string, k: nat)
    requires LexiconOf(lines, numbering).Built?
    requires k < MaxTweetLength
    ensures var lex := LexiconOf(lines, numbering).lex;
            EncodedRow(tweet, lex.wordToIndex, lex.unknownToken)[k] == PadToken <==>
            k >= |Words(tweet)| || (Words(tweet)[k] == PadWord && PadWord in lex.wordToIndex && lex.wordToIndex[PadWord] == PadToken)
  {
    LexiconShape(lines, numbering);
    LexiconIndexRange(lines, numbering);
  }

  /** With indices numbered by accepted rows every encoded entry names a row
      of the embedding table. */
  lemma EncodedRowInTable(lines: seq<Fields>, tweet: string)
    requires LexiconOf(lines, ByRowCount).Built?
    ensures var lex := LexiconOf(lines, ByRowCount).lex;
            forall k :: 0 <= k < MaxTweetLength ==>
              0 <= EncodedRow(tweet, lex.wordToIndex, lex.unknownToken)[k] < |lex.weights|
  {
    LexiconShape(lines, ByRowCount);
    LexiconIndexRange(lines, ByRowCount);
  }
}
