/**
 * Word frequencies (EvaluationService.wordCount): the text is split at runs
 * of whitespace and commas, and every distinct token is mapped to the number
 * of times it occurs. Tokens are compared exactly, case included.
 */
module WordCounter {
  import opened Tokenize

  /** Space, tab, line feed, vertical tab, form feed, carriage return, and the comma. */
  const Separators: set<char> := {' ', '\t', '\n', '\U{000B}', '\U{000C}', '\r', ','}

  /** The tokens of a text, in order. */
  function Words(text: string): (ws: seq<string>)
    ensures forall k :: 0 <= k < |ws| ==> ws[k] != [] && NoSeparator(ws[k], Separators)
  {
    Split(text, Separators)
  }

  /** Count of every distinct word: the specification of WordCount. */
  function Tally(ws: seq<string>): (counts: map<string, nat>)
    ensures counts.Keys == set w | w in ws
    ensures forall w :: w in counts ==> counts[w] == multiset(ws)[w] >= 1
  {
    map w | w in ws :: multiset(ws)[w]
  }

  /** Counting one more word adds one to its entry, creating the entry at 1 when the word is new. */
  lemma TallyAppend(ws: seq<string>, w: string)
    ensures Tally(ws + [w]) == Tally(ws)[w := if w in Tally(ws) then Tally(ws)[w] + 1 else 1]
  {
  }

  /**
   * wordCount: one pass over the tokens, adding one to the entry of each
   * (a first occurrence creates the entry with count 1).
   */
  method WordCount(text: string) returns (counts: map<string, nat>)
    ensures forall w :: w in counts <==> w in Words(text)
    ensures forall w :: w in counts ==> counts[w] == multiset(Words(text))[w]
    ensures counts == Tally(Words(text))
  {
    var ws := Words(text);
    counts := map[];
    var i := 0;
    while i < |ws|
      invariant 0 <= i <= |ws|
      invariant counts == Tally(ws[..i])
    {
      var w := ws[i];
      assert ws[..i + 1] == ws[..i] + [w];
      TallyAppend(ws[..i], w);
      if w in counts {
        counts := counts[w := counts[w] + 1];
      } else {
        counts := counts[w := 1];
      }
      i := i + 1;
    }
    assert ws[..|ws|] == ws;
  }

  /** Every key is a non-empty token free of separators. */
  lemma TallyKeysAreTokens(text: string)
    ensures forall w :: w in Tally(Words(text)) ==> w != [] && NoSeparator(w, Separators)
  {
  }

  /** A comma followed by a line break separates words exactly as a comma alone does. */
  lemma CommaNewlineLikeComma(a: string, b: string)
    ensures Tally(Words(a + ",\n" + b)) == Tally(Words(a + "," + b))
  {
    assert a + ",\n" + b == a + [',', '\n'] + b;
    assert a + "," + b == a + [','] + b;
    ExtraSeparatorIgnored(a, ',', '\n', b, Separators);
  }

  /** Any separator, whitespace or comma, can stand for any other. */
  lemma SeparatorsInterchangeable(a: string, c: char, d: char, b: string)
    requires c in Separators && d in Separators
    ensures Tally(Words(a + [c] + b)) == Tally(Words(a + [d] + b))
  {
    Tokenize.SeparatorsInterchangeable(a, c, d, b, Separators);
  }

  predicate IsToken(w: string)
  {
    w != [] && forall c :: c in Separators ==> c !in w
  }

  /** Tokens joined with separators are counted exactly as the list of those tokens. */
  lemma WordsOfJoin(ws: seq<string>, sep: string, text: string)
    requires sep != [] && AllSeparators(sep, Separators)
    requires forall k :: 0 <= k < |ws| ==> IsToken(ws[k])
    requires text == Join(ws, sep)
    ensures Words(text) == ws
  {
    forall k | 0 <= k < |ws| ensures NoSeparator(ws[k], Separators) {
      forall i | 0 <= i < |ws[k]| ensures ws[k][i] !in Separators {
        assert ws[k][i] in ws[k];
      }
    }
    SplitJoin(ws, sep, Separators);
  }

  /** The expected values of the word-count tests. */
  lemma CountOneWord()
    ensures Tally(Words("word")) == map["word" := 1]
  {
    WordsOfJoin(["word"], " ", "word");
  }

  lemma CountOneOfEachWord()
    ensures Tally(Words("one of each")) == map["one" := 1, "of" := 1, "each" := 1]
  {
    WordsOfJoin(["one", "of", "each"], " ", "one of each");
    TallyOfDistinctWords(["one", "of", "each"]);
  }

  lemma CountMultipleOccurrences()
    ensures Tally(Words("one fish two fish red fish blue fish"))
         == map["one" := 1, "fish" := 4, "two" := 1, "red" := 1, "blue" := 1]
  {
    FishPhraseIsJoined();
    FishWordsAreTokens();
    WordsOfJoin(FishWords, " ", "one fish two fish red fish blue fish");
    TallyOfFish();
  }

  const FishWords: seq<string> := ["one", "fish", "two", "fish", "red", "fish", "blue", "fish"]

  lemma FishPhraseIsJoined()
    ensures "one fish two fish red fish blue fish" == Join(FishWords, " ")
  {
  }

  lemma FishWordsAreTokens()
    ensures forall k :: 0 <= k < |FishWords| ==> IsToken(FishWords[k])
  {
  }

  lemma CountCrampedList()
    ensures Tally(Words("one,two,three")) == map["one" := 1, "two" := 1, "three" := 1]
  {
    WordsOfJoin(["one", "two", "three"], ",", "one,two,three");
    TallyOfDistinctWords(["one", "two", "three"]);
  }

  lemma CountExpandedList()
    ensures Tally(Words("one,\ntwo,\nthree")) == map["one" := 1, "two" := 1, "three" := 1]
  {
    WordsOfJoin(["one", "two", "three"], ",\n", "one,\ntwo,\nthree");
    TallyOfDistinctWords(["one", "two", "three"]);
  }

  lemma TallyOfDistinctWords(ws: seq<string>)
    requires |ws| == 3 && ws[0] != ws[1] && ws[0] != ws[2] && ws[1] != ws[2]
    ensures Tally(ws) == map[ws[0] := 1, ws[1] := 1, ws[2] := 1]
  {
    assert ws == [ws[0]] + [ws[1]] + [ws[2]];
    assert multiset(ws) == multiset{ws[0]} + multiset{ws[1]} + multiset{ws[2]};
    assert Tally(ws).Keys == {ws[0], ws[1], ws[2]};
  }

  lemma TallyOfFish()
    ensures Tally(FishWords)
         == map["one" := 1, "fish" := 4, "two" := 1, "red" := 1, "blue" := 1]
  {
  }
}
