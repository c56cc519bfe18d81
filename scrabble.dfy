/**
 * Scrabble scores (EvaluationService.getScrabbleScore): the sum of the
 * standard English tile values of the letters of a word, regardless of case.
 */
module Scrabble {
  import opened Ascii

  /**
   * Tile value of one character. A E I O U L N R S T score 1, D G 2,
   * B C M P 3, F H V W Y 4, K 5, J X 8, Q Z 10; the lower-case letters score
   * as their capitals. A character that is not a letter scores 0.
   */
  function LetterValue(c: char): (v: nat)
    ensures IsLetter(c) ==> 1 <= v <= 10
    ensures !IsLetter(c) ==> v == 0
  {
    match ToUpper(c)
    case 'A' | 'E' | 'I' | 'O' | 'U' | 'L' | 'N' | 'R' | 'S' | 'T' => 1
    case 'D' | 'G' => 2
    case 'B' | 'C' | 'M' | 'P' => 3
    case 'F' | 'H' | 'V' | 'W' | 'Y' => 4
    case 'K' => 5
    case 'J' | 'X' => 8
    case 'Q' | 'Z' => 10
    case _ => 0
  }

  /** Score of a word: the sum of its letters' values. */
  function Score(word: string): (r: nat)
    ensures r <= 10 * |word|
    ensures (forall i :: 0 <= i < |word| ==> IsLetter(word[i])) ==> r >= |word|
  {
    if word == [] then 0 else LetterValue(word[0]) + Score(word[1..])
  }

  /** The score of two pieces is the sum of their scores. */
  lemma {:induction false} ScoreAppend(a: string, b: string)
    ensures Score(a + b) == Score(a) + Score(b)
  {
    if a == [] {
      assert a + b == b;
    } else {
      assert (a + b)[0] == a[0];
      assert (a + b)[1..] == a[1..] + b;
      ScoreAppend(a[1..], b);
    }
  }

  /** Case does not matter: a word scores the same in upper case and in lower case. */
  lemma {:induction false} ScoreIgnoresCase(word: string)
    ensures Score(UpperCased(word)) == Score(word)
    ensures Score(LowerCased(word)) == Score(word)
  {
    if word != [] {
      var u, l := UpperCased(word), LowerCased(word);
      assert u[1..] == UpperCased(word[1..]);
      assert l[1..] == LowerCased(word[1..]);
      ScoreIgnoresCase(word[1..]);
      CaseFold(word[0]);
    }
  }

  /** The expected values of the scoring tests. */
  lemma ScoreValuableLetter()
    ensures Score("f") == 4
  {
  }

  lemma ScoreShortWord()
    ensures Score("zoo") == 12
  {
  }

  lemma ScoreMediumWord()
    ensures Score("street") == 6
  {
  }

  lemma ScoreValuableWord()
    ensures Score("quirky") == 22
  {
  }

  lemma ScoreMixedCase()
    ensures Score("OxyphenButazone") == 41
  {
    ScoreMixedCaseHalves("Oxyphen", "Butazone");
    assert "OxyphenButazone" == "Oxyphen" + "Butazone";
  }

  lemma ScoreMixedCaseHalves(a: string, b: string)
    requires a == "Oxyphen" && b == "Butazone"
    ensures Score(a + b) == 22 + 19
  {
    ScoreOfOxyphen();
    ScoreOfButazone();
    ScoreAppend(a, b);
  }

  lemma ScoreOfOxyphen()
    ensures Score("Oxyphen") == 22
  {
  }

  lemma ScoreOfButazone()
    ensures Score("Butazone") == 19
  {
  }
}
