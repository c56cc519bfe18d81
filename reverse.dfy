/** String reversal (EvaluationService.reverse). */
module Reverser {
  import opened Wrappers

  /** The characters of s in the opposite order. */
  function Reversed(s: string): (r: string)
    ensures |r| == |s|
    ensures forall i :: 0 <= i < |s| ==> r[i] == s[|s| - 1 - i]
  {
    if s == [] then [] else Reversed(s[1..]) + [s[0]]
  }

  /** reverse: an absent string stays absent, a present one is reversed. */
  function Reverse(s: Option<string>): (r: Option<string>)
    ensures r.None? <==> s.None?
    ensures s == Some([]) ==> r == Some([])
    ensures s.Some? ==> (|r.value| == |s.value| &&
                         forall i :: 0 <= i < |s.value| ==> r.value[i] == s.value[|s.value| - 1 - i])
  {
    match s
    case None => None
    case Some(t) => Some(Reversed(t))
  }

  /** Reversing twice gives back the original text. */
  lemma ReverseInvolution(s: Option<string>)
    ensures Reverse(Reverse(s)) == s
  {
    if s.Some? {
      var t := s.value;
      assert Reversed(Reversed(t)) == t;
    }
  }

  /** Only the order changes: every character, with its case and punctuation, keeps its count. */
  lemma {:induction false} ReversedKeepsCharacters(s: string)
    ensures multiset(Reversed(s)) == multiset(s)
  {
    if s != [] {
      ReversedKeepsCharacters(s[1..]);
      assert s == [s[0]] + s[1..];
    }
  }

  predicate IsPalindrome(s: string)
  {
    forall i :: 0 <= i < |s| ==> s[i] == s[|s| - 1 - i]
  }

  /** The fixed points of reversal are exactly the palindromes. */
  lemma PalindromeIsFixedPoint(s: string)
    ensures Reversed(s) == s <==> IsPalindrome(s)
  {
  }

  /** The expected values of the reverse tests. */
  lemma ReverseAbsentAndEmpty()
    ensures Reverse(None) == None
    ensures Reverse(Some("")) == Some("")
  {
  }

  lemma ReverseWords()
    ensures Reverse(Some("robot")) == Some("tobor")
    ensures Reverse(Some("Ramen")) == Some("nemaR")
  {
    assert Reversed("robot") == "tobor";
    assert Reversed("Ramen") == "nemaR";
  }

  lemma ReverseSentence()
    ensures Reverse(Some("I'm hungry!")) == Some("!yrgnuh m'I")
  {
    assert Reversed("I'm hungry!") == "!yrgnuh m'I";
  }

  lemma ReversePalindrome()
    ensures Reverse(Some("racecar")) == Some("racecar")
  {
    PalindromeIsFixedPoint("racecar");
  }
}
