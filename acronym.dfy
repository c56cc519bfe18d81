/**
 * Acronyms (EvaluationService.acronym): the first letter of every word,
 * upper-cased, in word order. Whitespace and hyphens separate words; any other
 * character that is not a letter (a comma, an apostrophe) is skipped.
 */
module Acronyms {
  import opened Wrappers
  import opened Ascii
  import opened Tokenize

  /** Whitespace (space, tab, line feed, vertical tab, form feed, carriage return) and the hyphen. */
  const WordSeparators: set<char> := {' ', '\t', '\n', '\U{000B}', '\U{000C}', '\r', '-'}

  predicate HasLetter(w: string)
  {
    exists i :: 0 <= i < |w| && IsLetter(w[i])
  }

  /** The first letter of a word. */
  function FirstLetter(w: string): (c: char)
    requires HasLetter(w)
    ensures IsLetter(c)
    ensures exists i :: 0 <= i < |w| && w[i] == c && forall j :: 0 <= j < i ==> !IsLetter(w[j])
  {
    if IsLetter(w[0]) then w[0]
    else
      assert HasLetter(w[1..]) by {
        var i :| 0 <= i < |w| && IsLetter(w[i]);
        assert w[1..][i - 1] == w[i];
      }
      var c := FirstLetter(w[1..]);
      ghost var i :| 0 <= i < |w[1..]| && w[1..][i] == c && forall j :: 0 <= j < i ==> !IsLetter(w[1..][j]);
      assert w[i + 1] == c && forall j :: 0 <= j < i + 1 ==> !IsLetter(w[j]);
      c
  }

  /** What one word contributes: its first letter upper-cased, or nothing when it has no letter. */
  function Initial(w: string): (r: string)
    ensures |r| <= 1
    ensures r == [] <==> !HasLetter(w)
    ensures r != [] ==> IsUpper(r[0])
  {
    if HasLetter(w) then [ToUpper(FirstLetter(w))] else []
  }

  /** Reference definition: the initials of a sequence of words, concatenated in order. */
  function Initials(ws: seq<string>): (r: string)
    ensures |r| <= |ws|
    ensures forall i :: 0 <= i < |r| ==> IsUpper(r[i])
  {
    if ws == [] then [] else Initial(ws[0]) + Initials(ws[1..])
  }

  /**
   * One left-to-right pass over the phrase. `seeking` holds while the current
   * word has not yet contributed its letter; a separator starts a new word.
   */
  function Scan(s: string, seeking: bool): string
  {
    if s == [] then []
    else if s[0] in WordSeparators then Scan(s[1..], true)
    else if seeking && IsLetter(s[0]) then [ToUpper(s[0])] + Scan(s[1..], false)
    else Scan(s[1..], seeking)
  }

  /** acronym: absent stays absent; otherwise one upper-case letter per word, in word order. */
  function Acronym(phrase: Option<string>): (r: Option<string>)
    ensures r.None? <==> phrase.None?
    ensures phrase.Some? ==> forall i :: 0 <= i < |r.value| ==> IsUpper(r.value[i])
  {
    match phrase
    case None => None
    case Some(s) =>
      ScanMatchesWords(s);
      Some(Scan(s, true))
  }

  /** Scanning one word w, followed by the end or a separator, yields w's initial (if sought) and moves on. */
  lemma {:induction false} ScanWord(w: string, t: string, seeking: bool)
    requires NoSeparator(w, WordSeparators)
    requires t == [] || t[0] in WordSeparators
    ensures Scan(w + t, seeking) == (if seeking then Initial(w) else []) + Scan(t, true)
  {
    if w == [] {
      assert w + t == t;
      assert !HasLetter(w);
    } else {
      assert (w + t)[0] == w[0];
      assert (w + t)[1..] == w[1..] + t;
      ScanWord(w[1..], t, seeking && !IsLetter(w[0]));
      if seeking && !IsLetter(w[0]) {
        assert HasLetter(w) == HasLetter(w[1..]) by {
          if HasLetter(w) {
            var i :| 0 <= i < |w| && IsLetter(w[i]);
            assert w[1..][i - 1] == w[i];
          }
          if HasLetter(w[1..]) {
            var i :| 0 <= i < |w[1..]| && IsLetter(w[1..][i]);
            assert w[i + 1] == w[1..][i];
          }
        }
      }
    }
  }

  /** The one-pass scan computes exactly the initials of the words of the phrase. */
  lemma {:induction false} ScanMatchesWords(s: string)
    ensures Scan(s, true) == Initials(Split(s, WordSeparators))
    decreases |s|
  {
    if s == [] {
    } else if s[0] in WordSeparators {
      ScanMatchesWords(s[1..]);
    } else {
      var n := RunLength(s, WordSeparators);
      var w, t := s[..n], s[n..];
      assert s == w + t;
      ScanWord(w, t, true);
      ScanMatchesWords(t);
      var ws := Split(s, WordSeparators);
      assert ws == [w] + Split(t, WordSeparators);
      assert ws[0] == w && ws[1..] == Split(t, WordSeparators);
    }
  }

  /** The acronym of a phrase is the initials of its words, split at whitespace and hyphens. */
  lemma AcronymOfWords(phrase: string)
    ensures Acronym(Some(phrase)) == Some(Initials(Split(phrase, WordSeparators)))
  {
    ScanMatchesWords(phrase);
  }

  /** Initials distribute over concatenation of word lists. */
  lemma {:induction false} InitialsAppend(xs: seq<string>, ys: seq<string>)
    ensures Initials(xs + ys) == Initials(xs) + Initials(ys)
  {
    if xs != [] {
      assert (xs + ys)[0] == xs[0];
      assert (xs + ys)[1..] == xs[1..] + ys;
      InitialsAppend(xs[1..], ys);
    } else {
      assert xs + ys == ys;
    }
  }

  /** When every word has a letter, there is exactly one initial per word: that word's first letter, upper-cased. */
  lemma {:induction false} OneInitialPerWord(ws: seq<string>)
    requires forall k :: 0 <= k < |ws| ==> HasLetter(ws[k])
    ensures |Initials(ws)| == |ws|
    ensures forall k :: 0 <= k < |ws| ==> Initials(ws)[k] == ToUpper(FirstLetter(ws[k]))
  {
    if ws != [] {
      OneInitialPerWord(ws[1..]);
    }
  }

  /** A stretch without letters contributes nothing, whatever the state of the scan. */
  lemma {:induction false} ScanWithoutLetters(s: string, seeking: bool)
    requires forall i :: 0 <= i < |s| ==> !IsLetter(s[i])
    ensures Scan(s, seeking) == []
  {
    if s != [] {
      ScanWithoutLetters(s[1..], s[0] in WordSeparators || seeking);
    }
  }

  /** A phrase of punctuation and whitespace only has the empty acronym, not an absent one. */
  lemma NoLettersNoInitials(phrase: string)
    requires forall i :: 0 <= i < |phrase| ==> !IsLetter(phrase[i])
    ensures Acronym(Some(phrase)) == Some("")
  {
    ScanWithoutLetters(phrase, true);
  }

  /** Words are joined in order: the acronym of "a b" is the acronym of a followed by that of b. */
  lemma WordOrder(a: string, b: string)
    ensures Acronym(Some(a + " " + b)).value == Acronym(Some(a)).value + Acronym(Some(b)).value
  {
    assert a + " " + b == a + [' '] + b;
    AcronymOfWords(a + " " + b);
    AcronymOfWords(a);
    AcronymOfWords(b);
    SplitAtSeparator(a, ' ', b, WordSeparators);
    InitialsAppend(Split(a, WordSeparators), Split(b, WordSeparators));
  }

  /** A hyphen separates words just as a space does. */
  lemma HyphenActsAsSpace(a: string, b: string)
    ensures Acronym(Some(a + "-" + b)) == Acronym(Some(a + " " + b))
  {
    assert a + "-" + b == a + ['-'] + b;
    assert a + " " + b == a + [' '] + b;
    AcronymOfWords(a + "-" + b);
    AcronymOfWords(a + " " + b);
    SeparatorsInterchangeable(a, '-', ' ', b, WordSeparators);
  }

  /** A character that is neither a letter nor a separator, such as a comma, never changes the result. */
  lemma {:induction false} PunctuationIgnored(a: string, c: char, b: string, seeking: bool)
    requires !IsLetter(c) && c !in WordSeparators
    ensures Scan(a + [c] + b, seeking) == Scan(a + b, seeking)
  {
    if a == [] {
      assert a + [c] + b == [c] + b;
      assert ([c] + b)[1..] == b;
      assert a + b == b;
    } else {
      assert (a + [c] + b)[0] == a[0] && (a + b)[0] == a[0];
      assert (a + [c] + b)[1..] == a[1..] + [c] + b;
      assert (a + b)[1..] == a[1..] + b;
      var next := if a[0] in WordSeparators then true
                  else if seeking && IsLetter(a[0]) then false
                  else seeking;
      PunctuationIgnored(a[1..], c, b, next);
    }
  }

  lemma CommaIgnored(a: string, b: string)
    ensures Acronym(Some(a + "," + b)) == Acronym(Some(a + b))
  {
    assert a + "," + b == a + [','] + b;
    PunctuationIgnored(a, ',', b, true);
  }

  /** A single word that starts with a letter gives that letter, upper-cased. */
  lemma SingleWord(w: string)
    requires IsWord(w)
    ensures Acronym(Some(w)) == Some([ToUpper(w[0])])
  {
    assert NoSeparator(w, WordSeparators) by {
      forall i | 0 <= i < |w| ensures w[i] !in WordSeparators {
        assert w[i] in w;
      }
    }
    assert w + [] == w;
    ScanWord(w, [], true);
    assert HasLetter(w) by { assert IsLetter(w[0]); }
    assert FirstLetter(w) == w[0];
    assert Initial(w) + [] == Initial(w);
  }

  /** A word that starts with a letter and holds no separator. */
  predicate IsWord(w: string)
  {
    w != [] && IsLetter(w[0]) && forall c :: c in WordSeparators ==> c !in w
  }

  /** A word, a separator and the rest of the phrase: the word's letter comes first. */
  lemma LeadingWord(w: string, sep: char, rest: string)
    requires IsWord(w) && sep in WordSeparators
    ensures Acronym(Some(w + [sep] + rest)).value == [ToUpper(w[0])] + Acronym(Some(rest)).value
  {
    SingleWord(w);
    SeparatorsInterchangeable(w, sep, ' ', rest, WordSeparators);
    AcronymOfWords(w + [sep] + rest);
    AcronymOfWords(w + [' '] + rest);
    assert w + [' '] + rest == w + " " + rest;
    WordOrder(w, rest);
  }

  lemma ThreeWords(p: string, a: string, b: string, c: string)
    requires IsWord(a) && IsWord(b) && IsWord(c)
    requires p == a + " " + b + " " + c
    ensures Acronym(Some(p)) == Some([ToUpper(a[0]), ToUpper(b[0]), ToUpper(c[0])])
  {
    assert p == a + [' '] + (b + [' '] + c);
    LeadingWord(a, ' ', b + [' '] + c);
    LeadingWord(b, ' ', c);
    SingleWord(c);
    assert [ToUpper(a[0])] + ([ToUpper(b[0])] + [ToUpper(c[0])]) == [ToUpper(a[0]), ToUpper(b[0]), ToUpper(c[0])];
  }

  lemma FourWords(p: string, a: string, s1: char, b: string, s2: char, c: string, s3: char, d: string)
    requires IsWord(a) && IsWord(b) && IsWord(c) && IsWord(d)
    requires s1 in WordSeparators && s2 in WordSeparators && s3 in WordSeparators
    requires p == a + [s1] + b + [s2] + c + [s3] + d
    ensures Acronym(Some(p)) == Some([ToUpper(a[0]), ToUpper(b[0]), ToUpper(c[0]), ToUpper(d[0])])
  {
    assert p == a + [s1] + (b + [s2] + (c + [s3] + d));
    LeadingWord(a, s1, b + [s2] + (c + [s3] + d));
    LeadingWord(b, s2, c + [s3] + d);
    LeadingWord(c, s3, d);
    SingleWord(d);
    assert [ToUpper(a[0])] + ([ToUpper(b[0])] + ([ToUpper(c[0])] + [ToUpper(d[0])]))
        == [ToUpper(a[0]), ToUpper(b[0]), ToUpper(c[0]), ToUpper(d[0])];
  }

  /** The expected values of the acronym tests. */
  lemma AcronymAbsent()
    ensures Acronym(None) == None
  {
  }

  /** The words of each test phrase start with a letter and hold no separator. */
  lemma BasicWords()
    ensures IsWord("Portable") && IsWord("Network") && IsWord("Graphics")
  {
  }

  lemma PunctuationWords()
    ensures IsWord("First") && IsWord("In,") && IsWord("Out")
  {
  }

  lemma AllCapsWords()
    ensures IsWord("GNU") && IsWord("Image") && IsWord("Manipulation") && IsWord("Program")
  {
  }

  lemma HyphenWords()
    ensures IsWord("Complementary") && IsWord("metal") && IsWord("oxide") && IsWord("semiconductor")
  {
  }

  lemma AcronymBasic(phrase: string)
    requires phrase == "Portable Network Graphics"
    ensures Acronym(Some(phrase)) == Some("PNG")
  {
    BasicWords();
    ThreeWords(phrase, "Portable", "Network", "Graphics");
    assert ToUpper('P') == 'P' && ToUpper('N') == 'N' && ToUpper('G') == 'G';
  }

  lemma AcronymPunctuation(phrase: string)
    requires phrase == "First In, First Out"
    ensures Acronym(Some(phrase)) == Some("FIFO")
  {
    PunctuationWords();
    FourWords(phrase, "First", ' ', "In,", ' ', "First", ' ', "Out");
    assert ToUpper('F') == 'F' && ToUpper('I') == 'I' && ToUpper('O') == 'O';
  }

  lemma AcronymAllCapsWord(phrase: string)
    requires phrase == "GNU Image Manipulation Program"
    ensures Acronym(Some(phrase)) == Some("GIMP")
  {
    AllCapsWords();
    FourWords(phrase, "GNU", ' ', "Image", ' ', "Manipulation", ' ', "Program");
    assert ToUpper('G') == 'G' && ToUpper('I') == 'I' && ToUpper('M') == 'M' && ToUpper('P') == 'P';
  }

  lemma AcronymHyphen(phrase: string)
    requires phrase == "Complementary metal-oxide semiconductor"
    ensures Acronym(Some(phrase)) == Some("CMOS")
  {
    HyphenWords();
    FourWords(phrase, "Complementary", ' ', "metal", '-', "oxide", ' ', "semiconductor");
    assert ToUpper('C') == 'C' && ToUpper('m') == 'M' && ToUpper('o') == 'O' && ToUpper('s') == 'S';
  }
}
