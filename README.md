# Evaluation service exercises in Dafny

A model of the five small operations of the `EvaluationService` teaching
exercise, with proofs of the properties its JUnit suite
(`EvaluationServiceTest.java`) pins down. The five operations are:

- `reverse`: string reversal, where `null` stays `null`.
- `acronym`: the initial of every word, upper-cased.
- `getScrabbleScore`: the sum of the English tile values of a word's letters.
- `wordCount`: a map from each token to its number of occurrences.
- `BinarySearch<T>`: an object built over a sorted list and asked `indexOf(target)`.

The implementation class is not part of this model. Only its test suite is,
so every behaviour below is the one the assertions fix. Where the tests say
nothing, the choice is named under "## Left out".

Modules, one file each:

- `Wrappers` (`wrappers.dfy`): `Option`, which stands for a Java reference that may be `null`.
- `Ascii` (`ascii.dfy`): ASCII letters and case mapping.
- `Tokenize` (`tokenize.dfy`): splitting text into maximal runs of non-separator characters. Both `acronym` and `wordCount` use it. It comes with a split/join round trip.
- `Reverser` (`reverse.dfy`): `reverse`.
- `Acronyms` (`acronym.dfy`): `acronym`. It is written as one left-to-right scan. The scan is proved equal to a reference definition: the initials of the words that `Tokenize.Split` yields.
- `Scrabble` (`scrabble.dfy`): `getScrabbleScore`.
- `WordCounter` (`word_count.dfy`): `wordCount`. It is a method whose loop builds the map one token at a time. It is proved equal to the `Tally` specification.
- `Search` (`binary_search.dfy`): class `BinarySearch`. It holds an immutable list and has a `while`-loop `IndexOf`.

Each test's expected value is stated as a lemma, or as a method for the search tests, and proved from the model.

## Model

| member | source | states |
|---|---|---|
| Reverser.Reversed | src/test/java/com/revature/eval/EvaluationServiceTest.java:39-56 | the result has the input's length, and position i holds the input's character at position length-1-i |
| Reverser.Reverse | src/test/java/com/revature/eval/EvaluationServiceTest.java:29-57 | absent input gives absent output and present gives present; `""` gives `""`; a present string comes back with the same length, character i taken from position length-1-i |
| Reverser.ReverseInvolution | src/test/java/com/revature/eval/EvaluationServiceTest.java:39-56 | reversing twice gives back the original, absent or present |
| Reverser.ReversedKeepsCharacters | src/test/java/com/revature/eval/EvaluationServiceTest.java:44-51 | reversal keeps every character with its multiplicity, so case and punctuation survive |
| Reverser.PalindromeIsFixedPoint | src/test/java/com/revature/eval/EvaluationServiceTest.java:54-56 | a string is its own reversal if and only if it is a palindrome |
| Reverser.ReverseAbsentAndEmpty | src/test/java/com/revature/eval/EvaluationServiceTest.java:29-37 | `reverse(null)` is null and `reverse("")` is `""`, kept distinct |
| Reverser.ReverseWords | src/test/java/com/revature/eval/EvaluationServiceTest.java:39-47 | "robot" gives "tobor" and "Ramen" gives "nemaR" |
| Reverser.ReverseSentence | src/test/java/com/revature/eval/EvaluationServiceTest.java:49-52 | "I'm hungry!" gives "!yrgnuh m'I" |
| Reverser.ReversePalindrome | src/test/java/com/revature/eval/EvaluationServiceTest.java:54-57 | "racecar" gives "racecar" |
| Ascii.ToUpper | src/test/java/com/revature/eval/EvaluationServiceTest.java:90-95 | a letter becomes upper case, lower-case letters move down by 32 code points, and every other character stays as it is |
| Ascii.ToLower | src/test/java/com/revature/eval/EvaluationServiceTest.java:120-123 | a letter becomes lower case, upper-case letters move up by 32 code points, and every other character stays as it is |
| Ascii.CaseFold | src/test/java/com/revature/eval/EvaluationServiceTest.java:120-123 | both case forms of a character upper-case to the same character, and upper-casing is idempotent |
| Ascii.UpperCased | src/test/java/com/revature/eval/EvaluationServiceTest.java:120-123 | same length; every character upper-cased |
| Ascii.LowerCased | src/test/java/com/revature/eval/EvaluationServiceTest.java:120-123 | same length; every character lower-cased |
| Tokenize.RunLength | src/test/java/com/revature/eval/EvaluationServiceTest.java:161-170 | the length of the longest separator-free prefix: no separator before it, and a separator at it unless the text ends there |
| Tokenize.Split | src/test/java/com/revature/eval/EvaluationServiceTest.java:161-181 | every token is non-empty and holds no separator |
| Tokenize.SplitAtSeparator | src/test/java/com/revature/eval/EvaluationServiceTest.java:161-181 | a separator cuts the text in two: the tokens of the left part followed by those of the right part |
| Tokenize.ExtraSeparatorIgnored | src/test/java/com/revature/eval/EvaluationServiceTest.java:172-181 | two separators in a row give the same tokens as one |
| Tokenize.SeparatorsInterchangeable | src/test/java/com/revature/eval/EvaluationServiceTest.java:90-95 | any separator may replace any other without changing the tokens |
| Tokenize.SingleToken | src/test/java/com/revature/eval/EvaluationServiceTest.java:128-135 | a non-empty, separator-free text is exactly one token |
| Tokenize.RunLengthStopsAtSeparator | src/test/java/com/revature/eval/EvaluationServiceTest.java:161-170 | what follows a separator does not change the run length of the part before it |
| Tokenize.LeadingSeparatorsSkipped | src/test/java/com/revature/eval/EvaluationServiceTest.java:172-181 | separators in front of a text produce no token |
| Tokenize.SplitAtSeparatorRun | src/test/java/com/revature/eval/EvaluationServiceTest.java:172-181 | a non-empty run of separators cuts the text just as one separator does |
| Tokenize.SplitJoin | src/test/java/com/revature/eval/EvaluationServiceTest.java:137-181 | round trip: non-empty, separator-free tokens joined by a non-empty run of separators split back into exactly those tokens |
| Acronyms.FirstLetter | src/test/java/com/revature/eval/EvaluationServiceTest.java:83-88 | a letter of the word, with no letter before it |
| Acronyms.Initial | src/test/java/com/revature/eval/EvaluationServiceTest.java:69-95 | at most one character, upper case, and empty exactly when the word has no letter |
| Acronyms.Initials | src/test/java/com/revature/eval/EvaluationServiceTest.java:69-95 | at most one character per word, all upper case |
| Acronyms.Acronym | src/test/java/com/revature/eval/EvaluationServiceTest.java:63-95 | absent if and only if the phrase is absent; every character of a present result is upper case |
| Acronyms.ScanWord | src/test/java/com/revature/eval/EvaluationServiceTest.java:69-95 | scanning one word gives that word's initial (when one is sought), and a new word starts after it |
| Acronyms.ScanMatchesWords | src/test/java/com/revature/eval/EvaluationServiceTest.java:69-95 | the one-pass scan equals the initials of the words obtained by splitting at whitespace and hyphens |
| Acronyms.AcronymOfWords | src/test/java/com/revature/eval/EvaluationServiceTest.java:69-95 | the acronym of a phrase is the concatenated initials of its words |
| Acronyms.InitialsAppend | src/test/java/com/revature/eval/EvaluationServiceTest.java:69-95 | initials of two word lists laid end to end are the two results laid end to end |
| Acronyms.OneInitialPerWord | src/test/java/com/revature/eval/EvaluationServiceTest.java:83-88 | when every word has a letter there is exactly one initial per word, namely its first letter upper-cased, so "GNU" gives "G" and not "GNU" |
| Acronyms.ScanWithoutLetters | src/test/java/com/revature/eval/EvaluationServiceTest.java:76-81 | a stretch without letters contributes nothing |
| Acronyms.NoLettersNoInitials | src/test/java/com/revature/eval/EvaluationServiceTest.java:63-81 | a present phrase without letters gives the empty acronym, not an absent one |
| Acronyms.WordOrder | src/test/java/com/revature/eval/EvaluationServiceTest.java:69-74 | the acronym of "a b" is the acronym of a followed by that of b |
| Acronyms.HyphenActsAsSpace | src/test/java/com/revature/eval/EvaluationServiceTest.java:90-95 | a hyphen separates words exactly as a space does, so "metal-oxide" gives "MO" |
| Acronyms.PunctuationIgnored | src/test/java/com/revature/eval/EvaluationServiceTest.java:76-81 | a character that is neither a letter nor a separator never changes the scan |
| Acronyms.CommaIgnored | src/test/java/com/revature/eval/EvaluationServiceTest.java:76-81 | a comma adds no letter and does not split a word |
| Acronyms.SingleWord | src/test/java/com/revature/eval/EvaluationServiceTest.java:69-95 | a word that starts with a letter gives that letter upper-cased |
| Acronyms.LeadingWord | src/test/java/com/revature/eval/EvaluationServiceTest.java:69-95 | a word followed by any separator contributes its initial ahead of the rest of the phrase |
| Acronyms.ThreeWords | src/test/java/com/revature/eval/EvaluationServiceTest.java:69-74 | three space-separated words give their three first letters upper-cased |
| Acronyms.FourWords | src/test/java/com/revature/eval/EvaluationServiceTest.java:76-95 | four words separated by any separators give their four first letters upper-cased |
| Acronyms.AcronymAbsent | src/test/java/com/revature/eval/EvaluationServiceTest.java:63-67 | `acronym(null)` is null |
| Acronyms.AcronymBasic | src/test/java/com/revature/eval/EvaluationServiceTest.java:69-74 | "Portable Network Graphics" gives "PNG" |
| Acronyms.AcronymPunctuation | src/test/java/com/revature/eval/EvaluationServiceTest.java:76-81 | "First In, First Out" gives "FIFO" |
| Acronyms.AcronymAllCapsWord | src/test/java/com/revature/eval/EvaluationServiceTest.java:83-88 | "GNU Image Manipulation Program" gives "GIMP" |
| Acronyms.AcronymHyphen | src/test/java/com/revature/eval/EvaluationServiceTest.java:90-95 | "Complementary metal-oxide semiconductor" gives "CMOS" |
| Scrabble.LetterValue | src/test/java/com/revature/eval/EvaluationServiceTest.java:100-123 | a letter is worth between 1 and 10 points; any other character is worth 0 |
| Scrabble.Score | src/test/java/com/revature/eval/EvaluationServiceTest.java:100-123 | at most 10 points per character, and at least 1 per character when the word is all letters |
| Scrabble.ScoreAppend | src/test/java/com/revature/eval/EvaluationServiceTest.java:120-123 | the score of two pieces laid end to end is the sum of their scores |
| Scrabble.ScoreIgnoresCase | src/test/java/com/revature/eval/EvaluationServiceTest.java:120-123 | a word scores the same upper-cased and lower-cased as it does as written |
| Scrabble.ScoreValuableLetter | src/test/java/com/revature/eval/EvaluationServiceTest.java:100-103 | "f" scores 4 |
| Scrabble.ScoreShortWord | src/test/java/com/revature/eval/EvaluationServiceTest.java:105-108 | "zoo" scores 12 |
| Scrabble.ScoreMediumWord | src/test/java/com/revature/eval/EvaluationServiceTest.java:110-113 | "street" scores 6 |
| Scrabble.ScoreValuableWord | src/test/java/com/revature/eval/EvaluationServiceTest.java:115-118 | "quirky" scores 22 |
| Scrabble.ScoreMixedCase | src/test/java/com/revature/eval/EvaluationServiceTest.java:120-123 | "OxyphenButazone" scores 41 |
| Scrabble.ScoreMixedCaseHalves | src/test/java/com/revature/eval/EvaluationServiceTest.java:120-123 | "Oxyphen" then "Butazone" score 22 + 19 |
| WordCounter.Words | src/test/java/com/revature/eval/EvaluationServiceTest.java:128-181 | every token is non-empty and holds no whitespace or comma |
| WordCounter.Tally | src/test/java/com/revature/eval/EvaluationServiceTest.java:128-159 | the keys are exactly the distinct tokens, and each value is that token's number of occurrences, at least 1 |
| WordCounter.TallyAppend | src/test/java/com/revature/eval/EvaluationServiceTest.java:148-159 | one more occurrence adds one to its entry, or creates the entry at 1 |
| WordCounter.WordCount | src/test/java/com/revature/eval/EvaluationServiceTest.java:128-181 | a word is a key if and only if it is a token of the text; each value is that token's number of occurrences; the map equals the `Tally` of the tokens |
| WordCounter.TallyKeysAreTokens | src/test/java/com/revature/eval/EvaluationServiceTest.java:161-181 | no key is empty or holds a separator |
| WordCounter.CommaNewlineLikeComma | src/test/java/com/revature/eval/EvaluationServiceTest.java:161-181 | a comma followed by a line break gives the same counts as a comma alone |
| WordCounter.SeparatorsInterchangeable | src/test/java/com/revature/eval/EvaluationServiceTest.java:137-181 | any whitespace or comma character may replace any other without changing the counts |
| WordCounter.WordsOfJoin | src/test/java/com/revature/eval/EvaluationServiceTest.java:137-181 | tokens joined by separators tokenize back to exactly those tokens |
| WordCounter.TallyOfDistinctWords | src/test/java/com/revature/eval/EvaluationServiceTest.java:137-146 | three distinct tokens are each counted once |
| WordCounter.CountOneWord | src/test/java/com/revature/eval/EvaluationServiceTest.java:128-135 | "word" gives {word: 1} |
| WordCounter.CountOneOfEachWord | src/test/java/com/revature/eval/EvaluationServiceTest.java:137-146 | "one of each" gives {one: 1, of: 1, each: 1} |
| WordCounter.CountMultipleOccurrences | src/test/java/com/revature/eval/EvaluationServiceTest.java:148-159 | "one fish two fish red fish blue fish" gives fish 4 and every other word 1 |
| WordCounter.CountCrampedList | src/test/java/com/revature/eval/EvaluationServiceTest.java:161-170 | "one,two,three" gives {one: 1, two: 1, three: 1} |
| WordCounter.CountExpandedList | src/test/java/com/revature/eval/EvaluationServiceTest.java:172-181 | "one,\ntwo,\nthree" gives {one: 1, two: 1, three: 1} |
| Search.BinarySearch.constructor | src/test/java/com/revature/eval/EvaluationServiceTest.java:198-200 | the search keeps the list it was given, unchanged |
| Search.BinarySearch.IndexOf | src/test/java/com/revature/eval/EvaluationServiceTest.java:196-232 | on a sorted list, the result is either the not-found value or an in-bounds index holding the target; it is not-found if and only if the target is absent; the loop terminates |
| Search.StrictlyAscendingUnique | src/test/java/com/revature/eval/EvaluationServiceTest.java:196-232 | a list checked pair by pair to ascend strictly is sorted, and its elements are pairwise distinct |
| Search.SameValueSameIndex | src/test/java/com/revature/eval/EvaluationServiceTest.java:196-232 | in a strictly ascending list each value sits at one index only, so the index found is the expected one |
| Search.FindsFirstAndLast | src/test/java/com/revature/eval/EvaluationServiceTest.java:196-212 | in [1, 3, 4, 6, 8, 9, 11], 1 is found at 0 and 11 at 6 |
| Search.FindsInOddLength | src/test/java/com/revature/eval/EvaluationServiceTest.java:214-222 | in the 13-element list, 144 is found at 9 |
| Search.FindsInEvenLength | src/test/java/com/revature/eval/EvaluationServiceTest.java:224-232 | in the 12-element list, 21 is found at 5 |

## Left out

- `EvaluationService` itself is not part of this model. Every operation is reconstructed from the assertions of its test suite.
- The JUnit harness, the unused `ExpectedException` rule (lines 22-23) and the `Collections.unmodifiableList` wrappers. The class keeps its list in an immutable `const` field instead.
- `BinarySearch<T>` over any `Comparable` type: the model searches integers under their usual order. Java generics and `compareTo` dispatch are not modelled.
- The string-list search test (lines 187-194). Under `String` order the list `"1", "3", "4", "6", "8", "9", "11"` is not sorted, because "11" comes before "3". It passes only because "6" is the first midpoint probed. `IndexOf` requires a sorted list, so that case is outside its contract.
- Search.BinarySearch.IndexOf: does not model 32-bit overflow of `(low + high) / 2`. Integers are unbounded here, and the lists in the tests are far too short for it to matter.
- Search.BinarySearch.IndexOf: the not-found result is the sentinel -1. No test fixes what `indexOf` returns for a missing value.
- Scrabble.LetterValue: a character that is not a letter scores 0. No test fixes this.
- Acronyms.Acronym: whitespace and hyphens separate words. Any other non-letter, such as a comma or an apostrophe, is skipped without ending the word. A word without any letter contributes nothing. Only the comma and the hyphen are fixed by a test.
- WordCounter.Words: the separators are the six Java `\s` whitespace characters and the comma. Tokens are compared exactly, case included. Other punctuation is kept inside tokens, because no test covers it.
- Ascii.ToUpper: case mapping covers the ASCII letters only. Locale-sensitive and other Unicode case mappings are not modelled.
- The order of entries in the returned `HashMap` has no meaning and is not modelled: the result is a Dafny `map`.
