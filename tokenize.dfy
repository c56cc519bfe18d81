/**
 * Splitting text into tokens: the maximal runs of characters outside a set of
 * separators. A run of separators, however long, is one boundary, and no
 * token is ever empty.
 */
module Tokenize {

  /** Length of the longest prefix of s that holds no separator. */
  function RunLength(s: string, seps: set<char>): (n: nat)
    ensures n <= |s|
    ensures forall i :: 0 <= i < n ==> s[i] !in seps
    ensures n < |s| ==> s[n] in seps
  {
    if s == [] || s[0] in seps then 0 else 1 + RunLength(s[1..], seps)
  }

  predicate NoSeparator(w: string, seps: set<char>)
  {
    forall i :: 0 <= i < |w| ==> w[i] !in seps
  }

  /** The tokens of s, in order. */
  function Split(s: string, seps: set<char>): (ws: seq<string>)
    ensures forall k :: 0 <= k < |ws| ==> ws[k] != [] && NoSeparator(ws[k], seps)
    decreases |s|
  {
    if s == [] then []
    else if s[0] in seps then Split(s[1..], seps)
    else
      var n := RunLength(s, seps);
      [s[..n]] + Split(s[n..], seps)
  }

  /** The run length of a prefix is unaffected by what follows a separator. */
  lemma {:induction false} RunLengthStopsAtSeparator(a: string, t: string, seps: set<char>)
    requires t != [] && t[0] in seps
    ensures RunLength(a + t, seps) == RunLength(a, seps)
  {
    if a != [] && a[0] !in seps {
      assert (a + t)[1..] == a[1..] + t;
      RunLengthStopsAtSeparator(a[1..], t, seps);
    } else if a == [] {
      assert a + t == t;
    }
  }

  /** A separator splits the text in two: the tokens of both halves, in order. */
  lemma {:induction false} SplitAtSeparator(a: string, c: char, b: string, seps: set<char>)
    requires c in seps
    ensures Split(a + [c] + b, seps) == Split(a, seps) + Split(b, seps)
    decreases |a|
  {
    var s := a + [c] + b;
    if a == [] {
      assert s == [c] + b;
      assert s[1..] == b;
    } else if a[0] in seps {
      assert s[1..] == a[1..] + [c] + b;
      SplitAtSeparator(a[1..], c, b, seps);
    } else {
      RunLengthStopsAtSeparator(a, [c] + b, seps);
      assert s == a + ([c] + b);
      var n := RunLength(a, seps);
      assert s[..n] == a[..n];
      assert s[n..] == a[n..] + [c] + b;
      SplitAtSeparator(a[n..], c, b, seps);
    }
  }

  /** Doubling a separator (a comma followed by a newline, say) changes no token. */
  lemma ExtraSeparatorIgnored(a: string, c: char, d: char, b: string, seps: set<char>)
    requires c in seps && d in seps
    ensures Split(a + [c, d] + b, seps) == Split(a + [c] + b, seps)
  {
    SplitAtSeparator(a, c, [d] + b, seps);
    assert a + [c, d] + b == a + [c] + ([d] + b);
    SplitAtSeparator([], d, b, seps);
    assert [] + [d] + b == [d] + b;
    assert Split([], seps) == [];
    SplitAtSeparator(a, c, b, seps);
  }

  /** Any separator can stand for any other. */
  lemma SeparatorsInterchangeable(a: string, c: char, d: char, b: string, seps: set<char>)
    requires c in seps && d in seps
    ensures Split(a + [c] + b, seps) == Split(a + [d] + b, seps)
  {
    SplitAtSeparator(a, c, b, seps);
    SplitAtSeparator(a, d, b, seps);
  }

  /** A non-empty text free of separators is one token. */
  lemma {:induction false} SingleToken(w: string, seps: set<char>)
    requires w != [] && NoSeparator(w, seps)
    ensures Split(w, seps) == [w]
  {
    assert w[..|w|] == w;
    assert w[|w|..] == [];
  }

  /** The tokens joined into one text, with sep between consecutive tokens. */
  function Join(ws: seq<string>, sep: string): string
  {
    if ws == [] then []
    else if |ws| == 1 then ws[0]
    else ws[0] + sep + Join(ws[1..], sep)
  }

  predicate AllSeparators(sep: string, seps: set<char>)
  {
    forall i :: 0 <= i < |sep| ==> sep[i] in seps
  }

  /** Separators in front of a text produce no token. */
  lemma {:induction false} LeadingSeparatorsSkipped(sep: string, b: string, seps: set<char>)
    requires AllSeparators(sep, seps)
    ensures Split(sep + b, seps) == Split(b, seps)
  {
    if sep != [] {
      assert (sep + b)[1..] == sep[1..] + b;
      LeadingSeparatorsSkipped(sep[1..], b, seps);
    } else {
      assert sep + b == b;
    }
  }

  /** A non-empty run of separators splits the text in two, just as a single separator does. */
  lemma SplitAtSeparatorRun(a: string, sep: string, b: string, seps: set<char>)
    requires sep != [] && AllSeparators(sep, seps)
    ensures Split(a + sep + b, seps) == Split(a, seps) + Split(b, seps)
  {
    assert a + sep + b == a + [sep[0]] + (sep[1..] + b);
    SplitAtSeparator(a, sep[0], sep[1..] + b, seps);
    LeadingSeparatorsSkipped(sep[1..], b, seps);
  }

  /** Round trip: splitting tokens joined by separators gives back exactly those tokens. */
  lemma {:induction false} SplitJoin(ws: seq<string>, sep: string, seps: set<char>)
    requires sep != [] && AllSeparators(sep, seps)
    requires forall k :: 0 <= k < |ws| ==> ws[k] != [] && NoSeparator(ws[k], seps)
    ensures Split(Join(ws, sep), seps) == ws
  {
    if |ws| == 1 {
      SingleToken(ws[0], seps);
    } else if |ws| > 1 {
      SplitAtSeparatorRun(ws[0], sep, Join(ws[1..], sep), seps);
      SingleToken(ws[0], seps);
      SplitJoin(ws[1..], sep, seps);
      assert ws == [ws[0]] + ws[1..];
    }
  }
}
