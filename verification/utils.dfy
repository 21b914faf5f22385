/**
 * `basic_clean` (src/utils.py): the normaliser that builds every model input
 * in training, evaluation and command-line inference. It lower-cases, turns
 * every character outside `[\w\sàèéìòóù]` into a space, collapses each
 * whitespace run to one space and strips both ends.
 */
module Utils {
  import opened TextPrimitives

  /** Length of the whitespace run at the start of `s`. */
  function LeadingSpace(u: Tables, s: string): (n: nat)
    ensures n <= |s|
    ensures forall i :: 0 <= i < n ==> u.isSpace(s[i])
    ensures n < |s| ==> !u.isSpace(s[n])
  {
    if s == [] || !u.isSpace(s[0]) then 0 else 1 + LeadingSpace(u, s[1..])
  }

  /** Where the whitespace run at the end of `s` begins. */
  function TrailingSpaceStart(u: Tables, s: string): (m: nat)
    ensures m <= |s|
    ensures forall i :: m <= i < |s| ==> u.isSpace(s[i])
    ensures m > 0 ==> !u.isSpace(s[m - 1])
  {
    if s == [] || !u.isSpace(s[|s| - 1]) then |s| else TrailingSpaceStart(u, s[..|s| - 1])
  }

  /**
   * `re.sub(r"\s+", " ", s)`: every maximal run of whitespace becomes one
   * `' '`; every other character is kept.
   */
  function CollapseWhitespace(u: Tables, s: string): (r: string)
    ensures r == [] <==> s == []
    ensures |r| <= |s|
    ensures r != [] ==> r[0] == if u.isSpace(s[0]) then ' ' else s[0]
    ensures OnlyBlanks(u, r) && NoDoubleBlank(r)
    decreases |s|
  {
    if s == [] then []
    else if u.isSpace(s[0]) then [' '] + CollapseWhitespace(u, s[LeadingSpace(u, s)..])
    else [s[0]] + CollapseWhitespace(u, s[1..])
  }

  /** `r` is `s` with some whitespace removed at its two ends and nothing else changed. */
  ghost predicate TrimmedFrom(u: Tables, r: string, s: string) {
    exists i, j :: 0 <= i <= j <= |s| && r == s[i..j] &&
      (forall k :: (0 <= k < i || j <= k < |s|) ==> u.isSpace(s[k]))
  }

  /** `s.strip()`: whitespace removed from both ends. */
  function Strip(u: Tables, s: string): (r: string)
    ensures |r| <= |s|
    ensures r != [] ==> !u.isSpace(r[0]) && !u.isSpace(r[|r| - 1])
  {
    var n := LeadingSpace(u, s);
    var t := s[n..];
    t[..TrailingSpaceStart(u, t)]
  }

  /**
   * The normaliser, step by step as in the source. The result is never
   * longer than the input and has no whitespace at either end.
   */
  function BasicClean(u: Tables, s: string): (r: string)
    ensures |r| <= |s|
    ensures r != [] ==> !u.isSpace(r[0]) && !u.isSpace(r[|r| - 1])
  {
    Strip(u, CollapseWhitespace(u, ReplaceDisallowed(u, Lower(u, s))))
  }

  // ---------------------------------------------------------------------------
  // The whitespace steps

  /** Collapsing whitespace leaves the words of a string as they were. */
  lemma {:induction false} CollapseKeepsWords(u: Tables, s: string)
    ensures Split(u, CollapseWhitespace(u, s)) == Split(u, s)
    decreases |s|
  {
    if s != [] {
      if u.isSpace(s[0]) {
        var n := LeadingSpace(u, s);
        var rest := CollapseWhitespace(u, s[n..]);
        assert CollapseWhitespace(u, s) == [' '] + rest;
        assert Runs(u, Whitespace, [' '] + rest) == Runs(u, Whitespace, rest) by {
          assert ([' '] + rest)[1..] == rest;
        }
        CollapseKeepsWords(u, s[n..]);
        RunsSkip(u, Whitespace, s, n);
      } else {
        var rest := CollapseWhitespace(u, s[1..]);
        assert CollapseWhitespace(u, s) == [s[0]] + rest;
        CollapseKeepsWords(u, s[1..]);
        RunsCons(u, Whitespace, s[0], rest);
        assert [s[0]] + s[1..] == s;
        RunsCons(u, Whitespace, s[0], s[1..]);
      }
    }
  }

  /**
   * Collapsing keeps the last character, or turns it into one space when it
   * is whitespace, just as it does with the first.
   */
  lemma {:induction false} CollapseLast(u: Tables, s: string)
    ensures var r := CollapseWhitespace(u, s);
      r != [] ==> r[|r| - 1] == if u.isSpace(s[|s| - 1]) then ' ' else s[|s| - 1]
    decreases |s|
  {
    if s != [] {
      if u.isSpace(s[0]) {
        var n := LeadingSpace(u, s);
        CollapseLast(u, s[n..]);
        if n < |s| {
          assert s[n..][|s[n..]| - 1] == s[|s| - 1];
        }
      } else {
        CollapseLast(u, s[1..]);
        if |s| > 1 {
          assert s[1..][|s[1..]| - 1] == s[|s| - 1];
        }
      }
    }
  }

  /** Stripping only removes whitespace from the two ends: the result is a slice of `s` with whitespace around it. */
  lemma StripTrims(u: Tables, s: string)
    ensures TrimmedFrom(u, Strip(u, s), s)
  {
    var n := LeadingSpace(u, s);
    var t := s[n..];
    var m := TrailingSpaceStart(u, t);
    assert t[..m] == s[n..n + m];
    assert forall k :: n + m <= k < |s| ==> s[k] == t[k - n];
  }

  /** Stripping leaves the words of a string as they were. */
  lemma {:induction false} StripKeepsWords(u: Tables, s: string)
    ensures Split(u, Strip(u, s)) == Split(u, s)
  {
    var n := LeadingSpace(u, s);
    var t := s[n..];
    var m := TrailingSpaceStart(u, t);
    RunsSkip(u, Whitespace, s, n);
    RunsDropSuffix(u, Whitespace, t, m);
  }

  /** Stripping a string whose only whitespace is single spaces puts it in normal form. */
  lemma StripCanonical(u: Tables, s: string)
    requires OnlyBlanks(u, s) && NoDoubleBlank(s)
    ensures Canonical(u, Strip(u, s))
  {
    var n := LeadingSpace(u, s);
    var t := s[n..];
    var r := t[..TrailingSpaceStart(u, t)];
    assert forall i :: 0 <= i < |r| ==> r[i] == s[n + i];
  }

  /**
   * The two whitespace normalisations in the repository agree on every string:
   * `re.sub(r"\s+", " ", s).strip() == " ".join(s.split())`.
   */
  lemma WhitespaceNormalForms(u: Tables, s: string)
    ensures Strip(u, CollapseWhitespace(u, s)) == Join(Split(u, s))
  {
    var c := CollapseWhitespace(u, s);
    var r := Strip(u, c);
    StripCanonical(u, c);
    StripKeepsWords(u, c);
    CollapseKeepsWords(u, s);
    CanonicalJoin(u, r);
  }

  // ---------------------------------------------------------------------------
  // What basic_clean computes

  /**
   * The result is the maximal runs of kept characters (word characters and
   * the listed accented vowels) of the lower-cased input, joined by single
   * spaces: "Check-in!" becomes "check in".
   */
  lemma BasicCleanTokens(u: Tables, s: string)
    ensures BasicClean(u, s) == Join(Runs(u, Disallowed, Lower(u, s)))
  {
    var l := Lower(u, s);
    var x := ReplaceDisallowed(u, l);
    WhitespaceNormalForms(u, x);
    RunsTransfer(u, Whitespace, x, Disallowed, l);
  }

  /**
   * The result has no whitespace at either end, `' '` is its only whitespace
   * character, and it never holds two spaces in a row.
   */
  lemma BasicCleanCanonical(u: Tables, s: string)
    ensures Canonical(u, BasicClean(u, s))
  {
    StripCanonical(u, CollapseWhitespace(u, ReplaceDisallowed(u, Lower(u, s))));
  }

  /**
   * Every character of the result is a space or a character of the
   * lower-cased input that is a word character or a listed accented vowel.
   */
  lemma BasicCleanCharacters(u: Tables, s: string)
    ensures var r := BasicClean(u, s);
      forall i :: 0 <= i < |r| ==>
        r[i] == ' ' || (r[i] in Lower(u, s) && !u.isSpace(r[i]) && (u.isWord(r[i]) || r[i] in Accented))
  {
    var ws := Runs(u, Disallowed, Lower(u, s));
    BasicCleanTokens(u, s);
    RunsFrom(u, Disallowed, Lower(u, s));
    JoinChars(u, Disallowed, ws, Lower(u, s));
  }

  /**
   * The result is empty exactly when every character of the lower-cased
   * input is whitespace or outside the kept class: "", "   ", "!?  ,".
   */
  lemma BasicCleanEmpty(u: Tables, s: string)
    ensures BasicClean(u, s) == "" <==>
      forall i :: 0 <= i < |s| ==> u.isSpace(u.lower(s[i])) || !Allowed(u, u.lower(s[i]))
  {
    var ws := Runs(u, Disallowed, Lower(u, s));
    BasicCleanTokens(u, s);
    assert forall k :: 0 <= k < |ws| ==> IsToken(u, Whitespace, ws[k]);
    JoinCanonical(u, ws);
    RunsEmpty(u, Disallowed, Lower(u, s));
  }

  /** Cleaning cleaned text changes nothing. */
  lemma BasicCleanIdempotent(u: Tables, s: string)
    ensures BasicClean(u, BasicClean(u, s)) == BasicClean(u, s)
  {
    var l := Lower(u, s);
    var ws := Runs(u, Disallowed, l);
    var r := BasicClean(u, s);
    BasicCleanTokens(u, s);
    LowerIsFixed(u, s);
    RunsFrom(u, Disallowed, l);
    JoinChars(u, Disallowed, ws, l);
    assert LowerFixed(u, r) by {
      forall i | 0 <= i < |r| ensures u.lower(r[i]) == r[i] {
        if r[i] != ' ' {
          var j :| 0 <= j < |l| && l[j] == r[i];
        }
      }
    }
    LowerOfFixed(u, r);
    BasicCleanTokens(u, r);
    RunsJoin(u, Disallowed, ws);
  }

  // ---------------------------------------------------------------------------
  // Examples, with Python's tables restricted to ASCII

  /** Some ASCII punctuation, none of it in the kept class. */
  const Punctuation: set<char> := {'!', '?', ',', '.', ';', ':', '-', '(', ')', '\'', '"'}

  /** Lower-case ASCII letters and digits. */
  ghost predicate LowerAsciiWord(w: string) {
    forall i :: 0 <= i < |w| ==> 'a' <= w[i] <= 'z' || '0' <= w[i] <= '9'
  }

  /** What the ASCII tables say about punctuation and spaces. */
  lemma PunctuationFacts(s: string)
    requires forall i :: 0 <= i < |s| ==> s[i] in Punctuation || s[i] == ' '
    ensures forall i :: 0 <= i < |s| ==> AsciiTables.lower(s[i]) == s[i] && !InToken(AsciiTables, Disallowed, s[i])
  {
  }

  /** What the ASCII tables say about lower-case letters and digits. */
  lemma LowerAsciiWordFacts(w: string)
    requires LowerAsciiWord(w)
    ensures forall i :: 0 <= i < |w| ==> AsciiTables.lower(w[i]) == w[i] && InToken(AsciiTables, Disallowed, w[i])
  {
  }

  /** Punctuation and spaces alone, such as "!?  ,", clean to "". */
  lemma PunctuationOnly(s: string)
    requires forall i :: 0 <= i < |s| ==> s[i] in Punctuation || s[i] == ' '
    ensures BasicClean(AsciiTables, s) == ""
  {
    PunctuationFacts(s);
    BasicCleanEmpty(AsciiTables, s);
  }

  /** One separator between two lower-case words becomes the single space between them. */
  lemma SeparatorBecomesSpace(u: Tables, a: string, p: char, b: string)
    requires IsToken(u, Disallowed, a) && IsToken(u, Disallowed, b) && !InToken(u, Disallowed, p)
    requires LowerFixed(u, a) && LowerFixed(u, b) && u.lower(p) == p
    ensures BasicClean(u, a + [p] + b) == a + " " + b
  {
    var s := a + [p] + b;
    assert LowerFixed(u, s) by {
      forall i | 0 <= i < |s| ensures u.lower(s[i]) == s[i] {
        if i < |a| { assert s[i] == a[i]; } else if i == |a| { assert s[i] == p; } else { assert s[i] == b[i - |a| - 1]; }
      }
    }
    LowerOfFixed(u, s);
    BasicCleanTokens(u, s);
    RunsSeparated(u, Disallowed, a, p, b);
    RunsJoin(u, Disallowed, [a]);
    RunsJoin(u, Disallowed, [b]);
    assert Join([a, b]) == a + " " + b;
  }

  /** Punctuation between two ASCII words becomes the space between them, as in "check-in". */
  lemma PunctuationSeparates(a: string, p: char, b: string)
    requires a != [] && b != [] && LowerAsciiWord(a) && LowerAsciiWord(b)
    requires p in Punctuation
    ensures BasicClean(AsciiTables, a + [p] + b) == a + " " + b
  {
    LowerAsciiWordFacts(a);
    LowerAsciiWordFacts(b);
    PunctuationFacts([p]);
    SeparatorBecomesSpace(AsciiTables, a, p, b);
  }
}
