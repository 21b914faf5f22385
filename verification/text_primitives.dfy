/**
 * The string primitives both text cleaners are built from: lower-casing,
 * the punctuation pass (every character outside `[\w\sàèéìòóù]` becomes a
 * space), the tokens a string splits into, and `" ".join(...)`.
 *
 * Python's Unicode tables (`str.lower`, regex `\w`, and regex `\s`, which is
 * the same predicate as `str.isspace` and as the separator of `str.split()`)
 * are not written out: they are the fields of `UnicodeTables`, and every
 * result holds for any tables that satisfy `Consistent`.
 */
module TextPrimitives {

  /** Per-character case mapping, word-character test and whitespace test. */
  datatype UnicodeTables = UnicodeTables(lower: char -> char, isWord: char -> bool, isSpace: char -> bool)

  /** The facts about Python's tables that the proofs use, and no more. */
  ghost predicate Consistent(u: UnicodeTables) {
    && u.isSpace(' ')
    && u.lower(' ') == ' '
    && forall c :: u.lower(u.lower(c)) == u.lower(c)
  }

  /** Python's tables restricted to ASCII; one instance of `Consistent`. */
  const AsciiTables: UnicodeTables := UnicodeTables(
    c => if 'A' <= c <= 'Z' then (c as int + 32) as char else c,
    c => 'a' <= c <= 'z' || 'A' <= c <= 'Z' || '0' <= c <= '9' || c == '_',
    c => c == ' ' || '\U{9}' <= c <= '\U{D}' || '\U{1C}' <= c <= '\U{1F}')

  type Tables = u: UnicodeTables | Consistent(u) witness AsciiTables

  /** The accented vowels the character class lists besides `\w` and `\s`. */
  const Accented: set<char> := {'à', 'è', 'é', 'ì', 'ò', 'ó', 'ù'}

  /** Membership in the character class `[\w\sàèéìòóù]`. */
  predicate Allowed(u: Tables, c: char) {
    u.isWord(c) || u.isSpace(c) || c in Accented
  }

  /** What separates tokens: whitespace only (`str.split()`), or also every character outside the class. */
  datatype Delimiters = Whitespace | Disallowed

  predicate InToken(u: Tables, d: Delimiters, c: char) {
    match d
    case Whitespace => !u.isSpace(c)
    case Disallowed => Allowed(u, c) && !u.isSpace(c)
  }

  /** A non-empty string of token characters. */
  ghost predicate IsToken(u: Tables, d: Delimiters, w: string) {
    w != [] && forall i :: 0 <= i < |w| ==> InToken(u, d, w[i])
  }

  /** `s.lower()`, one character at a time. */
  function Lower(u: Tables, s: string): (r: string)
    ensures |r| == |s|
    ensures forall i :: 0 <= i < |s| ==> r[i] == u.lower(s[i])
  {
    if s == [] then [] else [u.lower(s[0])] + Lower(u, s[1..])
  }

  /** `re.sub(r"[^\w\sàèéìòóù]", " ", s)`: each character outside the class becomes one space. */
  function ReplaceDisallowed(u: Tables, s: string): (r: string)
    ensures |r| == |s|
    ensures forall i :: 0 <= i < |s| ==> r[i] == if Allowed(u, s[i]) then s[i] else ' '
  {
    if s == [] then [] else [if Allowed(u, s[0]) then s[0] else ' '] + ReplaceDisallowed(u, s[1..])
  }

  /** Length of the longest prefix of `s` made of token characters. */
  function Span(u: Tables, d: Delimiters, s: string): (n: nat)
    ensures n <= |s|
    ensures forall i :: 0 <= i < n ==> InToken(u, d, s[i])
    ensures n < |s| ==> !InToken(u, d, s[n])
  {
    if s == [] || !InToken(u, d, s[0]) then 0 else 1 + Span(u, d, s[1..])
  }

  /** `Span` is the only length with its two properties. */
  lemma {:induction false} SpanIs(u: Tables, d: Delimiters, s: string, p: nat)
    requires p <= |s|
    requires forall i :: 0 <= i < p ==> InToken(u, d, s[i])
    requires p < |s| ==> !InToken(u, d, s[p])
    ensures Span(u, d, s) == p
    decreases p
  {
    if p > 0 {
      SpanIs(u, d, s[1..], p - 1);
    }
  }

  /** The maximal runs of token characters of `s`, in order. */
  function Runs(u: Tables, d: Delimiters, s: string): (ws: seq<string>)
    ensures forall k :: 0 <= k < |ws| ==> IsToken(u, d, ws[k])
    decreases |s|
  {
    if s == [] then []
    else if !InToken(u, d, s[0]) then Runs(u, d, s[1..])
    else var n := Span(u, d, s); [s[..n]] + Runs(u, d, s[n..])
  }

  /** `s.split()`: the whitespace-separated words of `s`. */
  function Split(u: Tables, s: string): (ws: seq<string>)
    ensures forall k :: 0 <= k < |ws| ==> IsToken(u, Whitespace, ws[k])
  {
    Runs(u, Whitespace, s)
  }

  /** The number of characters in all the words together. */
  function WordsLength(ws: seq<string>): nat {
    if ws == [] then 0 else |ws[0]| + WordsLength(ws[1..])
  }

  /** `" ".join(ws)`: the words with one separator between each two. */
  function Join(ws: seq<string>): (r: string)
    ensures |r| == if ws == [] then 0 else WordsLength(ws) + |ws| - 1
    ensures ws != [] ==> r[..|ws[0]|] == ws[0]
  {
    if ws == [] then "" else if |ws| == 1 then ws[0] else ws[0] + " " + Join(ws[1..])
  }

  /**
   * The normal form both cleaners produce: no whitespace at either end, `' '`
   * as the only whitespace character, and never two spaces in a row.
   */
  ghost predicate Canonical(u: Tables, s: string) {
    && (s != [] ==> !u.isSpace(s[0]) && !u.isSpace(s[|s| - 1]))
    && OnlyBlanks(u, s)
    && NoDoubleBlank(s)
  }

  /** `' '` is the only whitespace character of `s`. */
  ghost predicate OnlyBlanks(u: Tables, s: string) {
    forall i :: 0 <= i < |s| && u.isSpace(s[i]) ==> s[i] == ' '
  }

  /** No two neighbouring characters of `s` are both `' '`. */
  ghost predicate NoDoubleBlank(s: string) {
    forall i, j :: 0 <= i && j == i + 1 && j < |s| && s[i] == ' ' ==> s[j] != ' '
  }

  /** Every lower-cased character is its own lower case. */
  ghost predicate LowerFixed(u: Tables, s: string) {
    forall i :: 0 <= i < |s| ==> u.lower(s[i]) == s[i]
  }

  // ---------------------------------------------------------------------------
  // Lemmas about Runs

  /** Every character of every token is a character of the string. */
  lemma {:induction false} RunsFrom(u: Tables, d: Delimiters, s: string)
    ensures forall k, i :: 0 <= k < |Runs(u, d, s)| && 0 <= i < |Runs(u, d, s)[k]| ==> Runs(u, d, s)[k][i] in s
    decreases |s|
  {
    if s != [] {
      if !InToken(u, d, s[0]) {
        RunsFrom(u, d, s[1..]);
        assert forall c :: c in s[1..] ==> c in s;
      } else {
        var n := Span(u, d, s);
        RunsFrom(u, d, s[n..]);
        assert forall c :: c in s[n..] ==> c in s;
        assert forall c :: c in s[..n] ==> c in s;
      }
    }
  }

  /** Leading separators contribute no tokens. */
  lemma {:induction false} RunsSkip(u: Tables, d: Delimiters, s: string, k: nat)
    requires k <= |s|
    requires forall i :: 0 <= i < k ==> !InToken(u, d, s[i])
    ensures Runs(u, d, s) == Runs(u, d, s[k..])
  {
    if k > 0 {
      assert s[1..][k - 1..] == s[k..];
      RunsSkip(u, d, s[1..], k - 1);
    }
  }

  /** A token character in front either starts a new token or extends the first one. */
  lemma {:induction false} RunsCons(u: Tables, d: Delimiters, c: char, s: string)
    requires InToken(u, d, c)
    ensures Runs(u, d, [c] + s) ==
      if s != [] && InToken(u, d, s[0]) then [[c] + Runs(u, d, s)[0]] + Runs(u, d, s)[1..]
      else [[c]] + Runs(u, d, s)
  {
    var t := [c] + s;
    assert t[1..] == s;
    var m := Span(u, d, s);
    assert Span(u, d, t) == 1 + m;
    assert t[..1 + m] == [c] + s[..m];
    assert t[1 + m..] == s[m..];
    if s != [] && InToken(u, d, s[0]) {
      assert Runs(u, d, s) == [s[..m]] + Runs(u, d, s[m..]);
    } else {
      assert m == 0;
      assert s[..m] == [] && s[m..] == s;
    }
  }

  /** A separator between two strings splits their tokens apart. */
  lemma {:induction false} RunsSeparated(u: Tables, d: Delimiters, a: string, c: char, b: string)
    requires !InToken(u, d, c)
    ensures Runs(u, d, a + [c] + b) == Runs(u, d, a) + Runs(u, d, b)
    decreases |a|
  {
    var s := a + [c] + b;
    if a == [] {
      assert s[1..] == b;
    } else if !InToken(u, d, a[0]) {
      assert s[1..] == a[1..] + [c] + b;
      RunsSeparated(u, d, a[1..], c, b);
    } else {
      var n := Span(u, d, a);
      assert n < |a| ==> s[n] == a[n];
      assert n == |a| ==> s[n] == c;
      SpanIs(u, d, s, n);
      assert s[..n] == a[..n];
      assert s[n..] == a[n..] + [c] + b;
      RunsSeparated(u, d, a[n..], c, b);
    }
  }

  /** Trailing separators contribute no tokens. */
  lemma {:induction false} RunsDropSuffix(u: Tables, d: Delimiters, s: string, m: nat)
    requires m <= |s|
    requires forall i :: m <= i < |s| ==> !InToken(u, d, s[i])
    ensures Runs(u, d, s) == Runs(u, d, s[..m])
    decreases |s| - m
  {
    if m < |s| {
      var t := s[..|s| - 1];
      assert s == t + [s[|s| - 1]] + [];
      RunsSeparated(u, d, t, s[|s| - 1], []);
      assert t[..m] == s[..m];
      RunsDropSuffix(u, d, t, m);
    } else {
      assert s[..m] == s;
    }
  }

  /**
   * Two strings that agree on where the token characters are, and on the
   * token characters themselves, have the same tokens, whatever the delimiters.
   */
  lemma {:induction false} RunsTransfer(u: Tables, d: Delimiters, x: string, e: Delimiters, y: string)
    requires |x| == |y|
    requires forall i :: 0 <= i < |x| ==> InToken(u, d, x[i]) == InToken(u, e, y[i])
    requires forall i :: 0 <= i < |x| && InToken(u, d, x[i]) ==> x[i] == y[i]
    ensures Runs(u, d, x) == Runs(u, e, y)
    decreases |x|
  {
    if x != [] {
      if !InToken(u, d, x[0]) {
        RunsTransfer(u, d, x[1..], e, y[1..]);
      } else {
        var n := Span(u, d, x);
        SpanIs(u, e, y, n);
        assert x[..n] == y[..n];
        RunsTransfer(u, d, x[n..], e, y[n..]);
      }
    }
  }

  /** A string has no tokens exactly when it has no token character. */
  lemma {:induction false} RunsEmpty(u: Tables, d: Delimiters, s: string)
    ensures Runs(u, d, s) == [] <==> forall i :: 0 <= i < |s| ==> !InToken(u, d, s[i])
    decreases |s|
  {
    if s != [] && !InToken(u, d, s[0]) {
      RunsEmpty(u, d, s[1..]);
      assert forall i :: 1 <= i < |s| ==> s[i] == s[1..][i - 1];
    }
  }

  /** A single token is its own only run. */
  lemma {:induction false} RunsSingle(u: Tables, d: Delimiters, w: string)
    requires IsToken(u, d, w)
    ensures Runs(u, d, w) == [w]
  {
    SpanIs(u, d, w, |w|);
    assert w[..|w|] == w && w[|w|..] == [];
    assert Runs(u, d, []) == [];
  }

  /** Round trip: splitting a space-joined list of tokens gives the tokens back. */
  lemma {:induction false} RunsJoin(u: Tables, d: Delimiters, ws: seq<string>)
    requires forall k :: 0 <= k < |ws| ==> IsToken(u, d, ws[k])
    ensures Runs(u, d, Join(ws)) == ws
    decreases |ws|
  {
    if |ws| == 1 {
      RunsSingle(u, d, ws[0]);
    } else if |ws| > 1 {
      var w, rest := ws[0], ws[1..];
      assert ws == [w] + rest;
      RunsSingle(u, d, w);
      RunsJoin(u, d, rest);
      JoinCons(w, rest);
      RunsSeparated(u, d, w, ' ', Join(rest));
    }
  }

  // ---------------------------------------------------------------------------
  // Lemmas about Join and canonical strings

  /** Space-joined words are in normal form. */
  lemma {:induction false} JoinCanonical(u: Tables, ws: seq<string>)
    requires forall k :: 0 <= k < |ws| ==> IsToken(u, Whitespace, ws[k])
    ensures Canonical(u, Join(ws))
    ensures Join(ws) == [] <==> ws == []
    decreases |ws|
  {
    if |ws| > 1 {
      var w, rest := ws[0], Join(ws[1..]);
      JoinCanonical(u, ws[1..]);
      var s := w + " " + rest;
      assert s == Join(ws);
      assert forall i :: 0 <= i < |w| ==> s[i] == w[i];
      assert s[|w|] == ' ';
      assert forall i :: |w| < i < |s| ==> s[i] == rest[i - |w| - 1];
    }
  }

  /** A suffix of a normal-form string that starts at a non-space is in normal form. */
  lemma {:induction false} CanonicalSuffix(u: Tables, s: string, k: nat)
    requires Canonical(u, s)
    requires k < |s| && !u.isSpace(s[k])
    ensures Canonical(u, s[k..])
  {
    var t := s[k..];
    assert forall i :: 0 <= i < |t| ==> t[i] == s[k + i];
  }

  /** The first word of a string that starts with one, and the rest after the next separator. */
  lemma {:induction false} SplitFirst(u: Tables, s: string)
    requires s != [] && !u.isSpace(s[0])
    requires Span(u, Whitespace, s) < |s|
    ensures var n := Span(u, Whitespace, s);
      Split(u, s) == [s[..n]] + Split(u, s[n + 1..])
  {
    var n := Span(u, Whitespace, s);
    assert InToken(u, Whitespace, s[0]);
    assert Runs(u, Whitespace, s) == [s[..n]] + Runs(u, Whitespace, s[n..]);
    assert s[n..][1..] == s[n + 1..];
    assert !InToken(u, Whitespace, s[n..][0]);
    assert Runs(u, Whitespace, s[n..]) == Runs(u, Whitespace, s[n + 1..]);
  }

  /** In a normal-form string, the first word is followed by one space and a non-space. */
  lemma {:induction false} CanonicalGap(u: Tables, s: string)
    requires Canonical(u, s) && s != []
    requires Span(u, Whitespace, s) < |s|
    ensures var n := Span(u, Whitespace, s);
      s[n] == ' ' && n + 1 < |s| && !u.isSpace(s[n + 1])
  {
  }

  /** Joining a word in front of a non-empty list. */
  lemma {:induction false} JoinCons(w: string, ws: seq<string>)
    requires ws != []
    ensures Join([w] + ws) == w + " " + Join(ws)
  {
    assert ([w] + ws)[1..] == ws;
  }

  /** A string that is one word splits into just that word. */
  lemma {:induction false} SplitWhole(u: Tables, s: string)
    requires s != [] && Span(u, Whitespace, s) == |s|
    ensures Split(u, s) == [s]
  {
    assert InToken(u, Whitespace, s[0]);
    assert s[..|s|] == s && s[|s|..] == [];
    assert Runs(u, Whitespace, s) == [s] + Runs(u, Whitespace, []);
  }

  /** A string that starts with a non-space has at least one word. */
  lemma {:induction false} SplitNonEmpty(u: Tables, s: string)
    requires s != [] && !u.isSpace(s[0])
    ensures Split(u, s) != []
  {
    assert InToken(u, Whitespace, s[0]);
  }

  /** A string in normal form is the space-join of its words. */
  lemma {:induction false} CanonicalJoin(u: Tables, s: string)
    requires Canonical(u, s)
    ensures Join(Split(u, s)) == s
    decreases |s|
  {
    if s != [] {
      var n := Span(u, Whitespace, s);
      if n == |s| {
        SplitWhole(u, s);
      } else {
        CanonicalGap(u, s);
        var t := s[n + 1..];
        CanonicalSuffix(u, s, n + 1);
        CanonicalJoin(u, t);
        SplitFirst(u, s);
        SplitNonEmpty(u, t);
        JoinCons(s[..n], Split(u, t));
        assert s == s[..n] + " " + t;
      }
    }
  }

  /** Join keeps only separating spaces and characters drawn from the words. */
  lemma {:induction false} JoinChars(u: Tables, d: Delimiters, ws: seq<string>, pool: string)
    requires forall k :: 0 <= k < |ws| ==> IsToken(u, d, ws[k])
    requires forall k, i :: 0 <= k < |ws| && 0 <= i < |ws[k]| ==> ws[k][i] in pool
    ensures forall i :: 0 <= i < |Join(ws)| ==> Join(ws)[i] == ' ' || (Join(ws)[i] in pool && InToken(u, d, Join(ws)[i]))
    decreases |ws|
  {
    if |ws| > 1 {
      JoinChars(u, d, ws[1..], pool);
      var w, rest := ws[0], Join(ws[1..]);
      assert forall i :: |w| < i < |Join(ws)| ==> Join(ws)[i] == rest[i - |w| - 1];
      assert forall i :: 0 <= i < |w| ==> Join(ws)[i] == w[i];
    }
  }

  /** Lower-casing the lower-cased: the result is already lower case. */
  lemma LowerIsFixed(u: Tables, s: string)
    ensures LowerFixed(u, Lower(u, s))
  {
  }

  /** Lower-casing a lower-case string changes nothing. */
  lemma {:induction false} LowerOfFixed(u: Tables, s: string)
    requires LowerFixed(u, s)
    ensures Lower(u, s) == s
  {
  }

  /** Lower-casing commutes with joining around a space. */
  lemma {:induction false} LowerAroundSpace(u: Tables, a: string, b: string)
    ensures Lower(u, a + " " + b) == Lower(u, a) + " " + Lower(u, b)
  {
    var s := a + " " + b;
    var l, r := Lower(u, s), Lower(u, a) + " " + Lower(u, b);
    assert |l| == |r|;
    forall i | 0 <= i < |s| ensures l[i] == r[i] {
      if i < |a| {
        assert s[i] == a[i];
      } else if i > |a| {
        assert s[i] == b[i - |a| - 1];
      }
    }
  }
}
