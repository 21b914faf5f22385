/**
 * src/generate_dataset.py: the phrase banks, `synthesize_review`, and the
 * rows `main` builds before writing them out. Every random draw
 * (`random.choice`, the 48 random bits behind a `uuid4` hex prefix, the
 * swap partner of `random.shuffle`) is an arbitrary choice within its range.
 */
module GenerateDataset {

  // ---------------------------------------------------------------------------
  // Classes and banks

  const Departments: seq<string> := ["Housekeeping", "Reception", "F&B"]
  const Sentiments: seq<string> := ["positive", "negative"]

  const HousekeepingPositive: seq<string> := ["camera pulita e profumata", "staff cordiale e disponibile", "letto comodo", "colazione abbondante"]
  const HousekeepingNegative: seq<string> := ["camera sporca", "staff scortese", "letto scomodo", "lenzuola macchiate"]
  const ReceptionPositive: seq<string> := ["check-in veloce", "personale accogliente", "pagamento senza problemi", "accoglienza calorosa"]
  const ReceptionNegative: seq<string> := ["lunghe attese al check-in", "personale scortese", "errori nel pagamento", "servizio lento"]
  const FoodAndBeveragePositive: seq<string> := ["colazione ricca e varia", "ristorante eccellente", "cameriere attento", "porzioni abbondanti"]
  const FoodAndBeverageNegative: seq<string> := ["colazione scarsa", "servizio lento", "menu limitato", "porzioni scarse"]

  const TitlesPositive: seq<string> := ["Eccellente soggiorno!", "Servizio impeccabile", "Esperienza fantastica", "Consigliatissimo!"]
  const TitlesNegative: seq<string> := ["Deludente esperienza", "Servizio pessimo", "Non tornerò mai più", "Molto insoddisfatto"]

  /** Every phrase a positive review's body can be. */
  const PositivePhrases: seq<string> := HousekeepingPositive + ReceptionPositive + FoodAndBeveragePositive

  /**
   * The phrase bank `synthesize_review` draws the body from: four phrases,
   * all positive for the sentiment `positive` and none positive otherwise.
   */
  function BodyBank(department: string, sentiment: string): (bank: seq<string>)
    ensures |bank| == 4
    ensures sentiment == "positive" ==> forall p :: p in bank ==> p in PositivePhrases
    ensures sentiment != "positive" ==> forall p :: p in bank ==> p !in PositivePhrases
  {
    SentimentBanksDisjoint();
    if department == "Housekeeping" then
      (if sentiment == "positive" then HousekeepingPositive else HousekeepingNegative)
    else if department == "Reception" then
      (if sentiment == "positive" then ReceptionPositive else ReceptionNegative)
    else
      (if sentiment == "positive" then FoodAndBeveragePositive else FoodAndBeverageNegative)
  }

  /** The title bank, which depends on the sentiment only: four titles, positive exactly for `positive`. */
  function TitleBank(sentiment: string): (bank: seq<string>)
    ensures |bank| == 4
    ensures forall t :: t in bank ==> (t in TitlesPositive <==> sentiment == "positive")
  {
    SentimentBanksDisjoint();
    if sentiment == "positive" then TitlesPositive else TitlesNegative
  }

  /** No title and no body phrase is used for both sentiments. */
  lemma {:induction false} SentimentBanksDisjoint()
    ensures forall t :: t in TitlesPositive ==> t !in TitlesNegative
    ensures forall p :: p in PositivePhrases ==> p !in HousekeepingNegative + ReceptionNegative + FoodAndBeverageNegative
  {
  }

  // ---------------------------------------------------------------------------
  // synthesize_review

  /** `synthesize_review`, given the indices its two `random.choice` calls draw. */
  function SynthesizeReview(department: string, sentiment: string, bodyPick: nat, titlePick: nat): (review: (string, string))
    requires bodyPick < 4 && titlePick < 4
    ensures review.0 in TitleBank(sentiment) && review.1 in BodyBank(department, sentiment)
    ensures department == "Housekeeping" ==> review.1 in HousekeepingPositive + HousekeepingNegative
    ensures department == "Reception" ==> review.1 in ReceptionPositive + ReceptionNegative
    ensures department != "Housekeeping" && department != "Reception" ==>
      review.1 in FoodAndBeveragePositive + FoodAndBeverageNegative
    ensures review.0 in TitlesPositive <==> sentiment == "positive"
    ensures review.0 in TitlesNegative <==> sentiment != "positive"
    ensures review.1 in PositivePhrases <==> sentiment == "positive"
  {
    SentimentBanksDisjoint();
    var body := BodyBank(department, sentiment)[bodyPick];
    var title := TitleBank(sentiment)[titlePick];
    (title, body)
  }

  /** The two draws are independent: every title of the sentiment goes with every body of the bucket. */
  lemma {:induction false} EveryPairReachable(department: string, sentiment: string, title: string, body: string)
    requires title in TitleBank(sentiment) && body in BodyBank(department, sentiment)
    ensures exists bodyPick: nat, titlePick: nat ::
      (bodyPick < 4 && titlePick < 4 && SynthesizeReview(department, sentiment, bodyPick, titlePick) == (title, body))
  {
    var bodyPick :| 0 <= bodyPick < 4 && BodyBank(department, sentiment)[bodyPick] == body;
    var titlePick :| 0 <= titlePick < 4 && TitleBank(sentiment)[titlePick] == title;
    assert SynthesizeReview(department, sentiment, bodyPick, titlePick) == (title, body);
  }

  /** A body phrase does not identify its department: one phrase closes negative reviews of two departments. */
  lemma SharedPhrase()
    ensures SynthesizeReview("Reception", "negative", 3, 0).1 == SynthesizeReview("F&B", "negative", 1, 0).1
  {
  }

  // ---------------------------------------------------------------------------
  // Identifiers: the first 12 hex digits of a uuid4, which carry 48 random bits

  const IdLength: nat := 12
  const IdSpace: nat := 0x1_0000_0000_0000

  /** The lower-case hex digit for a value below 16. */
  function HexDigit(d: nat): (c: char)
    requires d < 16
    ensures IsHexDigit(c)
  {
    if d < 10 then ('0' as int + d) as char else ('a' as int + d - 10) as char
  }

  function DigitValue(c: char): nat {
    if '0' <= c <= '9' then c as int - '0' as int
    else if 'a' <= c <= 'f' then c as int - 'a' as int + 10
    else 0
  }

  predicate IsHexDigit(c: char) {
    '0' <= c <= '9' || 'a' <= c <= 'f'
  }

  function Pow16(width: nat): (p: nat)
    ensures p > 0
  {
    if width == 0 then 1 else 16 * Pow16(width - 1)
  }

  /** The last `width` hex digits of `v`, most significant first. */
  function Hex(v: nat, width: nat): (s: string)
    ensures |s| == width
    ensures forall i :: 0 <= i < |s| ==> IsHexDigit(s[i])
  {
    if width == 0 then [] else Hex(v / 16, width - 1) + [HexDigit(v % 16)]
  }

  /** The value a string of hex digits spells. */
  function HexValue(s: string): nat {
    if s == [] then 0 else 16 * HexValue(s[..|s| - 1]) + DigitValue(s[|s| - 1])
  }

  /** Reading back the digits gives the value, so distinct draws give distinct identifiers. */
  lemma {:induction false} HexRoundTrip(v: nat, width: nat)
    requires v < Pow16(width)
    ensures HexValue(Hex(v, width)) == v
  {
    if width > 0 {
      var s := Hex(v, width);
      assert s[..|s| - 1] == Hex(v / 16, width - 1);
      HexRoundTrip(v / 16, width - 1);
    }
  }

  predicate IsId(id: string) {
    |id| == IdLength && forall i :: 0 <= i < |id| ==> IsHexDigit(id[i])
  }

  // ---------------------------------------------------------------------------
  // Rows

  /** One row of the dataset: id, title, body, department, sentiment. */
  datatype Review = Review(id: string, title: string, body: string, department: string, sentiment: string)

  /** What every generated row satisfies. */
  predicate WellFormed(r: Review) {
    && IsId(r.id)
    && r.department in Departments && r.sentiment in Sentiments
    && r.title in TitleBank(r.sentiment) && r.body in BodyBank(r.department, r.sentiment)
  }

  /** The number of rows in the bucket `(department, sentiment)`. */
  function Count(rows: seq<Review>, department: string, sentiment: string): (c: nat)
    ensures c <= |rows|
  {
    if rows == [] then 0
    else
      var last := rows[|rows| - 1];
      Count(rows[..|rows| - 1], department, sentiment)
        + (if last.department == department && last.sentiment == sentiment then 1 else 0)
  }

  /** The last row adds one to its own bucket. */
  lemma {:induction false} CountSnoc(rows: seq<Review>, last: Review, department: string, sentiment: string)
    ensures Count(rows + [last], department, sentiment) ==
      Count(rows, department, sentiment) + (if last.department == department && last.sentiment == sentiment then 1 else 0)
  {
    assert (rows + [last])[..|rows|] == rows;
  }

  lemma {:induction false} CountConcat(a: seq<Review>, b: seq<Review>, department: string, sentiment: string)
    ensures Count(a + b, department, sentiment) == Count(a, department, sentiment) + Count(b, department, sentiment)
    decreases |b|
  {
    if b == [] {
      assert a + b == a;
    } else {
      var init, last := b[..|b| - 1], b[|b| - 1];
      assert b == init + [last];
      assert a + b == (a + init) + [last];
      CountSnoc(a + init, last, department, sentiment);
      CountSnoc(init, last, department, sentiment);
      CountConcat(a, init, department, sentiment);
    }
  }

  /** Taking out the row at `k` takes it out of the multiset and out of its bucket. */
  lemma {:induction false} RemoveAt(ys: seq<Review>, k: nat, department: string, sentiment: string)
    requires k < |ys|
    ensures multiset(ys[..k] + ys[k + 1..]) == multiset(ys) - multiset{ys[k]}
    ensures Count(ys, department, sentiment) == Count(ys[..k] + ys[k + 1..], department, sentiment)
      + (if ys[k].department == department && ys[k].sentiment == sentiment then 1 else 0)
  {
    var before, x, after := ys[..k], ys[k], ys[k + 1..];
    assert ys == (before + [x]) + after;
    calc {
      multiset(ys);
      multiset(before + [x]) + multiset(after);
      multiset(before) + multiset{x} + multiset(after);
      multiset(before + after) + multiset{x};
    }
    CountConcat(before + [x], after, department, sentiment);
    CountSnoc(before, x, department, sentiment);
    CountConcat(before, after, department, sentiment);
  }

  /** Rearranging rows keeps every bucket count. */
  lemma {:induction false} CountPermutation(xs: seq<Review>, ys: seq<Review>, department: string, sentiment: string)
    requires multiset(xs) == multiset(ys)
    ensures Count(xs, department, sentiment) == Count(ys, department, sentiment)
    decreases |xs|
  {
    if xs == [] {
      assert |multiset(ys)| == 0;
    } else {
      var init, x := xs[..|xs| - 1], xs[|xs| - 1];
      assert xs == init + [x];
      assert multiset(init) == multiset(xs) - multiset{x};
      assert x in multiset(ys);
      var k :| 0 <= k < |ys| && ys[k] == x;
      RemoveAt(ys, k, department, sentiment);
      CountPermutation(init, ys[..k] + ys[k + 1..], department, sentiment);
      CountSnoc(init, x, department, sentiment);
    }
  }

  // ---------------------------------------------------------------------------
  // random.shuffle

  /** `random.shuffle`: for each position from the last down to the second, swap it with a position at or before it. */
  method Shuffle<T>(items: seq<T>) returns (shuffled: seq<T>)
    ensures multiset(shuffled) == multiset(items)
  {
    shuffled := items;
    var i := |shuffled| - 1;
    while i > 0
      invariant |shuffled| == |items|
      invariant i < |shuffled|
      invariant multiset(shuffled) == multiset(items)
    {
      var j :| 0 <= j <= i;
      shuffled := Swap(shuffled, i, j);
      i := i - 1;
    }
  }

  function Swap<T>(s: seq<T>, i: nat, j: nat): (r: seq<T>)
    requires i < |s| && j < |s|
    ensures |r| == |s| && r[i] == s[j] && r[j] == s[i]
    ensures forall k :: 0 <= k < |s| && k != i && k != j ==> r[k] == s[k]
    ensures multiset(r) == multiset(s)
  {
    s[i := s[j]][j := s[i]]
  }

  // ---------------------------------------------------------------------------
  // main

  /** `n // 6` as the loop bound, where a negative bound means no iterations. */
  function PerBucket(n: int): (k: nat)
    ensures k == 0 <==> n < |Departments| * |Sentiments|
    ensures n >= 0 ==> |Departments| * |Sentiments| * k <= n < |Departments| * |Sentiments| * (k + 1)
  {
    if n < 0 then 0 else n / (|Departments| * |Sentiments|)
  }

  /** The bucket of department `i` and sentiment `j`, in loop order. */
  function Bucket(i: nat, j: nat): nat {
    i * |Sentiments| + j
  }

  /** Buckets before `current` are full, bucket `current` holds `k` rows, later ones are empty. */
  ghost predicate Progress(rows: seq<Review>, current: nat, per: nat, k: nat) {
    forall i, j :: 0 <= i < |Departments| && 0 <= j < |Sentiments| ==>
      Count(rows, Departments[i], Sentiments[j]) ==
        (if Bucket(i, j) < current then per else if Bucket(i, j) == current then k else 0)
  }

  lemma ClassesDistinct()
    ensures forall i, j :: 0 <= i < |Departments| && 0 <= j < |Departments| && Departments[i] == Departments[j] ==> i == j
    ensures forall i, j :: 0 <= i < |Sentiments| && 0 <= j < |Sentiments| && Sentiments[i] == Sentiments[j] ==> i == j
  {
  }

  /** A bucket no row belongs to is empty, and only such a bucket. */
  lemma {:induction false} CountZero(rows: seq<Review>, department: string, sentiment: string)
    ensures Count(rows, department, sentiment) == 0 <==>
      forall r :: r in rows ==> !(r.department == department && r.sentiment == sentiment)
  {
    if rows != [] {
      var init, last := rows[..|rows| - 1], rows[|rows| - 1];
      assert rows == init + [last];
      CountZero(init, department, sentiment);
    }
  }

  /** Nothing has been generated yet. */
  lemma {:induction false} ProgressStart(per: nat)
    ensures Progress([], 0, per, 0)
  {
  }

  /** A full current bucket is the same as an empty next one. */
  lemma {:induction false} ProgressNext(rows: seq<Review>, current: nat, per: nat)
    requires Progress(rows, current, per, per)
    ensures Progress(rows, current + 1, per, 0)
  {
  }

  /** Appending a row of the current bucket fills that bucket by one. */
  lemma {:induction false} AppendToBucket(rows: seq<Review>, row: Review, di: nat, si: nat, per: nat, k: nat)
    requires di < |Departments| && si < |Sentiments|
    requires row.department == Departments[di] && row.sentiment == Sentiments[si]
    requires Progress(rows, Bucket(di, si), per, k)
    ensures Progress(rows + [row], Bucket(di, si), per, k + 1)
  {
    ClassesDistinct();
    forall i, j | 0 <= i < |Departments| && 0 <= j < |Sentiments|
      ensures Count(rows + [row], Departments[i], Sentiments[j]) ==
        (if Bucket(i, j) < Bucket(di, si) then per else if Bucket(i, j) == Bucket(di, si) then k + 1 else 0)
    {
      CountSnoc(rows, row, Departments[i], Sentiments[j]);
      assert Bucket(i, j) == Bucket(di, si) <==> i == di && j == si;
    }
  }

  /** With every bucket full, each of the six pairs has `per` rows and no other pair has any. */
  lemma {:induction false} Balanced(rows: seq<Review>, per: nat)
    requires Progress(rows, |Departments| * |Sentiments|, per, 0)
    requires forall r :: r in rows ==> WellFormed(r)
    ensures forall d, s :: Count(rows, d, s) == (if d in Departments && s in Sentiments then per else 0)
  {
    forall d, s ensures Count(rows, d, s) == (if d in Departments && s in Sentiments then per else 0) {
      if d in Departments && s in Sentiments {
        var i :| 0 <= i < |Departments| && Departments[i] == d;
        var j :| 0 <= j < |Sentiments| && Sentiments[j] == s;
        assert Bucket(i, j) < |Departments| * |Sentiments|;
      } else {
        assert forall r :: r in rows ==> !(r.department == d && r.sentiment == s);
        CountZero(rows, d, s);
      }
    }
  }

  /** One pass of the innermost loop: a fresh id and a synthesized review for the bucket. */
  method NewRow(department: string, sentiment: string) returns (row: Review)
    requires department in Departments && sentiment in Sentiments
    ensures WellFormed(row)
    ensures row.department == department && row.sentiment == sentiment
  {
    var bits :| 0 <= bits < IdSpace;
    var id := Hex(bits, IdLength);
    var bodyPick :| 0 <= bodyPick < 4;
    var titlePick :| 0 <= titlePick < 4;
    var review := SynthesizeReview(department, sentiment, bodyPick, titlePick);
    row := Review(id, review.0, review.1, department, sentiment);
  }

  /** The sizes of the six buckets, added up. */
  ghost function Total(rows: seq<Review>): nat {
    Count(rows, Departments[0], Sentiments[0]) + Count(rows, Departments[0], Sentiments[1])
      + Count(rows, Departments[1], Sentiments[0]) + Count(rows, Departments[1], Sentiments[1])
      + Count(rows, Departments[2], Sentiments[0]) + Count(rows, Departments[2], Sentiments[1])
  }

  /** A row of one of the six buckets adds one to the total. */
  lemma {:induction false} TotalSnoc(rows: seq<Review>, last: Review)
    requires last.department in Departments && last.sentiment in Sentiments
    ensures Total(rows + [last]) == Total(rows) + 1
  {
    ClassesDistinct();
    forall i, j | 0 <= i < |Departments| && 0 <= j < |Sentiments|
      ensures Count(rows + [last], Departments[i], Sentiments[j]) == Count(rows, Departments[i], Sentiments[j])
        + (if last.department == Departments[i] && last.sentiment == Sentiments[j] then 1 else 0)
    {
      CountSnoc(rows, last, Departments[i], Sentiments[j]);
    }
  }

  /** When every row is in one of the six buckets, the buckets add up to all rows. */
  lemma {:induction false} SizeByBuckets(rows: seq<Review>)
    requires forall r :: r in rows ==> r.department in Departments && r.sentiment in Sentiments
    ensures |rows| == Total(rows)
  {
    if rows != [] {
      var init, last := rows[..|rows| - 1], rows[|rows| - 1];
      assert rows == init + [last];
      assert last in rows;
      SizeByBuckets(init);
      TotalSnoc(init, last);
    }
  }

  /** The rows of `main` before they are written: a balanced, shuffled dataset. */
  method Generate(n: int) returns (rows: seq<Review>)
    ensures |rows| == |Departments| * |Sentiments| * PerBucket(n)
    ensures forall d, s :: Count(rows, d, s) == (if d in Departments && s in Sentiments then PerBucket(n) else 0)
    ensures forall r :: r in rows ==> WellFormed(r)
    ensures n < |Departments| * |Sentiments| ==> rows == []
  {
    var built: seq<Review> := [];
    var reviews := n / (|Departments| * |Sentiments|);
    ghost var per := PerBucket(n);
    ProgressStart(per);
    for di := 0 to |Departments|
      invariant forall r :: r in built ==> WellFormed(r)
      invariant Progress(built, Bucket(di, 0), per, 0)
    {
      var department := Departments[di];
      assert Bucket(di, |Sentiments|) == Bucket(di + 1, 0);
      for si := 0 to |Sentiments|
        invariant forall r :: r in built ==> WellFormed(r)
        invariant Progress(built, Bucket(di, si), per, 0)
      {
        var sentiment := Sentiments[si];
        var k := 0;
        while k < reviews
          invariant 0 <= k <= per
          invariant forall r :: r in built ==> WellFormed(r)
          invariant Progress(built, Bucket(di, si), per, k)
        {
          var row := NewRow(department, sentiment);
          AppendToBucket(built, row, di, si, per, k);
          built := built + [row];
          k := k + 1;
        }
        ProgressNext(built, Bucket(di, si), per);
        assert Bucket(di, si) + 1 == Bucket(di, si + 1);
      }
    }
    rows := Shuffle(built);
    Balanced(built, per);
    forall d, s ensures Count(rows, d, s) == Count(built, d, s) {
      CountPermutation(rows, built, d, s);
    }
    forall r | r in rows ensures WellFormed(r) {
      assert r in multiset(rows);
    }
    SizeByBuckets(rows);
  }
}
