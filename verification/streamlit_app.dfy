/**
 * app/streamlit_app.py: the web front end's own copy of the normaliser,
 * `clean` (lower-case, blank out disallowed characters, then rejoin the
 * whitespace-separated words with single spaces), and the model inputs it
 * builds for an uploaded CSV.
 */
module StreamlitApp {
  import opened TextPrimitives
  import opened Frame
  import Utils
  import Train

  /**
   * `clean`, step by step as in the source. Joining the split words leaves
   * no whitespace at the ends and only single spaces between words.
   */
  function Clean(u: Tables, s: string): (r: string)
    ensures Canonical(u, r)
  {
    var words := Split(u, ReplaceDisallowed(u, Lower(u, s)));
    JoinCanonical(u, words);
    Join(words)
  }

  /** The web front end cleans every string exactly as training does. */
  lemma CleanAgreesWithBasicClean(u: Tables, s: string)
    ensures Clean(u, s) == Utils.BasicClean(u, s)
  {
    Utils.WhitespaceNormalForms(u, ReplaceDisallowed(u, Lower(u, s)));
  }

  /** Cleaning cleaned text changes nothing. */
  lemma CleanIdempotent(u: Tables, s: string)
    ensures Clean(u, Clean(u, s)) == Clean(u, s)
  {
    CleanAgreesWithBasicClean(u, s);
    CleanAgreesWithBasicClean(u, Clean(u, s));
    Utils.BasicCleanIdempotent(u, s);
  }

  /** The texts for an uploaded CSV: one cleaned string per row. */
  function BatchTexts(u: Tables, rows: seq<ReviewText>): (texts: seq<string>)
    ensures |texts| == |rows|
    ensures forall i :: 0 <= i < |rows| ==> texts[i] == Clean(u, Combined(rows[i]))
  {
    if rows == [] then [] else [Clean(u, Combined(rows[0]))] + BatchTexts(u, rows[1..])
  }

  /** An uploaded CSV reaches the models as the same texts training built. */
  lemma BatchTextsMatchTraining(u: Tables, rows: seq<ReviewText>)
    ensures BatchTexts(u, rows) == Train.BuildText(u, rows)
  {
    forall i | 0 <= i < |rows| ensures BatchTexts(u, rows)[i] == Train.BuildText(u, rows)[i] {
      CleanAgreesWithBasicClean(u, Combined(rows[i]));
    }
  }
}
