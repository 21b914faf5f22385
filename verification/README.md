# Hotel review classifier: text normalisation, synthetic corpus and task dispatch

This project models the deterministic core of a small hotel-review
classifier. The classifier labels Italian hotel reviews with the department
they concern (Housekeeping, Reception, F&B) and with their sentiment
(positive, negative). The model covers three parts of it.

- **Text normalisation.** `basic_clean` is used by training and inference;
  `clean` is the web front end's own copy. Both lower-case a review, turn
  every character outside word characters, whitespace and `àèéìòóù` into a
  space, and reduce the whitespace to single spaces between words. Python's
  Unicode tables (`str.lower`, regex `\w`, regex `\s`) are parameters of
  type `Tables`. Every result holds for any tables in which `' '` is
  whitespace and its own lower case, and lower-casing is idempotent.
  `AsciiTables` is one such instance, used by the concrete examples.
- **The balanced synthetic corpus.** `synthesize_review` picks a title by
  sentiment and a body phrase by department and sentiment from fixed banks.
  `main` builds `n // 6` rows for each of the six (department, sentiment)
  pairs and shuffles them. Every random draw is an arbitrary choice within
  its range: the bank indices, the 48 random bits of the 12-hex-digit id,
  and each swap partner of the shuffle.
- **Task dispatch in training.** `make_pipeline` maps a task to a two-stage
  pipeline configuration or raises `ValueError("Unknown task")`.
  `build_text` turns each row into the cleaned `title + " " + body`, with a
  missing cell read as `""`. `train_model` uses its label column as the
  task. Pipeline stages are configuration records, not learning algorithms.

Modules: `Wrappers` (Option, Result), `TextPrimitives` (character classes,
tokens, join), `Utils` (`basic_clean`), `StreamlitApp` (`clean`, batch
texts), `Frame` (the title/body cells of a row), `Train` and
`GenerateDataset`.

## Model

| member | source | states |
|---|---|---|
| TextPrimitives.Lower | src/utils.py:28 | lower-casing maps each character on its own and keeps the length |
| TextPrimitives.ReplaceDisallowed | src/utils.py:31 | the punctuation pass keeps the length; each kept-class character stays and every other character becomes exactly one space |
| TextPrimitives.Runs | src/utils.py:31-34 | every token of a string is a non-empty run of characters of the token class |
| TextPrimitives.Split | app/streamlit_app.py:59 | `s.split()` yields only non-empty words without whitespace |
| TextPrimitives.Join | app/streamlit_app.py:59 | `" ".join(ws)` starts with the first word and is as long as all words plus one separator between each two |
| TextPrimitives.RunsSeparated | src/utils.py:31-34 | a separator character splits the token sequence into the tokens on its left followed by those on its right |
| TextPrimitives.RunsEmpty | src/utils.py:31-34 | a string has no tokens exactly when none of its characters belongs to a token |
| TextPrimitives.RunsJoin | app/streamlit_app.py:59 | splitting words joined by single spaces gives back the same words |
| TextPrimitives.JoinCanonical | app/streamlit_app.py:59 | joining whitespace-free words gives no whitespace at either end, only single spaces between words, and is empty exactly when there are no words |
| TextPrimitives.CanonicalJoin | app/streamlit_app.py:59 | a string already in that form is its own split-and-join |
| TextPrimitives.LowerAroundSpace | src/train.py:37 | lower-casing the title, a space and the body equals lower-casing each part on its own around the space |
| Utils.CollapseWhitespace | src/utils.py:34 | collapsing whitespace runs leaves only single `' '` characters as whitespace and never lengthens the string; it is empty exactly when the input is, and a leading run becomes one space |
| Utils.CollapseLast | src/utils.py:34 | the last character is kept, or becomes one space when it is whitespace, so no space is added at the end |
| Utils.Strip | src/utils.py:34 | the stripped string starts and ends with a non-whitespace character and is never longer than the input |
| Utils.StripTrims | src/utils.py:34 | the stripped string is a slice of the input, and everything cut off at either end is whitespace, so inner whitespace is unchanged |
| Utils.BasicClean | src/utils.py:11-36 | the four steps of `basic_clean` in order; the result is never longer than the input and has no whitespace at either end |
| Utils.CollapseKeepsWords | src/utils.py:34 | collapsing whitespace keeps the whitespace-separated words |
| Utils.StripKeepsWords | src/utils.py:34 | stripping keeps the whitespace-separated words |
| Utils.StripCanonical | src/utils.py:34 | stripping collapsed text leaves no edge whitespace and no doubled spaces |
| Utils.WhitespaceNormalForms | src/utils.py:34 | collapse-then-strip equals joining the split words with single spaces, for every string |
| Utils.BasicCleanTokens | src/utils.py:28-34 | the words of the result are, in order, the maximal runs of kept-class, non-whitespace characters of the lower-cased input |
| Utils.BasicCleanCanonical | src/utils.py:34 | the result has no leading or trailing whitespace and no two consecutive spaces, and `' '` is its only whitespace character |
| Utils.BasicCleanCharacters | src/utils.py:28-31 | every character of the result is `' '` or a non-whitespace character of the lower-cased input that is a word character or an accented vowel |
| Utils.BasicCleanEmpty | src/utils.py:28-34 | the result is empty exactly when every lower-cased input character is whitespace or outside the kept class |
| Utils.BasicCleanIdempotent | src/utils.py:28-34 | cleaning cleaned text changes nothing |
| Utils.PunctuationOnly | src/utils.py:31-34 | ASCII input made of punctuation and spaces only cleans to `""` |
| Utils.SeparatorBecomesSpace | src/utils.py:28-34 | two lower-case words around one disallowed character come out as the two words separated by one space |
| Utils.PunctuationSeparates | src/utils.py:28-34 | with ASCII tables, a punctuation mark between two lower-case ASCII words becomes a single space (as in `check-in` to `check in`) |
| StreamlitApp.Clean | app/streamlit_app.py:38-59 | the three steps of `clean` in order; the result has no edge whitespace, `' '` as its only whitespace character and no doubled spaces |
| StreamlitApp.CleanAgreesWithBasicClean | app/streamlit_app.py:55-59 | `clean(s) == basic_clean(s)` for every string |
| StreamlitApp.CleanIdempotent | app/streamlit_app.py:55-59 | `clean` applied twice equals `clean` applied once |
| StreamlitApp.BatchTexts | app/streamlit_app.py:94 | one text per uploaded row, equal to `clean` of the row's title (or `""`), a space and the body (or `""`) |
| StreamlitApp.BatchTextsMatchTraining | app/streamlit_app.py:94 | the front end's batch texts equal the texts training builds for the same rows |
| Frame.Combined | src/train.py:37 | title-or-empty, one space, body-or-empty (also the text at app/streamlit_app.py:94): the title is a prefix, the space follows it, the body is the rest |
| Train.BuildText | src/train.py:37 | one string per row, equal to `basic_clean` of title-or-empty, a space and body-or-empty |
| Train.BuildTextTokens | src/train.py:37 | the words of a row's text are the title's tokens followed by the body's tokens |
| Train.BlankInFront | src/train.py:37 | an empty title in front of a body leaves exactly the cleaned body |
| Train.BlankBehind | src/train.py:37 | an empty body behind a title leaves exactly the cleaned title |
| Train.MissingCell | src/train.py:37 | a missing title leaves the cleaned body, and a missing body the cleaned title |
| Train.MakePipeline | src/train.py:39-66 | fails with `ValueError("Unknown task")` exactly for tasks other than `department` and `sentiment`; otherwise two stages, `vectorizer` with word n-grams (1,2) and `min_df=2`, then `classifier`: LinearSVC for department, LogisticRegression with `max_iter=200` for sentiment |
| Train.SharedVectorizer | src/train.py:53-66 | both tasks get the same vectorizer stage and different classifier stages |
| Train.TrainModel | src/train.py:81-94 | given rows the split returned, uses the label column as the task, failing with the unknown-task error exactly for other columns; otherwise fits and evaluates on cleaned texts and labels aligned row by row |
| GenerateDataset.BodyBank | src/generate_dataset.py:53-58 | the body bank has four phrases, all positive when the sentiment is `positive` and none positive otherwise |
| GenerateDataset.TitleBank | src/generate_dataset.py:61 | the title bank has four titles, which are positive titles exactly when the sentiment is `positive` |
| GenerateDataset.SentimentBanksDisjoint | src/generate_dataset.py:23-36 | no title and no body phrase appears in both a positive and a negative bank |
| GenerateDataset.SynthesizeReview | src/generate_dataset.py:38-63 | the title comes from the positive titles exactly when the sentiment is `positive`, and from the negative titles otherwise; the body comes from the Housekeeping, Reception or, for any other department, the F&B bank, and from a positive bank exactly when the sentiment is `positive` |
| GenerateDataset.EveryPairReachable | src/generate_dataset.py:53-61 | every title of the sentiment's bank can be paired with every body of the bucket's bank |
| GenerateDataset.SharedPhrase | src/generate_dataset.py:28-32 | one body phrase occurs in negative reviews of two departments, so a body does not identify its department |
| GenerateDataset.Hex | src/generate_dataset.py:96 | the id has the requested number of lower-case hex digits |
| GenerateDataset.HexRoundTrip | src/generate_dataset.py:96 | reading the hex digits back gives the drawn value, so distinct draws give distinct ids |
| GenerateDataset.CountConcat | src/generate_dataset.py:102 | bucket counts add up over concatenated row lists |
| GenerateDataset.RemoveAt | src/generate_dataset.py:105 | removing one row removes it from the multiset of rows and from its bucket count |
| GenerateDataset.CountPermutation | src/generate_dataset.py:105 | two row lists with the same multiset of rows have the same count in every bucket |
| GenerateDataset.Swap | src/generate_dataset.py:105 | a swap exchanges two positions, leaves every other position unchanged and keeps the multiset |
| GenerateDataset.Shuffle | src/generate_dataset.py:105 | the shuffled rows are a permutation of the input rows |
| GenerateDataset.PerBucket | src/generate_dataset.py:89-94 | the loop runs `n // 6` times per bucket, none when `n < 6`, and six buckets of that size fit in `n` |
| GenerateDataset.CountZero | src/generate_dataset.py:102 | a bucket count is zero exactly when no row has that department and sentiment |
| GenerateDataset.AppendToBucket | src/generate_dataset.py:92-102 | appending a row of the current bucket adds one to that bucket and to no other |
| GenerateDataset.ProgressNext | src/generate_dataset.py:92-94 | a full bucket moves the loop on to an empty next bucket |
| GenerateDataset.Balanced | src/generate_dataset.py:92-102 | after the loops each of the six pairs has `n // 6` rows and every other pair has none |
| GenerateDataset.SizeByBuckets | src/generate_dataset.py:89-102 | when every row is in one of the six buckets, the bucket counts add up to the number of rows |
| GenerateDataset.NewRow | src/generate_dataset.py:96-102 | a new row has a 12-hex-digit id, the loop's department and sentiment, and a title and body from that bucket's banks |
| GenerateDataset.Generate | src/generate_dataset.py:85-105 | the shuffled dataset has `6 * (n // 6)` rows (none when `n < 6`), exactly `n // 6` in each of the six pairs, and every row is well formed |

## Left out

- `make_train_test` (src/utils.py): a single call to scikit-learn's `train_test_split`. The train and test rows are inputs of `Train.TrainModel`.
- Train.TrainModel: takes the split rows as given, so its error cases hold only after a successful split. The split raises first in two cases: a label column missing from the frame gives a pandas `KeyError`, and the stratified `train_test_split` (src/utils.py:53-56) raises its own `ValueError` for a column that has a class with a single member, such as `id`. The model reports only the unknown-task error.
- Fitting, predicting, `classification_report` and `joblib` serialisation: library calls and floating-point numerics. A pipeline stage is only its configuration record.
- src/evaluate.py and src/infer.py: they reload models, call metrics, plot, and read and write CSV files. Their text construction is the same as `build_text`.
- The Streamlit user interface: widgets, model caching, file upload, preview, download and the single-review form.
- I/O in the generator: the CSV write, directory creation and the final message.
- Randomness: the distributions of `random.choice`, `random.shuffle` and `uuid4` are not modelled; every draw is an arbitrary value in its range. The seed 42 has no counterpart.
- GenerateDataset.Generate: does not claim that ids are distinct. The 48 random bits of two rows can coincide, and the source does not check for that.
- TextPrimitives.Lower: maps each character to one character, on its own. Python's `str.lower` can map one code point to two (`'İ'`), and it applies the context-sensitive final-sigma rule (a capital sigma at the end of a word becomes `'ς'`). Full Unicode tables are not written out; they are the parameter `Tables`. The proved results do not depend on these cases, because lower-casing already lower-cased text changes nothing.
- The model assumes that regex `\s` and `str.isspace` (the separator of `str.split()`) are the same predicate, as they are in Python 3. `StreamlitApp.CleanAgreesWithBasicClean` depends on it.
