/** The `title` and `body` columns of a pandas data frame, as every model input is built from them. */
module Frame {
  import opened Wrappers

  /** The two text cells of one row; `None` is a missing (NaN) cell. */
  datatype ReviewText = ReviewText(title: Option<string>, body: Option<string>)

  /**
   * `title.fillna("") + " " + body.fillna("")` for one row: the title (or
   * nothing), then one space, then the body (or nothing).
   */
  function Combined(row: ReviewText): (text: string)
    ensures var title, body := row.title.GetOr(""), row.body.GetOr("");
      && |text| == |title| + 1 + |body|
      && text[..|title|] == title && text[|title|] == ' ' && text[|title| + 1..] == body
  {
    row.title.GetOr("") + " " + row.body.GetOr("")
  }
}
