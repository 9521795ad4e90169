/**
 * `to_quarto_markdown` of `utils/table.py`: an HTML table wrapped in a Quarto
 * raw-HTML fence, with an optional caption.
 */
module Table {
  import opened Wrappers

  /**
   * The argument of `to_quarto_markdown`: an HTML string, an object with a
   * `to_html` method (a data frame, carried here by the text its `to_html`
   * returns) or anything else.
   */
  datatype TableInput = Html(text: string) | Frame(rendered: string) | Other

  const FenceOpen: string := "\n```{=html}\n"
  const FenceClose: string := "\n```\n"

  /** `f"\n<figcaption>{title}</figcaption>" if title else ""`: only a non-empty title is truthy. */
  function Caption(title: Option<string>): (r: string)
    ensures (title.None? || title.value == "") <==> r == ""
    ensures title.Some? && title.value != "" ==> r == "\n<figcaption>" + title.value + "</figcaption>"
  {
    match title
    case None => ""
    case Some(l) => if l == "" then "" else "\n<figcaption>" + l + "</figcaption>"
  }

  /** The HTML the fence wraps: the string itself, or what `to_html` gave. */
  function TableHtml(input: TableInput): (r: Result<string>)
    ensures r.Err? <==> input.Other?
    ensures input.Html? ==> r == Ok(input.text)
    ensures input.Frame? ==> r == Ok(input.rendered)
    ensures r.Err? ==> r.error.ValueError?
  {
    match input
    case Html(s) => Ok(s)
    case Frame(h) => Ok(h)
    case Other => Err(ValueError("Input must be a DataFrame or an HTML string."))
  }

  /** `to_quarto_markdown(input, title)`. */
  function ToQuartoMarkdown(input: TableInput, title: Option<string>): (r: Result<string>)
    ensures r.Err? <==> input.Other?
    ensures r.Ok? ==> r.value == FenceOpen + TableHtml(input).value + Caption(title) + FenceClose
  {
    var html :- TableHtml(input);
    Ok(FenceOpen + html + Caption(title) + FenceClose)
  }

  /** What lies between the fences of a wrapped table. */
  function FenceBody(s: string): (r: string)
    requires |s| >= |FenceOpen| + |FenceClose|
  {
    s[|FenceOpen|..|s| - |FenceClose|]
  }

  /**
   * A string input is embedded verbatim: the result opens and closes with
   * the fences, and the text between them is the input and its caption.
   */
  lemma StringEmbeddedVerbatim(text: string, title: Option<string>)
    ensures ToQuartoMarkdown(Html(text), title).Ok?
    ensures var r := ToQuartoMarkdown(Html(text), title).value;
      && |r| >= |FenceOpen| + |FenceClose|
      && r[..|FenceOpen|] == FenceOpen
      && r[|r| - |FenceClose|..] == FenceClose
      && FenceBody(r) == text + Caption(title)
  {
    var r := ToQuartoMarkdown(Html(text), title).value;
    assert r == FenceOpen + (text + Caption(title)) + FenceClose;
  }

  /** Wrapping is injective for a fixed title: different tables give different text. */
  lemma WrapInjective(a: string, b: string, title: Option<string>)
    requires ToQuartoMarkdown(Html(a), title) == ToQuartoMarkdown(Html(b), title)
    ensures a == b
  {
    StringEmbeddedVerbatim(a, title);
    StringEmbeddedVerbatim(b, title);
    var c := Caption(title);
    assert (a + c)[..|a|] == a;
    assert (b + c)[..|b|] == b;
  }
}
