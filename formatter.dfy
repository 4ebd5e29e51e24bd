/**
 * randomtable/formatter.go: how an item is dressed before it is handed
 * out. The first argument is the item, the second the table it came from.
 */
module Formatters {
  import opened Wrappers
  import opened Strings

  datatype Formatter =
    | StringFormatter  // hands the item out as it is
    | HtmlFormatter    // wraps it in an element naming the table

  const HtmlOpen: string := "<RandomElement table='"
  const HtmlMid: string := "'>"
  const HtmlClose: string := "</RandomElement>"

  function Format(f: Formatter, input: string, caller: string): (out: string)
    ensures f.StringFormatter? ==> out == input
    ensures f.HtmlFormatter? ==> HasPrefix(out, HtmlOpen) && HasSuffix(out, HtmlClose)
    ensures f.HtmlFormatter? ==> |out| == |input| + |caller| + 40
  {
    match f
    case StringFormatter => input
    case HtmlFormatter => HtmlOpen + caller + HtmlMid + input + HtmlClose
  }

  /**
   * Reads an HTML-formatted item back into the item and the table name;
   * the table name ends at the first quote.
   */
  function ParseHtml(s: string): Option<(string, string)> {
    if |s| < |HtmlOpen| + |HtmlClose| || !HasPrefix(s, HtmlOpen) || !HasSuffix(s, HtmlClose) then None
    else
      var body := s[|HtmlOpen|..|s| - |HtmlClose|];
      var caller := Split(body, '\'')[0];
      if |caller| + |HtmlMid| <= |body| && body[|caller|..|caller| + |HtmlMid|] == HtmlMid
      then Some((body[|caller| + |HtmlMid|..], caller))
      else None
  }

  /** The first piece of a split is the text before the first separator. */
  lemma {:induction false} SplitFirstPiece(s: string, c: char)
    ensures HasPrefix(s, Split(s, c)[0])
    ensures c !in Split(s, c)[0]
    ensures |Split(s, c)[0]| < |s| ==> s[|Split(s, c)[0]|] == c
    decreases |s|
  {
    if s != [] {
      SplitFirstPiece(s[1..], c);
    }
  }

  /** The text between the wrapper's ends splits back into the table name and the item. */
  lemma ParseBody(body: string, input: string, caller: string)
    requires '\'' !in caller
    requires body == caller + HtmlMid + input
    ensures Split(body, '\'')[0] == caller
    ensures |caller| + |HtmlMid| <= |body|
    ensures body[|caller|..|caller| + |HtmlMid|] == HtmlMid
    ensures body[|caller| + |HtmlMid|..] == input
  {
    assert body == caller + ['\''] + (">" + input);
    SplitAfterFirst(caller, '\'', ">" + input);
  }

  /** The HTML wrapper loses nothing: the item and a quote-free table name can be read back. */
  lemma HtmlRoundTrip(input: string, caller: string)
    requires '\'' !in caller
    ensures ParseHtml(Format(HtmlFormatter, input, caller)) == Some((input, caller))
  {
    var s := Format(HtmlFormatter, input, caller);
    var body := caller + HtmlMid + input;
    assert s == HtmlOpen + body + HtmlClose;
    assert s[|HtmlOpen|..|s| - |HtmlClose|] == body;
    ParseBody(body, input, caller);
  }

  /** A parsed item formats back to the text it was read from. */
  lemma FormatParsed(s: string)
    requires ParseHtml(s).Some?
    ensures Format(HtmlFormatter, ParseHtml(s).value.0, ParseHtml(s).value.1) == s
  {
    var body := s[|HtmlOpen|..|s| - |HtmlClose|];
    var caller := Split(body, '\'')[0];
    SplitFirstPiece(body, '\'');
    assert body == caller + HtmlMid + body[|caller| + |HtmlMid|..];
    assert s == HtmlOpen + body + HtmlClose;
  }

  lemma HtmlExample()
    ensures Format(HtmlFormatter, "one", "two") == "<RandomElement table='two'>one</RandomElement>"
  {
  }
}
