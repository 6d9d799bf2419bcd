/**
 * The markdown link dialog: the link text built from the url, text and
 * title fields, when the OK button is enabled, what the dialog returns and
 * which part of the url is selected when the dialog opens.
 */
module LinkDialog {
  import opened Wrappers
  import opened JavaText

  /** The escaped texts of the three fields. */
  datatype LinkFields = LinkFields(url: string, text: string, title: string)

  /**
   * The `link` binding: [text](url "title") when there is a title (even
   * with an empty text), [text](url) when there is only a text, and <url>
   * when both are empty.
   */
  function Link(f: LinkFields): string {
    if f.title != [] then "[" + f.text + "](" + f.url + " \"" + f.title + "\")"
    else if f.text != [] then "[" + f.text + "](" + f.url + ")"
    else "<" + f.url + ">"
  }

  /** The characters each field escapes: "()" in the url and "[]" in the text; the title field sets none. */
  const UrlEscapes: string := "()"
  const TextEscapes: string := "[]"
  const TitleEscapes: string := ""

  /**
   * The link for the raw field texts, given the fields' escaping
   * (`escape(s, chars)` is what an EscapeTextField with escape characters
   * `chars` shows as escaped text for `s`).
   */
  function LinkOf(escape: (string, string) -> string, url: string, text: string, title: string): string {
    Link(LinkFields(escape(url, UrlEscapes), escape(text, TextEscapes), escape(title, TitleEscapes)))
  }

  /**
   * The dialog's link reads back as the three escaped field texts, each
   * escaped with its own field's characters.
   */
  lemma LinkOfFields(escape: (string, string) -> string, url: string, text: string, title: string)
    requires ']' !in escape(text, TextEscapes) && ' ' !in escape(url, UrlEscapes)
    ensures ParseLink(LinkOf(escape, url, text, title)) ==
      Some(LinkFields(escape(url, UrlEscapes), escape(text, TextEscapes), escape(title, TitleEscapes)))
  {
    ParseLinkOfLink(LinkFields(escape(url, UrlEscapes), escape(text, TextEscapes), escape(title, TitleEscapes)));
  }

  /** Reads a link back into its fields: the inverse of Link. */
  function ParseLink(s: string): Option<LinkFields> {
    if |s| >= 2 && s[0] == '<' && s[|s| - 1] == '>' then
      Some(LinkFields(s[1..|s| - 1], [], []))
    else if |s| >= 4 && s[0] == '[' && s[|s| - 1] == ')' && ']' in s then
      var close := IndexOf(s, ']');
      var text := s[1..close];
      if close + 1 < |s| - 1 && s[close + 1] == '(' then
        ParseTarget(text, s[close + 2..|s| - 1])
      else None
    else None
  }

  /** The part between "(" and ")": a url, then optionally a space and a quoted title. */
  function ParseTarget(text: string, target: string): Option<LinkFields> {
    if ' ' in target then
      var space := IndexOf(target, ' ');
      var quoted := target[space + 1..];
      if |quoted| >= 3 && quoted[0] == '"' && quoted[|quoted| - 1] == '"' then
        Some(LinkFields(target[..space], text, quoted[1..|quoted| - 1]))
      else None
    else if text != [] then Some(LinkFields(target, text, []))
    else None
  }

  /**
   * Every link the dialog builds reads back as the fields it was built
   * from, provided the text holds no ']' and the url no space; so the
   * three forms never collide.
   */
  lemma ParseLinkOfLink(f: LinkFields)
    requires ']' !in f.text && ' ' !in f.url
    ensures ParseLink(Link(f)) == Some(f)
  {
    if f.title != [] {
      var target := f.url + " \"" + f.title + "\"";
      assert Link(f) == "[" + f.text + "](" + target + ")";
      BracketedLink(f.text, target);
      TitledTarget(f.url, f.text, f.title);
    } else if f.text != [] {
      BracketedLink(f.text, f.url);
      assert ' ' !in f.url;
    } else {
      AngleLink(f.url);
    }
  }

  lemma AngleLink(url: string)
    ensures ParseLink("<" + url + ">") == Some(LinkFields(url, [], []))
  {
    var s := "<" + url + ">";
    assert s[1..|s| - 1] == url;
  }

  /** "[text](target)" is read as the text and what ParseTarget makes of the target. */
  lemma BracketedLink(text: string, target: string)
    requires ']' !in text
    ensures ParseLink("[" + text + "](" + target + ")") == ParseTarget(text, target)
  {
    var s := "[" + text + "](" + target + ")";
    assert s[|text| + 1] == ']';
    assert s[..|text| + 1] == "[" + text;
    IndexOfAt(s, ']', |text| + 1);
    assert s[1..|text| + 1] == text;
    assert s[|text| + 3..|s| - 1] == target;
  }

  /** `url "title"` splits at the url's end when the url holds no space. */
  lemma TitledTarget(url: string, text: string, title: string)
    requires ' ' !in url && title != []
    ensures ParseTarget(text, url + " \"" + title + "\"") == Some(LinkFields(url, text, title))
  {
    var target := url + " \"" + title + "\"";
    assert target[|url|] == ' ';
    assert target[..|url|] == url;
    IndexOfAt(target, ' ', |url|);
    var quoted := target[|url| + 1..];
    assert quoted == "\"" + title + "\"";
    assert quoted[1..|quoted| - 1] == title;
  }

  /** The OK button is disabled while the escaped url is empty. */
  predicate OkDisabled(escapedUrl: string) {
    escapedUrl == []
  }

  datatype Button = OkButton | CancelButton

  /**
   * The result converter: the link when OK was pressed, null (None)
   * otherwise. OK can only be pressed while it is enabled.
   */
  function DialogResult(button: Button, f: LinkFields): (r: Option<string>)
    requires button == OkButton ==> !OkDisabled(f.url)
  {
    if button == OkButton then Some(Link(f)) else None
  }

  /**
   * The dialog yields a link only through OK, and that link always carries
   * the non-empty url it was built from.
   */
  lemma DialogResultHasUrl(button: Button, f: LinkFields)
    requires button == OkButton ==> !OkDisabled(f.url)
    requires ']' !in f.text && ' ' !in f.url
    ensures DialogResult(button, f).Some? <==> button == OkButton
    ensures DialogResult(button, f).Some? ==>
      ParseLink(DialogResult(button, f).value) == Some(f) && f.url != []
  {
    if button == OkButton {
      ParseLinkOfLink(f);
    }
  }

  const HttpsPrefix: string := "https://"

  /** The url field's initial text. */
  const DefaultUrl: string := "https://yourlink.com"

  /**
   * The selection made when the dialog opens: a url starting with
   * "https://" gets everything after the scheme selected, any other url no
   * selection.
   */
  function InitialSelection(urlText: string): (r: Option<(int, int)>)
    ensures r.Some? <==> StartsWith(urlText, HttpsPrefix)
    ensures r.Some? ==>
      (0 <= r.value.0 <= r.value.1 == |urlText| && urlText == HttpsPrefix + urlText[r.value.0..r.value.1])
  {
    if StartsWith(urlText, HttpsPrefix) then
      assert urlText == urlText[..|HttpsPrefix|] + urlText[|HttpsPrefix|..];
      Some((|HttpsPrefix|, |urlText|))
    else None
  }

  /** The default url opens with "yourlink.com" selected. */
  lemma DefaultUrlSelection()
    ensures InitialSelection(DefaultUrl) == Some((8, 20))
  {
    assert DefaultUrl[..8] == HttpsPrefix;
  }
}
