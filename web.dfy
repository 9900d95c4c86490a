/** The pure parts of the web mirror (`src/web.rs`): HTML escaping, the plain-text
    to HTML conversion of message bodies, the fingerprint of what the mirror shows,
    the rule that emits an event only when the fingerprint changes, and the JSON
    record of the current message. */
module Web {
  import opened Wrappers
  import opened Text
  import opened Mail
  import opened App

  // ----- escape_html -----

  /** `escape_html`: five replacement passes, `&` first. */
  function EscapeHtml(s: string): string {
    ReplaceChar(ReplaceChar(ReplaceChar(ReplaceChar(ReplaceChar(s, '&', "&amp;"), '<', "&lt;"), '>', "&gt;"), '"', "&quot;"), '\'', "&#x27;")
  }

  /** The entity for one of the five characters, any other character itself. */
  function EscapeChar(c: char): string {
    if c == '&' then "&amp;"
    else if c == '<' then "&lt;"
    else if c == '>' then "&gt;"
    else if c == '"' then "&quot;"
    else if c == '\'' then "&#x27;"
    else [c]
  }

  /** The reference: each character escaped on its own. */
  function EscapeEach(s: string): string {
    if s == [] then "" else EscapeChar(s[0]) + EscapeEach(s[1..])
  }

  predicate IsSpecial(c: char) {
    c == '&' || c == '<' || c == '>' || c == '"' || c == '\''
  }

  /** A character the escaped text never holds raw. */
  predicate IsMarkup(c: char) {
    c == '<' || c == '>' || c == '"' || c == '\''
  }

  lemma EscapeHtmlAppend(a: string, b: string)
    ensures EscapeHtml(a + b) == EscapeHtml(a) + EscapeHtml(b)
  {
    var a1, b1 := ReplaceChar(a, '&', "&amp;"), ReplaceChar(b, '&', "&amp;");
    ReplaceCharAppend(a, b, '&', "&amp;");
    var a2, b2 := ReplaceChar(a1, '<', "&lt;"), ReplaceChar(b1, '<', "&lt;");
    ReplaceCharAppend(a1, b1, '<', "&lt;");
    var a3, b3 := ReplaceChar(a2, '>', "&gt;"), ReplaceChar(b2, '>', "&gt;");
    ReplaceCharAppend(a2, b2, '>', "&gt;");
    var a4, b4 := ReplaceChar(a3, '"', "&quot;"), ReplaceChar(b3, '"', "&quot;");
    ReplaceCharAppend(a3, b3, '"', "&quot;");
    ReplaceCharAppend(a4, b4, '\'', "&#x27;");
  }

  lemma ReplaceCharSingle(x: char, c: char, rep: string)
    ensures ReplaceChar([x], c, rep) == if x == c then rep else [x]
  {
    assert [x][1..] == [];
  }
  /** The passes after the one that inserts an entity leave it alone. */
  lemma AmpStays(k: char, rep: string)
    requires k == '<' || k == '>' || k == '"' || k == '\''
    ensures ReplaceChar("&amp;", k, rep) == "&amp;"
  {
    var e := "&amp;";
    assert e[0] == '&' && e[1] == 'a' && e[2] == 'm' && e[3] == 'p' && e[4] == ';';
    ReplaceCharAbsent(e, k, rep);
  }

  lemma LtStays(k: char, rep: string)
    requires k == '>' || k == '"' || k == '\''
    ensures ReplaceChar("&lt;", k, rep) == "&lt;"
  {
    var e := "&lt;";
    assert e[0] == '&' && e[1] == 'l' && e[2] == 't' && e[3] == ';';
    ReplaceCharAbsent(e, k, rep);
  }

  lemma GtStays(k: char, rep: string)
    requires k == '"' || k == '\''
    ensures ReplaceChar("&gt;", k, rep) == "&gt;"
  {
    var e := "&gt;";
    assert e[0] == '&' && e[1] == 'g' && e[2] == 't' && e[3] == ';';
    ReplaceCharAbsent(e, k, rep);
  }

  lemma QuotStays(rep: string)
    ensures ReplaceChar("&quot;", '\'', rep) == "&quot;"
  {
    var e := "&quot;";
    assert e[0] == '&' && e[1] == 'q' && e[2] == 'u' && e[3] == 'o' && e[4] == 't' && e[5] == ';';
    ReplaceCharAbsent(e, '\'', rep);
  }

  lemma EscapeAmp()
    ensures EscapeHtml("&") == "&amp;"
  {
    ReplaceCharSingle('&', '&', "&amp;");
    AmpStays('<', "&lt;");
    AmpStays('>', "&gt;");
    AmpStays('"', "&quot;");
    AmpStays('\'', "&#x27;");
  }

  lemma EscapeLt()
    ensures EscapeHtml("<") == "&lt;"
  {
    ReplaceCharSingle('<', '&', "&amp;");
    ReplaceCharSingle('<', '<', "&lt;");
    LtStays('>', "&gt;");
    LtStays('"', "&quot;");
    LtStays('\'', "&#x27;");
  }

  lemma EscapeGt()
    ensures EscapeHtml(">") == "&gt;"
  {
    ReplaceCharSingle('>', '&', "&amp;");
    ReplaceCharSingle('>', '<', "&lt;");
    ReplaceCharSingle('>', '>', "&gt;");
    GtStays('"', "&quot;");
    GtStays('\'', "&#x27;");
  }

  lemma EscapeQuot()
    ensures EscapeHtml("\"") == "&quot;"
  {
    ReplaceCharSingle('"', '&', "&amp;");
    ReplaceCharSingle('"', '<', "&lt;");
    ReplaceCharSingle('"', '>', "&gt;");
    ReplaceCharSingle('"', '"', "&quot;");
    QuotStays("&#x27;");
  }

  lemma EscapeApos()
    ensures EscapeHtml("'") == "&#x27;"
  {
    ReplaceCharSingle('\'', '&', "&amp;");
    ReplaceCharSingle('\'', '<', "&lt;");
    ReplaceCharSingle('\'', '>', "&gt;");
    ReplaceCharSingle('\'', '"', "&quot;");
    ReplaceCharSingle('\'', '\'', "&#x27;");
  }

  lemma EscapeHtmlChar(c: char)
    ensures EscapeHtml([c]) == EscapeChar(c)
  {
    if c == '&' { EscapeAmp(); }
    else if c == '<' { EscapeLt(); }
    else if c == '>' { EscapeGt(); }
    else if c == '"' { EscapeQuot(); }
    else if c == '\'' { EscapeApos(); }
    else {
      ReplaceCharSingle(c, '&', "&amp;");
      ReplaceCharSingle(c, '<', "&lt;");
      ReplaceCharSingle(c, '>', "&gt;");
      ReplaceCharSingle(c, '"', "&quot;");
      ReplaceCharSingle(c, '\'', "&#x27;");
    }
  }
  /** The chain of passes escapes each character on its own: since `&` goes first,
      no entity a later pass inserts is escaped again. */
  lemma {:induction false} EscapeHtmlIsPerChar(s: string)
    ensures EscapeHtml(s) == EscapeEach(s)
  {
    if s == [] {
    } else {
      assert s == [s[0]] + s[1..];
      EscapeHtmlAppend([s[0]], s[1..]);
      EscapeHtmlChar(s[0]);
      EscapeHtmlIsPerChar(s[1..]);
    }
  }

  lemma {:induction false} EscapeEachIdentity(s: string)
    requires forall i :: 0 <= i < |s| ==> !IsSpecial(s[i])
    ensures EscapeEach(s) == s
  {
    if s != [] {
      EscapeEachIdentity(s[1..]);
    }
  }

  /** Text without any of the five characters is left alone. */
  lemma EscapeHtmlIdentity(s: string)
    requires forall i :: 0 <= i < |s| ==> !IsSpecial(s[i])
    ensures EscapeHtml(s) == s
  {
    EscapeHtmlIsPerChar(s);
    EscapeEachIdentity(s);
  }

  lemma {:induction false} EscapeEachHasNoMarkup(s: string)
    ensures forall i :: 0 <= i < |EscapeEach(s)| ==> !IsMarkup(EscapeEach(s)[i])
  {
    if s != [] {
      EscapeEachHasNoMarkup(s[1..]);
      var h := EscapeChar(s[0]);
      assert forall i :: 0 <= i < |h| ==> !IsMarkup(h[i]);
      forall i | 0 <= i < |EscapeEach(s)|
        ensures !IsMarkup(EscapeEach(s)[i])
      {
        if i >= |h| {
          assert EscapeEach(s)[i] == EscapeEach(s[1..])[i - |h|];
        }
      }
    }
  }

  /** The escaped text holds no raw `<`, `>`, `"` or `'`. */
  lemma EscapeHtmlHasNoMarkup(s: string)
    ensures forall i :: 0 <= i < |EscapeHtml(s)| ==> !IsMarkup(EscapeHtml(s)[i])
  {
    EscapeHtmlIsPerChar(s);
    EscapeEachHasNoMarkup(s);
  }

  /** Decoding the five entities, the other characters kept as they are. */
  function UnescapeHtml(s: string): string
    decreases |s|
  {
    if s == [] then ""
    else if StartsWith(s, "&amp;") then "&" + UnescapeHtml(s[5..])
    else if StartsWith(s, "&lt;") then "<" + UnescapeHtml(s[4..])
    else if StartsWith(s, "&gt;") then ">" + UnescapeHtml(s[4..])
    else if StartsWith(s, "&quot;") then "\"" + UnescapeHtml(s[6..])
    else if StartsWith(s, "&#x27;") then "'" + UnescapeHtml(s[6..])
    else [s[0]] + UnescapeHtml(s[1..])
  }

  lemma UnescapePlain(c: char, rest: string)
    requires c != '&'
    ensures UnescapeHtml([c] + rest) == [c] + UnescapeHtml(rest)
  {
    var s := [c] + rest;
    assert s[0] == c && s[1..] == rest;
    FirstCharDiffers(s, "&amp;");
    FirstCharDiffers(s, "&lt;");
    FirstCharDiffers(s, "&gt;");
    FirstCharDiffers(s, "&quot;");
    FirstCharDiffers(s, "&#x27;");
  }

  lemma UnescapeEntity(entity: string, c: char, rest: string)
    requires (entity, c) in {("&amp;", '&'), ("&lt;", '<'), ("&gt;", '>'), ("&quot;", '"'), ("&#x27;", '\'')}
    ensures UnescapeHtml(entity + rest) == [c] + UnescapeHtml(rest)
  {
    var s := entity + rest;
    assert s[..|entity|] == entity && s[|entity|..] == rest;
    assert s[1] == entity[1] && s[2] == entity[2];
  }

  lemma UnescapeChar(c: char, rest: string)
    ensures UnescapeHtml(EscapeChar(c) + rest) == [c] + UnescapeHtml(rest)
  {
    if c == '&' { UnescapeEntity("&amp;", c, rest); }
    else if c == '<' { UnescapeEntity("&lt;", c, rest); }
    else if c == '>' { UnescapeEntity("&gt;", c, rest); }
    else if c == '"' { UnescapeEntity("&quot;", c, rest); }
    else if c == '\'' { UnescapeEntity("&#x27;", c, rest); }
    else { UnescapePlain(c, rest); }
  }

  lemma {:induction false} UnescapeEachOf(s: string)
    ensures UnescapeHtml(EscapeEach(s)) == s
  {
    if s != [] {
      UnescapeChar(s[0], EscapeEach(s[1..]));
      UnescapeEachOf(s[1..]);
      assert s == [s[0]] + s[1..];
    }
  }

  /** Escaping loses nothing: decoding the entities gives the text back. */
  lemma UnescapeEscape(s: string)
    ensures UnescapeHtml(EscapeHtml(s)) == s
  {
    EscapeHtmlIsPerChar(s);
    UnescapeEachOf(s);
  }

  lemma {:induction false} EscapeEachAppend(a: string, b: string)
    ensures EscapeEach(a + b) == EscapeEach(a) + EscapeEach(b)
  {
    if a != [] {
      assert (a + b)[0] == a[0] && (a + b)[1..] == a[1..] + b;
      EscapeEachAppend(a[1..], b);
    } else {
      assert a + b == b;
    }
  }

  // ----- markdown_to_html -----

  /** How `markdown_to_html` reads one trimmed line, in the order of its tests. */
  datatype LineKind = Blank | HeadingLine(level: nat, text: string) | ItemLine(text: string) | TextLine(text: string)

  function Classify(t: string): (k: LineKind)
    ensures k.Blank? <==> t == []
    ensures k.HeadingLine? ==> 1 <= k.level <= 3 && t == Repeat("#", k.level) + " " + k.text
    ensures k.ItemLine? ==> (t == "- " + k.text || t == "* " + k.text)
    ensures k.TextLine? ==> k.text == t
  {
    if t == [] then Blank
    else if StartsWith(t, "# ") then HeadingLine(1, t[2..])
    else if StartsWith(t, "## ") then HeadingLine(2, t[3..])
    else if StartsWith(t, "### ") then HeadingLine(3, t[4..])
    else if StartsWith(t, "- ") || StartsWith(t, "* ") then ItemLine(t[2..])
    else TextLine(t)
  }

  /** The HTML of a heading or an item line. */
  function BlockHtml(k: LineKind): string {
    match k
    case HeadingLine(n, text) =>
      var tag := if n == 1 then "h1" else if n == 2 then "h2" else "h3";
      "<" + tag + ">" + EscapeHtml(text) + "</" + tag + ">\n"
    case ItemLine(text) => "<ul><li>" + EscapeHtml(text) + "</li></ul>\n"
    case _ => ""
  }

  function Close(inParagraph: bool): string {
    if inParagraph then "</p>\n" else ""
  }

  /** What the loop appends for one line of kind `k`. */
  function LineHtml(k: LineKind, inParagraph: bool): string {
    match k
    case Blank => Close(inParagraph)
    case TextLine(t) => (if inParagraph then "<br>" else "<p>") + EscapeHtml(t)
    case _ => Close(inParagraph) + BlockHtml(k)
  }

  /** `str::trim` of every line. */
  function TrimAll(lines: seq<string>): (r: seq<string>)
    ensures |r| == |lines|
  {
    if lines == [] then [] else [Trim(lines[0])] + TrimAll(lines[1..])
  }

  lemma {:induction false} TrimAllAt(lines: seq<string>, i: nat)
    requires i < |lines|
    ensures TrimAll(lines)[i] == Trim(lines[i])
  {
    if i > 0 {
      TrimAllAt(lines[1..], i - 1);
    }
  }

  /** The rendering of the trimmed lines left, `inParagraph` telling whether a `<p>`
      is open; only a text line leaves one open. */
  function MdFrom(lines: seq<string>, inParagraph: bool): string
    decreases |lines|
  {
    if lines == [] then Close(inParagraph)
    else
      var k := Classify(lines[0]);
      LineHtml(k, inParagraph) + MdFrom(lines[1..], k.TextLine?)
  }

  /** What `markdown_to_html` yields for a body. */
  function MarkdownHtml(md: string): string {
    MdFrom(TrimAll(Lines(md)), false)
  }

  lemma MdFromStep(lines: seq<string>, i: nat, done: string, chunk: string, open: bool)
    requires i < |lines| && done + MdFrom(lines[i..], open) == MdFrom(lines, false)
    requires chunk == LineHtml(Classify(lines[i]), open)
    ensures (done + chunk) + MdFrom(lines[i + 1..], Classify(lines[i]).TextLine?) == MdFrom(lines, false)
  {
    assert lines[i..][0] == lines[i] && lines[i..][1..] == lines[i + 1..];
  }

  /** The body of the loop of `markdown_to_html`: what one trimmed line pushes onto
      the output, and whether a paragraph is open afterwards. */
  method LineStep(trimmed: string, inParagraph: bool) returns (chunk: string, open: bool)
    ensures chunk == LineHtml(Classify(trimmed), inParagraph)
    ensures open == Classify(trimmed).TextLine?
  {
    var kind := Classify(trimmed);
    chunk := "";
    open := inParagraph;
    match kind {
      case Blank =>
        if open {
          chunk := "</p>\n";
          open := false;
        }
      case TextLine(t) =>
        if !open {
          chunk := "<p>";
          open := true;
        } else {
          chunk := "<br>";
        }
        chunk := chunk + EscapeHtml(t);
      case _ =>
        if open {
          chunk := "</p>\n";
          open := false;
        }
        chunk := chunk + BlockHtml(kind);
    }
  }

  /** `markdown_to_html` */
  method MarkdownToHtml(md: string) returns (html: string)
    ensures html == MarkdownHtml(md)
  {
    html := "";
    var lines := Lines(md);
    ghost var trimmed := TrimAll(lines);
    var inParagraph := false;
    var i := 0;
    assert trimmed[i..] == trimmed;
    while i < |lines|
      invariant 0 <= i <= |lines|
      invariant html + MdFrom(trimmed[i..], inParagraph) == MdFrom(trimmed, false)
    {
      TrimAllAt(lines, i);
      ghost var wasOpen := inParagraph;
      var chunk;
      chunk, inParagraph := LineStep(Trim(lines[i]), inParagraph);
      MdFromStep(trimmed, i, html, chunk, wasOpen);
      html := html + chunk;
      i := i + 1;
    }
    assert trimmed[i..] == [];
    html := html + Close(inParagraph);
  }

  /** The blocks of a body, the reference the conversion is measured against. */
  datatype Block = Heading(level: nat, text: string) | Item(text: string) | Paragraph(lines: seq<string>)

  /** A pending paragraph becomes a block, an empty one none. */
  function Flush(cur: seq<string>): seq<Block> {
    if cur == [] then [] else [Paragraph(cur)]
  }

  /** The blocks of the trimmed lines left, `cur` the lines of the open paragraph. */
  function BlocksFrom(lines: seq<string>, cur: seq<string>): seq<Block>
    decreases |lines|
  {
    if lines == [] then Flush(cur)
    else
      var k := Classify(lines[0]);
      if k.TextLine? then BlocksFrom(lines[1..], cur + [k.text])
      else Flush(cur) + LineBlocks(k) + BlocksFrom(lines[1..], [])
  }

  /** The block a heading or an item line stands for; a blank line has none. */
  function LineBlocks(k: LineKind): seq<Block> {
    match k
    case HeadingLine(n, t) => [Heading(n, t)]
    case ItemLine(t) => [Item(t)]
    case _ => []
  }

  function EscapeAll(ls: seq<string>): (r: seq<string>)
    ensures |r| == |ls|
  {
    if ls == [] then [] else [EscapeHtml(ls[0])] + EscapeAll(ls[1..])
  }

  lemma {:induction false} EscapeAllSnoc(ls: seq<string>, t: string)
    ensures EscapeAll(ls + [t]) == EscapeAll(ls) + [EscapeHtml(t)]
  {
    if ls == [] {
      assert ls + [t] == [t];
    } else {
      assert (ls + [t])[1..] == ls[1..] + [t];
      EscapeAllSnoc(ls[1..], t);
    }
  }

  /** A block as HTML: every paragraph closed, its lines joined by `<br>`. */
  function RenderBlock(b: Block): string {
    match b
    case Heading(n, t) => BlockHtml(HeadingLine(n, t))
    case Item(t) => BlockHtml(ItemLine(t))
    case Paragraph(ls) => "<p>" + Join(EscapeAll(ls), "<br>") + "</p>\n"
  }

  function Render(bs: seq<Block>): string {
    if bs == [] then "" else RenderBlock(bs[0]) + Render(bs[1..])
  }

  lemma {:induction false} RenderAppend(a: seq<Block>, b: seq<Block>)
    ensures Render(a + b) == Render(a) + Render(b)
  {
    if a != [] {
      assert (a + b)[0] == a[0] && (a + b)[1..] == a[1..] + b;
      RenderAppend(a[1..], b);
    } else {
      assert a + b == b;
    }
  }

  /** The text the open paragraph `cur` has produced so far. */
  function Opened(cur: seq<string>): string {
    if cur == [] then "" else "<p>" + Join(EscapeAll(cur), "<br>")
  }

  lemma FlushRender(cur: seq<string>)
    ensures Render(Flush(cur)) == Opened(cur) + Close(cur != [])
  {
  }

  /** The blocks after a closing line: the pending paragraph, then the blocks `bs`
      of the line itself, then those of the rest. */
  lemma RenderClosed(cur: seq<string>, bs: seq<Block>, rest: seq<Block>, h: string, m: string)
    requires Render(bs) == h && Render(rest) == m
    ensures Render(Flush(cur) + bs + rest) == Opened(cur) + (Close(cur != []) + h + m)
  {
    var o, c := Opened(cur), Close(cur != []);
    FlushRender(cur);
    RenderAppend(Flush(cur) + bs, rest);
    RenderAppend(Flush(cur), bs);
    AppendAssoc(o + c, h, m);
    AppendAssoc(o, c, h + m);
    AppendAssoc(c, h, m);
  }

  /** A blank line, a heading or an item closes the open paragraph. */
  lemma RendersClosingLine(lines: seq<string>, cur: seq<string>)
    requires lines != [] && !Classify(lines[0]).TextLine?
    requires MdFrom(lines[1..], false) == Render(BlocksFrom(lines[1..], []))
    ensures Opened(cur) + MdFrom(lines, cur != []) == Render(BlocksFrom(lines, cur))
  {
    var k := Classify(lines[0]);
    assert MdFrom(lines, cur != []) == Close(cur != []) + BlockHtml(k) + MdFrom(lines[1..], false);
    assert Render(LineBlocks(k)) == BlockHtml(k);
    RenderClosed(cur, LineBlocks(k), BlocksFrom(lines[1..], []), BlockHtml(k), MdFrom(lines[1..], false));
  }

  /** A text line joins the open paragraph after a `<br>`, or opens one. */
  lemma OpenedSnoc(cur: seq<string>, t: string)
    ensures Opened(cur + [t]) == Opened(cur) + (if cur != [] then "<br>" else "<p>") + EscapeHtml(t)
  {
    EscapeAllSnoc(cur, t);
    if cur != [] {
      JoinSnoc(EscapeAll(cur), EscapeHtml(t), "<br>");
      AppendAssoc("<p>" + Join(EscapeAll(cur), "<br>"), "<br>", EscapeHtml(t));
    } else {
      assert cur + [t] == [t];
    }
  }

  lemma RendersTextLine(lines: seq<string>, cur: seq<string>, t: string)
    requires lines != [] && Classify(lines[0]) == TextLine(t)
    requires Opened(cur + [t]) + MdFrom(lines[1..], true) == Render(BlocksFrom(lines[1..], cur + [t]))
    ensures Opened(cur) + MdFrom(lines, cur != []) == Render(BlocksFrom(lines, cur))
  {
    var o, lead, e, m := Opened(cur), (if cur != [] then "<br>" else "<p>"), EscapeHtml(t), MdFrom(lines[1..], true);
    assert MdFrom(lines, cur != []) == lead + e + m;
    assert BlocksFrom(lines, cur) == BlocksFrom(lines[1..], cur + [t]);
    OpenedSnoc(cur, t);
    AppendAssoc(o + lead, e, m);
    AppendAssoc(o, lead, e + m);
    AppendAssoc(lead, e, m);
  }

  /** The conversion renders the blocks of the body: a line-by-line loop with an
      open-paragraph flag produces exactly the closed paragraphs, headings and items
      of the block reading, the pending paragraph `cur` included. */
  lemma {:induction false} MdFromRendersBlocks(lines: seq<string>, cur: seq<string>)
    ensures Opened(cur) + MdFrom(lines, cur != []) == Render(BlocksFrom(lines, cur))
    decreases |lines|
  {
    if lines == [] {
      FlushRender(cur);
    } else {
      match Classify(lines[0]) {
        case TextLine(t) =>
          MdFromRendersBlocks(lines[1..], cur + [t]);
          RendersTextLine(lines, cur, t);
        case _ =>
          MdFromRendersBlocks(lines[1..], []);
          RendersClosingLine(lines, cur);
      }
    }
  }

  /** Every paragraph of the block reading holds at least one line. */
  lemma {:induction false} ParagraphsNonEmpty(lines: seq<string>, cur: seq<string>)
    ensures forall b :: b in BlocksFrom(lines, cur) && b.Paragraph? ==> b.lines != []
    decreases |lines|
  {
    if lines != [] {
      ParagraphsNonEmpty(lines[1..], []);
      ParagraphsNonEmpty(lines[1..], cur + [lines[0]]);
    }
  }

  /** The conversion of a body is the rendering of its blocks. */
  lemma MarkdownHtmlIsRender(md: string)
    ensures MarkdownHtml(md) == Render(BlocksFrom(TrimAll(Lines(md)), []))
  {
    MdFromRendersBlocks(TrimAll(Lines(md)), []);
  }

  /** A line that starts with neither `#`, `-` nor `*` is paragraph text. */
  lemma ClassifyPlain(t: string)
    requires t != [] && t[0] != '#' && t[0] != '-' && t[0] != '*'
    ensures Classify(t) == TextLine(t)
  {
    assert !StartsWith(t, "# ") && !StartsWith(t, "## ") && !StartsWith(t, "### ");
    assert !StartsWith(t, "- ") && !StartsWith(t, "* ");
  }

  lemma BlocksFromText(line: string, rest: seq<string>, cur: seq<string>)
    requires Classify(line).TextLine?
    ensures BlocksFrom([line] + rest, cur) == BlocksFrom(rest, cur + [line])
  {
    assert ([line] + rest)[0] == line && ([line] + rest)[1..] == rest;
  }

  lemma BlocksFromClosing(line: string, rest: seq<string>, cur: seq<string>)
    requires !Classify(line).TextLine?
    ensures BlocksFrom([line] + rest, cur) == Flush(cur) + LineBlocks(Classify(line)) + BlocksFrom(rest, [])
  {
    assert ([line] + rest)[0] == line && ([line] + rest)[1..] == rest;
  }

  lemma ClassifyHeadings()
    ensures Classify("# Title") == HeadingLine(1, "Title")
    ensures Classify("## Subtitle") == HeadingLine(2, "Subtitle")
  {
    var l0, l3 := "# Title", "## Subtitle";
    assert l0[..2] == "# " && l0[2..] == "Title";
    assert l3[1] == '#' && l3[..3] == "## " && l3[3..] == "Subtitle";
  }

  /** A heading or an item followed by a last text line. */
  lemma ClosingThenText(l: string, t: string)
    requires !Classify(l).TextLine? && Classify(t).TextLine?
    ensures BlocksFrom([l, t], []) == LineBlocks(Classify(l)) + [Paragraph([t])]
  {
    var e: seq<string> := [];
    BlocksFromText(t, e, e);
    assert [t] + e == [t] && e + [t] == [t];
    assert BlocksFrom([t], e) == [Paragraph([t])];
    BlocksFromClosing(l, [t], e);
    assert [l] + [t] == [l, t];
  }

  /** A text line ended by a blank line is a paragraph of its own. */
  lemma TextThenBlank(t: string, rest: seq<string>)
    requires Classify(t).TextLine?
    ensures BlocksFrom([t, ""] + rest, []) == [Paragraph([t])] + BlocksFrom(rest, [])
  {
    var e: seq<string> := [];
    BlocksFromClosing("", rest, [t]);
    assert LineBlocks(Classify("")) == [];
    BlocksFromText(t, [""] + rest, e);
    assert e + [t] == [t];
    assert [t] + ([""] + rest) == [t, ""] + rest;
  }

  /** Heading, text, blank, heading, text: two headings each followed by a paragraph. */
  lemma HeadingsWithParagraphs(l0: string, l1: string, l3: string, l4: string)
    requires !Classify(l0).TextLine? && Classify(l1).TextLine?
    requires !Classify(l3).TextLine? && Classify(l4).TextLine?
    ensures BlocksFrom([l0, l1, "", l3, l4], [])
         == LineBlocks(Classify(l0)) + [Paragraph([l1])] + LineBlocks(Classify(l3)) + [Paragraph([l4])]
  {
    var e: seq<string> := [];
    var rest := [l3, l4];
    var mid := [l1, ""] + rest;
    var all := [l0] + mid;
    assert all == [l0, l1, "", l3, l4];
    var b0, b3 := LineBlocks(Classify(l0)), LineBlocks(Classify(l3));
    ClosingThenText(l3, l4);
    assert BlocksFrom(rest, e) == b3 + [Paragraph([l4])];
    TextThenBlank(l1, rest);
    assert BlocksFrom(mid, e) == [Paragraph([l1])] + (b3 + [Paragraph([l4])]);
    BlocksFromClosing(l0, mid, e);
    assert Flush(e) == [];
    assert BlocksFrom(all, e) == b0 + ([Paragraph([l1])] + (b3 + [Paragraph([l4])]));
  }

  /** The lines of `test_markdown_to_html`, each already trimmed: a heading, a
      paragraph, a blank line, a heading and a paragraph. */
  lemma MarkdownExample()
    ensures BlocksFrom(["# Title", "This is a paragraph.", "", "## Subtitle", "Another paragraph."], [])
         == [Heading(1, "Title"), Paragraph(["This is a paragraph."]), Heading(2, "Subtitle"), Paragraph(["Another paragraph."])]
  {
    ClassifyHeadings();
    ClassifyPlain("This is a paragraph.");
    ClassifyPlain("Another paragraph.");
    HeadingsWithParagraphs("# Title", "This is a paragraph.", "## Subtitle", "Another paragraph.");
  }

  // ----- The mirror's change detection -----

  /** The identifier of what the mirror shows: `{folder}:{message}:{has_email}`. */
  function Fingerprint(folderIndex: nat, emailIndex: nat, hasEmail: bool): string {
    NatToString(folderIndex) + ":" + NatToString(emailIndex) + ":" + (if hasEmail then "true" else "false")
  }

  /** The first `:` after a run of digits is the one that ends it. */
  lemma ColonAfterDigits(d: string, r: string)
    requires AllDigits(d)
    ensures Find(d + ":" + r, ":") == Some(|d|)
  {
    var s := d + ":" + r;
    assert s[|d|..|d| + 1] == ":";
    assert OccursAt(s, ":", |d|);
    forall j: nat | j < |d|
      ensures !OccursAt(s, ":", j)
    {
      assert s[j..j + 1][0] == s[j] == d[j];
    }
  }

  lemma SplitAtColon(d1: string, r1: string, d2: string, r2: string)
    requires AllDigits(d1) && AllDigits(d2)
    requires d1 + ":" + r1 == d2 + ":" + r2
    ensures d1 == d2 && r1 == r2
  {
    var s := d1 + ":" + r1;
    ColonAfterDigits(d1, r1);
    ColonAfterDigits(d2, r2);
    assert d1 == s[..|d1|] == d2;
    assert r1 == s[|d1| + 1..] == r2;
  }

  /** Different states give different fingerprints, so a change is always seen. */
  lemma FingerprintInjective(f1: nat, e1: nat, h1: bool, f2: nat, e2: nat, h2: bool)
    requires Fingerprint(f1, e1, h1) == Fingerprint(f2, e2, h2)
    ensures f1 == f2 && e1 == e2 && h1 == h2
  {
    var w1 := if h1 then "true" else "false";
    var w2 := if h2 then "true" else "false";
    assert Fingerprint(f1, e1, h1) == NatToString(f1) + ":" + (NatToString(e1) + ":" + w1);
    assert Fingerprint(f2, e2, h2) == NatToString(f2) + ":" + (NatToString(e2) + ":" + w2);
    SplitAtColon(NatToString(f1), NatToString(e1) + ":" + w1, NatToString(f2), NatToString(e2) + ":" + w2);
    SplitAtColon(NatToString(e1), w1, NatToString(e2), w2);
    NatToStringInjective(f1, f2);
    NatToStringInjective(e1, e2);
  }

  /** The fingerprint of an application state (reading the current message may load
      it, hence the new state). */
  function StateFingerprint(m: AppModel): (AppModel, string) {
    var (m1, e) := CurrentEmailForWeb(m);
    (m1, Fingerprint(m.selection.folderIndex, m.selection.emailIndex, e.Some?))
  }

  /** The polls that make it out as events: each differing from the previous poll. */
  function Changes(polls: seq<string>): seq<string>
    decreases |polls|
  {
    if |polls| <= 1 then polls
    else if polls[|polls| - 1] == polls[|polls| - 2] then Changes(polls[..|polls| - 1])
    else Changes(polls[..|polls| - 1]) + [polls[|polls| - 1]]
  }

  /** The loop of `email_events` over a sequence of polls: a fingerprint is emitted
      when it differs from the last one emitted (at first there is none). */
  method EmitChanges(polls: seq<string>) returns (emitted: seq<string>)
    ensures emitted == Changes(polls)
  {
    emitted := [];
    var last: Option<string> := None;
    var i := 0;
    while i < |polls|
      invariant 0 <= i <= |polls|
      invariant emitted == Changes(polls[..i])
      invariant i == 0 ==> last.None?
      invariant i > 0 ==> last == Some(polls[i - 1])
    {
      assert polls[..i + 1][..i] == polls[..i];
      if last != Some(polls[i]) {
        emitted := emitted + [polls[i]];
        last := Some(polls[i]);
      }
      i := i + 1;
    }
    assert polls[..i] == polls;
  }

  predicate NoRepeats(s: seq<string>) {
    forall i :: 0 < i < |s| ==> s[i] != s[i - 1]
  }

  /** No event repeats the one before it; the last event is the latest poll; every
      event is one of the polls, and the first poll is always emitted. */
  lemma {:induction false} ChangesProperties(polls: seq<string>)
    ensures NoRepeats(Changes(polls))
    ensures |Changes(polls)| <= |polls|
    ensures polls != [] ==> Changes(polls) != [] && Changes(polls)[|Changes(polls)| - 1] == polls[|polls| - 1]
    ensures polls != [] ==> Changes(polls)[0] == polls[0]
    ensures forall i :: 0 <= i < |Changes(polls)| ==> Changes(polls)[i] in polls
    decreases |polls|
  {
    if |polls| > 1 {
      var init := polls[..|polls| - 1];
      ChangesProperties(init);
      assert init[|init| - 1] == polls[|polls| - 2];
      assert init[0] == polls[0];
      forall x | x in init
        ensures x in polls
      {
        var k :| 0 <= k < |init| && init[k] == x;
        assert polls[k] == x;
      }
    }
  }

  /** Polling an unchanged state again emits nothing more. */
  lemma ChangesRepeatLast(polls: seq<string>)
    requires polls != []
    ensures Changes(polls + [polls[|polls| - 1]]) == Changes(polls)
  {
    var p := polls + [polls[|polls| - 1]];
    assert p[..|p| - 1] == polls;
  }

  // ----- get_current_email_json -----

  /** `AttachmentData`; the size is kept in bytes (its display text is not modelled). */
  datatype AttachmentData = AttachmentData(filename: string, contentType: string, size: nat)

  /** `EmailData` */
  datatype EmailData = EmailData(
    hasEmail: bool,
    subject: string,
    from: string,
    to: string,
    date: string,
    bodyHtml: string,
    attachments: seq<AttachmentData>,
    emailId: string)

  /** The HTML body of a message: its HTML part, else its text converted. */
  function BodyContent(e: Email): string {
    if e.bodyHtml.Some? then e.bodyHtml.value else MarkdownHtml(e.bodyText)
  }

  function AttachmentsData(atts: seq<Attachment>): (r: seq<AttachmentData>)
    ensures |r| == |atts|
    ensures forall i :: 0 <= i < |atts| ==>
              r[i] == AttachmentData(atts[i].filename, atts[i].contentType, atts[i].size)
  {
    if atts == [] then []
    else [AttachmentData(atts[0].filename, atts[0].contentType, atts[0].size)] + AttachmentsData(atts[1..])
  }

  /** `get_current_email_json` once the state is locked. */
  function CurrentEmailJson(m: AppModel): (AppModel, EmailData) {
    var (m1, e) := CurrentEmailForWeb(m);
    var id := Fingerprint(m.selection.folderIndex, m.selection.emailIndex, e.Some?);
    match e
    case None => (m1, EmailData(false, "", "", "", "", "", [], id))
    case Some(email) =>
      (m1, EmailData(true, email.headers.subject, email.headers.from, email.headers.to, email.headers.date,
                     BodyContent(email), AttachmentsData(email.attachments), id))
  }

  /** The record carries the same identifier the event stream compares, it has a
      message exactly in the views that show one, and without a message it is empty. */
  lemma {:induction false} CurrentEmailJsonAgrees(m: AppModel)
    ensures CurrentEmailJson(m).1.emailId == StateFingerprint(m).1
    ensures CurrentEmailJson(m).0 == StateFingerprint(m).0
    ensures CurrentEmailJson(m).1.hasEmail ==> m.currentView == MessagesContent || m.currentView == View.Content
    ensures !CurrentEmailJson(m).1.hasEmail ==>
              CurrentEmailJson(m).1 == EmailData(false, "", "", "", "", "", [], CurrentEmailJson(m).1.emailId)
  {
    CurrentEmailForWebOnlyWithContent(m);
  }
}
