/** The message formatter of components/ChatMessage.tsx. A message is cut
    into paragraphs at blank lines; inside a paragraph the inline markdown
    substitutions are applied, line breaks become `<br>`, and the resulting
    lines are grouped into bulleted lists, numbered lists and paragraphs of
    plain lines, which are rendered as HTML.

    The specification is `Group`, which reads the lines into blocks, and
    `RenderParts`, which prints the blocks; `FormatParagraph` is the loop of
    the component, proved to print exactly that. The inline substitutions
    (bold, italic and the three heading levels) are a parameter. */
module ChatMessage {
  import opened Text

  const Br := "<br>"
  const UlClass := " class=\"list-disc list-inside mb-4 space-y-2 pl-2\""
  const OlClass := " class=\"list-decimal list-inside mb-4 space-y-2 pl-2\""
  const LiOpen := "<li class=\"text-slate-700\">"
  const LiClose := "</li>"
  const POpen := "<p class=\"mb-4 text-slate-700 leading-relaxed\">"
  const PClose := "</p>"

  // ----- lines -----

  /** What a line is once trimmed: a bulleted item (`* ` or `- `), a
      numbered item (ASCII digits, then `. `) with its marker removed, or
      plain text. */
  datatype LineKind = Bullet(item: string) | Numbered(item: string) | Plain

  /** The tests `/^[\*\-] /` and `/^\d+\. /`, in that order, on a trimmed
      line, and the item text left once the matched marker is removed. */
  function ClassifyTrimmed(t: string): (k: LineKind)
    ensures k.Bullet? <==> |t| >= 2 && (t[0] == '*' || t[0] == '-') && t[1] == ' '
    ensures k.Bullet? ==> t == t[..2] + k.item
    ensures k.Numbered? ==> 0 < DigitRun(t) && t == t[..DigitRun(t)] + ". " + k.item
    // A line that is not a bullet and starts with digits, a dot and a space
    // is a numbered item whose text follows the marker.
    ensures !(|t| >= 2 && (t[0] == '*' || t[0] == '-') && t[1] == ' ')
      && 0 < DigitRun(t) && DigitRun(t) + 2 <= |t| && t[DigitRun(t)..DigitRun(t) + 2] == ". "
      ==> k == Numbered(t[DigitRun(t) + 2..])
    // Plain text is exactly a line with neither marker.
    ensures k.Plain? <==>
      && !(|t| >= 2 && (t[0] == '*' || t[0] == '-') && t[1] == ' ')
      && !(0 < DigitRun(t) && DigitRun(t) + 2 <= |t| && t[DigitRun(t)..DigitRun(t) + 2] == ". ")
  {
    if |t| >= 2 && (t[0] == '*' || t[0] == '-') && t[1] == ' ' then
      Bullet(t[2..])
    else
      var d := DigitRun(t);
      if 0 < d && d + 2 <= |t| && t[d] == '.' && t[d + 1] == ' ' then
        MarkerAt(t, d);
        Numbered(t[d + 2..])
      else if 0 < d && d + 2 <= |t| then
        MarkerAt(t, d);
        Plain
      else Plain
  }

  /** The two characters at `d` are `. ` exactly when they read so, and
      they cut the text in three. */
  lemma MarkerAt(t: string, d: nat)
    requires d + 2 <= |t|
    ensures t[d..d + 2] == ". " <==> t[d] == '.' && t[d + 1] == ' '
    ensures t == t[..d] + t[d..d + 2] + t[d + 2..]
  {
    assert t[d..d + 2][0] == t[d] && t[d..d + 2][1] == t[d + 1];
  }

  /** The kind of a line, judged on the line trimmed of JavaScript white
      space. */
  function Classify(line: string): LineKind
  {
    ClassifyTrimmed(Trim(line, Js))
  }

  predicate IsListLine(line: string)
  {
    !Classify(line).Plain?
  }

  /** A line that trims to nothing. */
  predicate IsBlank(line: string)
  {
    Trim(line, Js) == ""
  }

  lemma BlankIsPlain(line: string)
    requires IsBlank(line)
    ensures !IsListLine(line)
  {
  }

  // ----- blocks -----

  /** A paragraph keeps its lines untrimmed; a list keeps the text of its
      items and whether it was opened by a numbered item. */
  datatype Block = Paragraph(lines: seq<string>) | ListBlock(ordered: bool, items: seq<string>)

  function Last<T>(s: seq<T>): T
    requires |s| > 0
  {
    s[|s| - 1]
  }

  /** The blocks after one more line, given the blocks so far and whether
      the line before it was a list item. A list item continues the list
      when the line before it was a list item too, of either kind; otherwise
      it opens a list of its own kind. A blank line adds nothing, but it ends
      a list. A plain line joins the paragraph the blocks end with, if they
      end with one, and otherwise starts a paragraph. */
  function Step(g: seq<Block>, afterItem: bool, line: string): (r: seq<Block>)
    requires afterItem ==> |g| > 0 && Last(g).ListBlock?
    ensures IsListLine(line) ==> |r| > 0 && Last(r).ListBlock?
    ensures |r| <= |g| + 1
  {
    Advance(g, afterItem, Classify(line), IsBlank(line), line)
  }

  /** `Step` for a line of kind `k` that is blank or not. */
  function Advance(g: seq<Block>, afterItem: bool, k: LineKind, blank: bool, line: string): (r: seq<Block>)
    requires afterItem ==> |g| > 0 && Last(g).ListBlock?
    ensures !k.Plain? ==> |r| > 0 && Last(r).ListBlock?
    ensures |r| <= |g| + 1
  {
    match k
    case Plain =>
      if blank then g
      else if |g| > 0 && Last(g).Paragraph? then g[..|g| - 1] + [Paragraph(Last(g).lines + [line])]
      else g + [Paragraph([line])]
    case _ =>
      if afterItem then g[..|g| - 1] + [ListBlock(Last(g).ordered, Last(g).items + [k.item])]
      else g + [ListBlock(k.Numbered?, [k.item])]
  }

  /** The blocks the lines read as, one line at a time. */
  function Group(lines: seq<string>): (g: seq<Block>)
    ensures |lines| > 0 && IsListLine(Last(lines)) ==> |g| > 0 && Last(g).ListBlock?
    ensures |g| <= |lines|
    decreases |lines|
  {
    if lines == [] then []
    else
      var prev := lines[..|lines| - 1];
      Step(Group(prev), |prev| > 0 && IsListLine(Last(prev)), Last(lines))
  }

  // ----- rendering -----

  /** `ol` for a numbered list, `ul` for a bulleted one. */
  function TagName(ordered: bool): string
  {
    if ordered then "ol" else "ul"
  }

  /** The start tag of a list, with its class. */
  function ListOpen(ordered: bool): string
  {
    "<" + TagName(ordered) + (if ordered then OlClass else UlClass) + ">"
  }

  function EndTag(name: string): string
  {
    "</" + name + ">"
  }

  /** The end tag written after a list. `balanced` selects the end tag that
      matches the start tag; without it every list is closed with `</ul>`,
      which is what the component writes. */
  function ListEnd(ordered: bool, balanced: bool): string
  {
    EndTag(if balanced then TagName(ordered) else "ul")
  }

  function ItemParts(items: seq<string>): (r: seq<string>)
    ensures |r| == |items|
    ensures forall k :: 0 <= k < |items| ==> r[k] == LiOpen + items[k] + LiClose
  {
    seq(|items|, k requires 0 <= k < |items| => LiOpen + items[k] + LiClose)
  }

  function BlockParts(b: Block, balanced: bool): seq<string>
  {
    match b
    case Paragraph(lines) => [ParagraphHtml(lines)]
    case ListBlock(ordered, items) => [ListOpen(ordered)] + ItemParts(items) + [ListEnd(ordered, balanced)]
  }

  function RenderParts(blocks: seq<Block>, balanced: bool): seq<string>
    decreases |blocks|
  {
    if blocks == [] then []
    else RenderParts(blocks[..|blocks| - 1], balanced) + BlockParts(Last(blocks), balanced)
  }

  /** The HTML of one paragraph's lines, with balanced list tags. */
  function Render(lines: seq<string>): string
  {
    Concat(RenderParts(Group(lines), true))
  }

  /** The HTML of one paragraph's lines as the component writes it. */
  function RenderAsWritten(lines: seq<string>): string
  {
    Concat(RenderParts(Group(lines), false))
  }

  lemma RenderPartsAppend(blocks: seq<Block>, b: Block, balanced: bool)
    ensures RenderParts(blocks + [b], balanced) == RenderParts(blocks, balanced) + BlockParts(b, balanced)
  {
    assert (blocks + [b])[..|blocks|] == blocks;
  }

  /** The HTML of a paragraph of plain lines. */
  function ParagraphHtml(lines: seq<string>): string
  {
    POpen + Join(lines, Br) + PClose
  }

  /** What the loop of `FormatParagraph` holds between two lines, for the
      blocks `g` of the lines read so far: while a list is open, `parts`
      renders every block before it, the list's start tag and its items;
      while plain lines are pending in `regular`, they are the last block and
      `parts` renders every block before it; otherwise `parts` renders all
      blocks. */
  predicate Pending(g: seq<Block>, inList: bool, ordered: bool, parts: seq<string>, regular: seq<string>)
  {
    if inList then
      regular == [] && |g| > 0 && Last(g).ListBlock? && Last(g).ordered == ordered
      && parts == RenderParts(g[..|g| - 1], true) + [ListOpen(ordered)] + ItemParts(Last(g).items)
    else if regular != [] then
      |g| > 0 && Last(g) == Paragraph(regular) && parts == RenderParts(g[..|g| - 1], true)
    else
      parts == RenderParts(g, true) && (g == [] || Last(g).ListBlock?)
  }

  /** A list item after a line that was not one: pending plain lines are
      written as a paragraph, then the list's start tag and the item. */
  lemma OpenListStep(g: seq<Block>, ordered: bool, parts: seq<string>, regular: seq<string>, k: LineKind, blank: bool, line: string)
    requires Pending(g, false, ordered, parts, regular) && !k.Plain?
    ensures var flushed := if regular != [] then parts + [ParagraphHtml(regular)] else parts;
      Pending(Advance(g, false, k, blank, line), true, k.Numbered?, flushed + [ListOpen(k.Numbered?)] + [LiOpen + k.item + LiClose], [])
  {
    FinishStep(g, false, ordered, parts, regular);
    var b := ListBlock(k.Numbered?, [k.item]);
    var r := Advance(g, false, k, blank, line);
    assert r == g + [b];
    assert r[..|r| - 1] == g && Last(r) == b;
    assert ItemParts([k.item]) == [LiOpen + k.item + LiClose];
  }

  /** A list item right after another: the item joins the open list. */
  lemma ContinueListStep(g: seq<Block>, ordered: bool, parts: seq<string>, k: LineKind, blank: bool, line: string)
    requires Pending(g, true, ordered, parts, []) && !k.Plain?
    ensures Pending(Advance(g, true, k, blank, line), true, ordered, parts + [LiOpen + k.item + LiClose], [])
  {
    var item := k.item;
    var items := Last(g).items;
    var r := Advance(g, true, k, blank, line);
    assert r == g[..|g| - 1] + [ListBlock(ordered, items + [item])];
    assert r[..|r| - 1] == g[..|g| - 1];
    assert ItemParts(items + [item]) == ItemParts(items) + [LiOpen + item + LiClose];
  }

  /** A plain line closes an open list. */
  lemma CloseListStep(g: seq<Block>, ordered: bool, parts: seq<string>)
    requires Pending(g, true, ordered, parts, [])
    ensures Pending(g, false, ordered, parts + [ListEnd(ordered, true)], [])
  {
    var b := Last(g);
    assert RenderParts(g, true) == RenderParts(g[..|g| - 1], true) + BlockParts(b, true);
    ListPartsAssoc(RenderParts(g[..|g| - 1], true), ListOpen(ordered), ItemParts(b.items), ListEnd(ordered, true));
  }

  /** Regrouping the parts of a list written after earlier parts. */
  lemma ListPartsAssoc<T>(before: seq<T>, open: T, items: seq<T>, close: T)
    ensures before + [open] + items + [close] == before + ([open] + items + [close])
  {
  }

  /** Outside a list, a non-blank plain line is held back with the pending
      plain lines; a blank one changes nothing. */
  lemma PlainStep(g: seq<Block>, afterItem: bool, ordered: bool, parts: seq<string>, regular: seq<string>, blank: bool, line: string)
    requires afterItem ==> |g| > 0 && Last(g).ListBlock?
    requires Pending(g, false, ordered, parts, regular)
    ensures Pending(Advance(g, afterItem, Plain, blank, line), false, ordered, parts,
      if blank then regular else regular + [line])
  {
    var r := Advance(g, afterItem, Plain, blank, line);
    if !blank {
      if regular != [] {
        assert r == g[..|g| - 1] + [Paragraph(regular + [line])];
        assert r[..|r| - 1] == g[..|g| - 1];
      } else {
        assert r == g + [Paragraph([line])];
        assert r[..|r| - 1] == g;
      }
    }
  }

  /** After the last line, closing an open list and writing the pending
      plain lines renders every block. */
  lemma FinishStep(g: seq<Block>, inList: bool, ordered: bool, parts: seq<string>, regular: seq<string>)
    requires Pending(g, inList, ordered, parts, regular)
    ensures inList ==> regular == [] && parts + [ListEnd(ordered, true)] == RenderParts(g, true)
    ensures !inList && regular != [] ==> parts + [ParagraphHtml(regular)] == RenderParts(g, true)
    ensures !inList && regular == [] ==> parts == RenderParts(g, true)
  {
    if inList {
      CloseListStep(g, ordered, parts);
    } else if regular != [] {
      FlushStep(g, ordered, parts, regular);
    }
  }

  /** Pending plain lines, once written as a paragraph, complete the
      rendering of the blocks. */
  lemma FlushStep(g: seq<Block>, ordered: bool, parts: seq<string>, regular: seq<string>)
    requires Pending(g, false, ordered, parts, regular) && regular != []
    ensures parts + [ParagraphHtml(regular)] == RenderParts(g, true)
  {
    assert RenderParts(g, true) == RenderParts(g[..|g| - 1], true) + BlockParts(Last(g), true);
    assert BlockParts(Last(g), true) == [ParagraphHtml(regular)];
  }

  /** Reading one more line of a paragraph advances its blocks by that
      line. */
  lemma GroupPrefix(lines: seq<string>, i: nat)
    requires i < |lines|
    ensures Group(lines[..i + 1]) ==
      Advance(Group(lines[..i]), i > 0 && IsListLine(lines[i - 1]), Classify(lines[i]), IsBlank(lines[i]), lines[i])
  {
    assert lines[..i + 1][..i] == lines[..i];
  }

  /** One turn of the loop of `formatMessage`: a list item opens a list,
      writing the pending plain lines first, or joins the open one; a plain
      line closes an open list and, unless blank, is held back. */
  method ReadLine(ghost g: seq<Block>, inList: bool, ordered: bool, parts: seq<string>, regular: seq<string>, line: string)
    returns (inList': bool, ordered': bool, parts': seq<string>, regular': seq<string>)
    requires Pending(g, inList, ordered, parts, regular)
    ensures inList' == IsListLine(line)
    ensures Pending(Advance(g, inList, Classify(line), IsBlank(line), line), inList', ordered', parts', regular')
  {
    var kind := Classify(line);
    var blank := IsBlank(line);
    inList', ordered', parts', regular' := inList, ordered, parts, regular;
    if !kind.Plain? {
      if !inList {
        OpenListStep(g, ordered, parts, regular, kind, blank, line);
        if regular != [] {
          parts' := parts' + [ParagraphHtml(regular)];
          regular' := [];
        }
        parts' := parts' + [ListOpen(kind.Numbered?)];
        ordered' := kind.Numbered?;
        inList' := true;
      } else {
        ContinueListStep(g, ordered, parts, kind, blank, line);
      }
      parts' := parts' + [LiOpen + kind.item + LiClose];
    } else {
      if inList {
        CloseListStep(g, ordered, parts);
        parts' := parts' + [ListEnd(ordered, true)];
        inList' := false;
      }
      PlainStep(g, inList, ordered', parts', regular, blank, line);
      if !blank {
        regular' := regular' + [line];
      }
    }
  }

  /** The loop of `formatMessage` over the lines of one paragraph. Items and
      paragraphs are collected in `parts`; `regular` holds the plain lines of
      the paragraph not yet written. Unlike the component, it remembers which
      kind of list is open, so that the list is closed by its own end tag. */
  method FormatParagraph(lines: seq<string>) returns (html: string)
    ensures html == Render(lines)
  {
    var inList := false;
    var ordered := false;
    var parts: seq<string> := [];
    var regular: seq<string> := [];
    ghost var g: seq<Block> := [];
    for i := 0 to |lines|
      invariant inList <==> i > 0 && IsListLine(lines[i - 1])
      invariant g == Group(lines[..i])
      invariant Pending(g, inList, ordered, parts, regular)
    {
      GroupPrefix(lines, i);
      ghost var next := Advance(g, inList, Classify(lines[i]), IsBlank(lines[i]), lines[i]);
      inList, ordered, parts, regular := ReadLine(g, inList, ordered, parts, regular, lines[i]);
      g := next;
    }
    assert lines[..|lines|] == lines;
    FinishStep(g, inList, ordered, parts, regular);
    if inList {
      parts := parts + [ListEnd(ordered, true)];
    }
    if regular != [] {
      parts := parts + [ParagraphHtml(regular)];
    }
    html := Concat(parts);
  }

  // ----- whole messages -----

  /** The lines of one paragraph: the inline substitutions are applied, each
      line break becomes `<br>`, and the text is cut at every `<br>`. */
  function ParagraphLines(paragraph: string, inline: string -> string): seq<string>
  {
    Split(ReplaceChar(inline(paragraph), '\n', Br), Br)
  }

  /** The HTML of each paragraph of a message, paragraphs being separated by
      a blank line. */
  function FormattedParagraphs(content: string, inline: string -> string): (r: seq<string>)
    ensures |r| == |Split(content, "\n\n")|
    ensures forall k :: 0 <= k < |r| ==> r[k] == Render(ParagraphLines(Split(content, "\n\n")[k], inline))
  {
    var paragraphs := Split(content, "\n\n");
    seq(|paragraphs|, k requires 0 <= k < |paragraphs| => Render(ParagraphLines(paragraphs[k], inline)))
  }

  /** `formatMessage`: every paragraph formatted in turn, the results joined
      without separator. */
  method FormatMessage(content: string, inline: string -> string) returns (html: string)
    ensures html == Concat(FormattedParagraphs(content, inline))
  {
    var paragraphs := Split(content, "\n\n");
    ghost var expected := FormattedParagraphs(content, inline);
    html := "";
    for i := 0 to |paragraphs|
      invariant html == Concat(expected[..i])
    {
      var formatted := FormatParagraph(ParagraphLines(paragraphs[i], inline));
      assert formatted == expected[i];
      ConcatPrefix(expected, i);
      html := html + formatted;
    }
    assert expected[..|paragraphs|] == expected;
  }

  // ----- properties of the reading -----

  /** An empty message shows nothing, when the inline substitutions leave
      the empty text as it is: it is one paragraph of one blank line. */
  lemma EmptyMessageShowsNothing(inline: string -> string)
    requires inline("") == ""
    ensures FormattedParagraphs("", inline) == [""]
    ensures Concat(FormattedParagraphs("", inline)) == ""
  {
    assert Split("", "\n\n") == [""];
    assert ParagraphLines("", inline) == [""];
    assert [""][..0] == [];
    assert Group([""]) == [];
  }

  /** The lines of a paragraph carry no line break, and joining them back
      with `<br>` gives the substituted text with its breaks as `<br>`. */
  lemma ParagraphLinesRoundTrip(paragraph: string, inline: string -> string)
    ensures var lines := ParagraphLines(paragraph, inline);
      Join(lines, Br) == ReplaceChar(inline(paragraph), '\n', Br)
      && forall k :: 0 <= k < |lines| ==> '\n' !in lines[k]
  {
    var text := ReplaceChar(inline(paragraph), '\n', Br);
    JoinSplit(text, Br);
    SplitPartsAvoid(text, Br, '\n');
  }

  /** When the substituted paragraph holds no `<br>` of its own, its lines
      are exactly its line-break-separated lines, in order. */
  lemma ParagraphLinesAreLines(paragraph: string, inline: string -> string)
    requires forall j :: !OccursAt(inline(paragraph), Br, j)
    ensures ParagraphLines(paragraph, inline) == Split(inline(paragraph), "\n")
  {
    var text := inline(paragraph);
    ReplaceCharJoinsSplit(text, '\n', Br);
    var parts := Split(text, "\n");
    JoinSplit(text, "\n");
    forall k, j | 0 <= k < |parts| ensures !OccursAt(parts[k], Br, j) {
      JoinContainsPart(parts, "\n", k);
      var at :| OccursAt(text, parts[k], at);
      if OccursAt(parts[k], Br, j) {
        OccursWithin(text, parts[k], Br, at, j);
      }
    }
    SplitJoinBr(parts);
  }

  /** Pieces without `<br>` joined by `<br>` are cut back into the same
      pieces. */
  lemma {:induction false} SplitJoinBr(parts: seq<string>)
    requires |parts| >= 1
    requires forall k, j :: 0 <= k < |parts| ==> !OccursAt(parts[k], Br, j)
    ensures Split(Join(parts, Br), Br) == parts
    decreases |parts|
  {
    if |parts| == 1 {
      SplitLeftmost(parts[0], Br);
    } else {
      var a := parts[0];
      var rest := Join(parts[1..], Br);
      assert parts == [a] + parts[1..];
      JoinCons(a, parts[1..], Br);
      forall j | 0 <= j < |a| ensures !OccursAt(a + Br + rest, Br, j) {
        BrNotAcross(a, rest, j);
      }
      SplitAfterPart(a, Br, rest);
      SplitJoinBr(parts[1..]);
    }
  }

  /** An occurrence of `<br>` that starts in `a` lies inside `a`: no proper
      end of `<br>` starts it again. */
  lemma BrNotAcross(a: string, rest: string, j: int)
    requires 0 <= j < |a| && !OccursAt(a, Br, j)
    ensures !OccursAt(a + Br + rest, Br, j)
  {
    var s := a + Br + rest;
    if j + |Br| <= |a| {
      assert s[j..j + |Br|] == a[j..j + |Br|];
    } else {
      assert s[|a|] == '<' && Br[|a| - j] != '<';
      assert s[j..j + |Br|][|a| - j] == s[|a|];
    }
  }

  function BlockContent(b: Block): seq<string>
  {
    match b
    case Paragraph(lines) => lines
    case ListBlock(_, items) => items
  }

  /** The content of the blocks, in order. */
  function Contents(blocks: seq<Block>): seq<string>
    decreases |blocks|
  {
    if blocks == [] then [] else Contents(blocks[..|blocks| - 1]) + BlockContent(Last(blocks))
  }

  /** What a line shows: nothing when blank, the item text of a list item,
      the untrimmed line otherwise. */
  function Shown(k: LineKind, blank: bool, line: string): seq<string>
  {
    if !k.Plain? then [k.item] else if blank then [] else [line]
  }

  /** What the lines show, in order. */
  function Visible(lines: seq<string>): seq<string>
    decreases |lines|
  {
    if lines == [] then []
    else Visible(lines[..|lines| - 1]) + Shown(Classify(Last(lines)), IsBlank(Last(lines)), Last(lines))
  }

  lemma ContentsSnoc(g: seq<Block>, b: Block)
    ensures Contents(g + [b]) == Contents(g) + BlockContent(b)
  {
    ButLastOfAppend(g, b);
  }

  lemma ContentsReplaceLast(g: seq<Block>, b: Block, extra: string)
    requires |g| > 0 && BlockContent(b) == BlockContent(Last(g)) + [extra]
    ensures Contents(g[..|g| - 1] + [b]) == Contents(g) + [extra]
  {
    ContentsSnoc(g[..|g| - 1], b);
    assert Contents(g) == Contents(g[..|g| - 1]) + BlockContent(Last(g));
    AppendAssoc(Contents(g[..|g| - 1]), BlockContent(Last(g)), [extra]);
  }

  lemma AdvanceContents(g: seq<Block>, afterItem: bool, k: LineKind, blank: bool, line: string)
    requires afterItem ==> |g| > 0 && Last(g).ListBlock?
    ensures Contents(Advance(g, afterItem, k, blank, line)) == Contents(g) + Shown(k, blank, line)
  {
    if k.Plain? {
      if blank {
        assert Shown(k, blank, line) == [];
      } else if |g| > 0 && Last(g).Paragraph? {
        ContentsReplaceLast(g, Paragraph(Last(g).lines + [line]), line);
      } else {
        ContentsSnoc(g, Paragraph([line]));
      }
    } else if afterItem {
      ContentsReplaceLast(g, ListBlock(Last(g).ordered, Last(g).items + [k.item]), k.item);
    } else {
      ContentsSnoc(g, ListBlock(k.Numbered?, [k.item]));
    }
  }

  /** Reading the lines into blocks loses nothing, reorders nothing and adds
      nothing: the blocks hold exactly the non-blank plain lines and the item
      texts, in the order of the lines. */
  lemma {:induction false} GroupKeepsContent(lines: seq<string>)
    ensures Contents(Group(lines)) == Visible(lines)
    decreases |lines|
  {
    if lines != [] {
      var prev := lines[..|lines| - 1];
      GroupKeepsContent(prev);
      AdvanceContents(Group(prev), |prev| > 0 && IsListLine(Last(prev)), Classify(Last(lines)),
        IsBlank(Last(lines)), Last(lines));
    }
  }

  /** No block is empty and no two paragraphs are adjacent. */
  predicate WellFormed(g: seq<Block>)
  {
    && (forall k :: 0 <= k < |g| ==> BlockContent(g[k]) != [])
    && (forall k :: 0 <= k < |g| - 1 ==> !(g[k].Paragraph? && g[k + 1].Paragraph?))
  }

  lemma AdvanceWellFormed(g: seq<Block>, afterItem: bool, k: LineKind, blank: bool, line: string)
    requires afterItem ==> |g| > 0 && Last(g).ListBlock?
    requires WellFormed(g)
    ensures WellFormed(Advance(g, afterItem, k, blank, line))
  {
    var r := Advance(g, afterItem, k, blank, line);
    if k.Plain? && !blank && |g| > 0 && Last(g).Paragraph? {
      assert forall j :: 0 <= j < |g| - 1 ==> r[j] == g[j];
    } else if !k.Plain? && afterItem {
      assert forall j :: 0 <= j < |g| - 1 ==> r[j] == g[j];
    } else if !blank || !k.Plain? {
      assert forall j :: 0 <= j < |g| ==> r[j] == g[j];
    }
  }

  /** The blocks of any lines are well formed: a paragraph always ends where
      a list begins, and a run of plain lines never splits into two
      paragraphs. */
  lemma {:induction false} GroupWellFormed(lines: seq<string>)
    ensures WellFormed(Group(lines))
    decreases |lines|
  {
    if lines != [] {
      var prev := lines[..|lines| - 1];
      GroupWellFormed(prev);
      AdvanceWellFormed(Group(prev), |prev| > 0 && IsListLine(Last(prev)), Classify(Last(lines)),
        IsBlank(Last(lines)), Last(lines));
    }
  }

  /** The text a list line shows once its marker is removed; a plain line
      shows none. */
  function ItemText(line: string): string
  {
    match Classify(line)
    case Plain => ""
    case Bullet(item) => item
    case Numbered(item) => item
  }

  /** The item texts of list lines. */
  function Items(lines: seq<string>): seq<string>
    decreases |lines|
  {
    if lines == [] then [] else Items(lines[..|lines| - 1]) + [ItemText(Last(lines))]
  }

  /** A run of list lines that starts a paragraph, or follows a line that
      is not a list item, forms one list after the blocks before it, whose
      kind is that of its first line whatever the kinds of the lines after
      it; the blocks before the run are left as they were. */
  lemma {:induction false} ConsecutiveItemsFormOneList(before: seq<string>, run: seq<string>)
    requires before == [] || !IsListLine(Last(before))
    requires |run| > 0 && forall k :: 0 <= k < |run| ==> IsListLine(run[k])
    ensures Group(before + run) == Group(before) + [ListBlock(Classify(run[0]).Numbered?, Items(run))]
    decreases |run|
  {
    var prev := run[..|run| - 1];
    if |prev| > 0 {
      ConsecutiveItemsFormOneList(before, prev);
      assert prev[0] == run[0];
      ItemJoinsList(before, run, Classify(run[0]).Numbered?, Items(prev));
    } else {
      FirstItemOpensList(before, run);
    }
  }

  /** A list line after a line that is not a list item opens a list of one
      item. */
  lemma FirstItemOpensList(before: seq<string>, run: seq<string>)
    requires before == [] || !IsListLine(Last(before))
    requires |run| == 1 && IsListLine(run[0])
    ensures Group(before + run) == Group(before) + [ListBlock(Classify(run[0]).Numbered?, Items(run))]
  {
    var lines := before + run;
    var line := run[0];
    var k := Classify(line);
    assert lines[..|lines| - 1] == before && Last(lines) == line;
    assert Group(lines) == Advance(Group(before), false, k, IsBlank(line), line);
    assert run[..0] == [];
    assert Items(run) == Items(run[..0]) + [ItemText(line)];
    EmptyAppend([ItemText(line)]);
  }

  /** A list line after a list line joins the list its blocks end with. */
  lemma ItemJoinsList(before: seq<string>, run: seq<string>, ordered: bool, items: seq<string>)
    requires |run| > 1 && forall k :: 0 <= k < |run| ==> IsListLine(run[k])
    requires Group(before + run[..|run| - 1]) == Group(before) + [ListBlock(ordered, items)]
    requires Items(run[..|run| - 1]) == items
    ensures Group(before + run) == Group(before) + [ListBlock(ordered, Items(run))]
  {
    var prev := before + run[..|run| - 1];
    var line := Last(run);
    SplitLast(before, run);
    assert Last(prev) == run[|run| - 2];
    GroupSnoc(prev, line);
    ButLastOfAppend(Group(before), ListBlock(ordered, items));
    assert Items(run) == items + [ItemText(line)];
  }

  /** Where a line that is not a list item goes: a blank line adds nothing;
      any other plain line right after a list line, or whenever the blocks so
      far end with a list or are none, starts a paragraph of its own after
      them, and otherwise joins the paragraph the blocks end with. */
  lemma PlainLineGroup(lines: seq<string>, line: string)
    requires !IsListLine(line)
    ensures IsBlank(line) ==> Group(lines + [line]) == Group(lines)
    ensures !IsBlank(line) && |lines| > 0 && IsListLine(Last(lines)) ==>
      Group(lines + [line]) == Group(lines) + [Paragraph([line])]
    ensures !IsBlank(line) && (|Group(lines)| == 0 || Last(Group(lines)).ListBlock?) ==>
      Group(lines + [line]) == Group(lines) + [Paragraph([line])]
    ensures !IsBlank(line) && |Group(lines)| > 0 && Last(Group(lines)).Paragraph? ==>
      var g := Group(lines);
      Group(lines + [line]) == g[..|g| - 1] + [Paragraph(Last(g).lines + [line])]
  {
    GroupSnoc(lines, line);
  }

  /** The last line of a non-empty run, split off the lines before it. */
  lemma SplitLast<T>(before: seq<T>, run: seq<T>)
    requires |run| > 0
    ensures before + run == (before + run[..|run| - 1]) + [run[|run| - 1]]
  {
    assert run == run[..|run| - 1] + [run[|run| - 1]];
  }

  /** Reading the lines and then one more line. */
  lemma GroupSnoc(lines: seq<string>, line: string)
    ensures Group(lines + [line]) == Step(Group(lines), |lines| > 0 && IsListLine(Last(lines)), line)
  {
    ButLastOfAppend(lines, line);
  }

  // ----- the end tag of numbered lists -----

  /** With balanced tags every list is closed by the end tag of the element
      it opened; as written, a numbered list is not. */
  lemma ListTags(ordered: bool)
    ensures ListOpen(ordered)[..3] == "<" + TagName(ordered)
    ensures ListEnd(ordered, true) == EndTag(TagName(ordered))
    ensures ListEnd(ordered, false) == EndTag(TagName(ordered)) <==> !ordered
  {
    assert ListOpen(ordered)[..3] == ("<" + TagName(ordered))[..3];
    assert EndTag("ul")[2] == 'u' && EndTag("ol")[2] == 'o';
  }

  /** `1. x` is a numbered item whose text is `x`, when `x` neither starts
      nor ends with white space. */
  lemma NumberedExampleKind(x: string)
    requires x != [] && !IsSpace(Js, x[0]) && !IsSpace(Js, x[|x| - 1])
    ensures Classify("1. " + x) == Numbered(x)
  {
    var t := "1. " + x;
    assert t[0] == '1' && t[1] == '.' && t[2] == ' ' && t[|t| - 1] == x[|x| - 1];
    TrimOfTrimmed(t, Js);
    assert t[1..][0] == '.';
    assert DigitRun(t[1..]) == 0;
    assert DigitRun(t) == 1;
    assert t[3..] == x;
  }

  /** As written, a numbered list is opened with `<ol` and closed with
      `</ul>`: a paragraph of the one line `1. x` (`1. Rest`, say) shows it.
      With balanced tags the same paragraph is closed with `</ol>`. */
  lemma NumberedListClosedWithUl(x: string)
    requires x != [] && !IsSpace(Js, x[0]) && !IsSpace(Js, x[|x| - 1])
    ensures RenderAsWritten(["1. " + x]) == ListOpen(true) + LiOpen + x + LiClose + EndTag("ul")
    ensures Render(["1. " + x]) == ListOpen(true) + LiOpen + x + LiClose + EndTag("ol")
    ensures ListOpen(true)[..3] == "<ol"
  {
    OneNumberedItem(x);
    RenderOneNumberedItem(x);
    ListTags(true);
  }

  lemma OneNumberedItem(x: string)
    requires x != [] && !IsSpace(Js, x[0]) && !IsSpace(Js, x[|x| - 1])
    ensures Group(["1. " + x]) == [ListBlock(true, [x])]
  {
    NumberedExampleKind(x);
    assert ["1. " + x][..0] == [];
  }

  lemma RenderOneNumberedItem(x: string)
    ensures Concat(RenderParts([ListBlock(true, [x])], false)) == ListOpen(true) + LiOpen + x + LiClose + EndTag("ul")
    ensures Concat(RenderParts([ListBlock(true, [x])], true)) == ListOpen(true) + LiOpen + x + LiClose + EndTag("ol")
  {
    var g := [ListBlock(true, [x])];
    var item := LiOpen + x + LiClose;
    assert g[..0] == [];
    assert ItemParts([x]) == [item];
    assert RenderParts(g, false) == BlockParts(ListBlock(true, [x]), false);
    assert RenderParts(g, true) == BlockParts(ListBlock(true, [x]), true);
    assert ListEnd(true, false) == EndTag("ul") && ListEnd(true, true) == EndTag("ol");
    assert BlockParts(ListBlock(true, [x]), false) == [ListOpen(true), item, EndTag("ul")];
    assert BlockParts(ListBlock(true, [x]), true) == [ListOpen(true), item, EndTag("ol")];
    ConcatThree(ListOpen(true), item, EndTag("ul"));
    ConcatThree(ListOpen(true), item, EndTag("ol"));
  }

  /** The two renderings differ only on numbered lists. */
  lemma {:induction false} AsWrittenAgreesWithoutNumberedLists(blocks: seq<Block>)
    requires forall k :: 0 <= k < |blocks| ==> !(blocks[k].ListBlock? && blocks[k].ordered)
    ensures RenderParts(blocks, false) == RenderParts(blocks, true)
    decreases |blocks|
  {
    if blocks != [] {
      AsWrittenAgreesWithoutNumberedLists(blocks[..|blocks| - 1]);
    }
  }
}
