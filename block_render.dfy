/**
 * `blocksToHtml` of api/notion-page.js: each top-level block becomes a fixed
 * tag shape, and consecutive list items of one kind share a `<ul>` or `<ol>`
 * that the loop opens at the first item and closes when the next block does
 * not continue the run.
 */
module BlockRender {
  import opened Text
  import opened NotionBlocks
  import opened RichTextRender

  datatype ListTag = Ul | Ol

  function TagName(t: ListTag): string {
    match t
    case Ul => "ul"
    case Ol => "ol"
  }

  /** The container a block belongs to: `ul` for a bulleted item, `ol` for a numbered one. */
  function ListKind(b: Block): Option<ListTag> {
    match b
    case BulletedListItem(_) => Some(Ul)
    case NumberedListItem(_) => Some(Ol)
    case _ => None
  }

  /** `content.file?.url || content.external?.url || ''`. */
  function ResolveUrl(fileUrl: string, externalUrl: string): (u: string)
    ensures u == "" <==> fileUrl == "" && externalUrl == ""
    ensures fileUrl != "" ==> u == fileUrl
    ensures fileUrl == "" ==> u == externalUrl
  {
    if fileUrl != "" then fileUrl else externalUrl
  }

  /** `content.language || 'plaintext'`. */
  function CodeLanguage(language: string): (l: string)
    ensures l != ""
    ensures language != "" ==> l == language
    ensures language == "" ==> l == "plaintext"
  {
    if language != "" then language else "plaintext"
  }

  /** `content.icon?.emoji || '💡'`. */
  function CalloutIcon(emoji: string): (e: string)
    ensures e != ""
    ensures emoji != "" ==> e == emoji
    ensures emoji == "" ==> e == "\U{1F4A1}"
  {
    if emoji != "" then emoji else "\U{1F4A1}"
  }

  /** The visible text of a bookmark: the rendered caption when the caption has runs, else the URL. */
  function BookmarkText(url: string, caption: seq<RichText>): (t: string)
    ensures |caption| == 0 ==> t == url
    ensures |caption| > 0 ==> t == RichTextToHtml(caption)
  {
    if |caption| > 0 then RichTextToHtml(caption) else url
  }

  /** A block the switch drops without output. */
  predicate Silent(b: Block) {
    || (b.Paragraph? && RichTextToHtml(b.richText) == "")
    || (b.Image? && ResolveUrl(b.fileUrl, b.externalUrl) == "")
    || (b.Video? && ResolveUrl(b.fileUrl, b.externalUrl) == "")
    || b.Unsupported?
  }

  /** The `switch (type)` of the loop: the markup of one block, apart from the list container. */
  function BlockHtml(b: Block): string {
    match b
    case Paragraph(rt) =>
      var p := RichTextToHtml(rt);
      if p != "" then "<p>" + p + "</p>" else ""
    case Heading1(rt) => "<h2>" + RichTextToHtml(rt) + "</h2>"
    case Heading2(rt) => "<h3>" + RichTextToHtml(rt) + "</h3>"
    case Heading3(rt) => "<h4>" + RichTextToHtml(rt) + "</h4>"
    case BulletedListItem(rt) => "<li>" + RichTextToHtml(rt) + "</li>"
    case NumberedListItem(rt) => "<li>" + RichTextToHtml(rt) + "</li>"
    case Code(rt, language, _) =>
      "<pre><code class=\"language-" + CodeLanguage(language) + "\">" + RichTextToHtml(rt) + "</code></pre>"
    case Quote(rt) => "<blockquote>" + RichTextToHtml(rt) + "</blockquote>"
    case Callout(rt, emoji) =>
      "<div class=\"callout\"><span class=\"callout-icon\">" + CalloutIcon(emoji)
      + "</span><div class=\"callout-content\">" + RichTextToHtml(rt) + "</div></div>"
    case Divider => "<hr>"
    case Image(fileUrl, externalUrl, caption) =>
      var url := ResolveUrl(fileUrl, externalUrl);
      var c := RichTextToHtml(caption);
      if url != "" then
        "<figure><img src=\"" + url + "\" alt=\"" + c + "\" loading=\"lazy\"><figcaption>" + c + "</figcaption></figure>"
      else ""
    case Video(fileUrl, externalUrl, _) =>
      var url := ResolveUrl(fileUrl, externalUrl);
      if url != "" then "<video controls src=\"" + url + "\"></video>" else ""
    case Bookmark(url, caption) =>
      "<a href=\"" + url + "\" target=\"_blank\" class=\"bookmark\">" + BookmarkText(url, caption) + "</a>"
    case Toggle(rt) => "<details><summary>" + RichTextToHtml(rt) + "</summary></details>"
    case Unsupported(_, _) => ""
  }

  /** A block emits nothing exactly when it is silent: an empty paragraph, a media block without a URL, an unsupported type. */
  lemma SilentIffEmpty(b: Block)
    ensures BlockHtml(b) == "" <==> Silent(b)
  {
    match b
    case Paragraph(rt) =>
    case Image(f, e, c) =>
    case Video(f, e, c) =>
    case Unsupported(_, _) =>
    case _ =>
      assert |BlockHtml(b)| > 0;
  }

  /** A list item, bulleted or numbered, is an `li` element around its rendered text. */
  lemma ListItemMarkup(b: Block)
    requires ListKind(b).Some?
    ensures BlockHtml(b) == "<li>" + RichTextToHtml(b.richText) + "</li>"
  {
  }

  /** The heading levels sit one below the top level: `heading_1` is `h2`, and so on. */
  lemma HeadingLevels(rt: seq<RichText>)
    ensures BlockHtml(Heading1(rt)) == "<h2>" + RichTextToHtml(rt) + "</h2>"
    ensures BlockHtml(Heading2(rt)) == "<h3>" + RichTextToHtml(rt) + "</h3>"
    ensures BlockHtml(Heading3(rt)) == "<h4>" + RichTextToHtml(rt) + "</h4>"
  {
  }

  /** What the loop appends for one block: a container tag, or a block's own markup inside or outside a list. */
  datatype Piece =
    | OpenList(tag: ListTag)
    | ListItem(tag: ListTag, block: Block)
    | BlockPiece(block: Block)
    | CloseList(tag: ListTag)

  /** The text of a piece, with `render` giving each block's own markup. */
  function PieceHtml(p: Piece, render: Block -> string): string {
    match p
    case OpenList(t) => "<" + TagName(t) + ">"
    case ListItem(_, b) => render(b)
    case BlockPiece(b) => render(b)
    case CloseList(t) => "</" + TagName(t) + ">"
  }

  function Emit(ps: seq<Piece>, render: Block -> string): string {
    if ps == [] then "" else PieceHtml(ps[0], render) + Emit(ps[1..], render)
  }

  lemma {:induction false} EmitAppend(a: seq<Piece>, b: seq<Piece>, render: Block -> string)
    ensures Emit(a + b, render) == Emit(a, render) + Emit(b, render)
    decreases |a|
  {
    if a == [] {
      assert a + b == b;
    } else {
      assert (a + b)[0] == a[0] && (a + b)[1..] == a[1..] + b;
      EmitAppend(a[1..], b, render);
    }
  }

  /** Block `i` is a list item whose predecessor is not an item of the same kind: a container opens. */
  predicate Opens(bs: seq<Block>, i: nat)
    requires i < |bs|
  {
    ListKind(bs[i]).Some? && (i == 0 || ListKind(bs[i - 1]) != ListKind(bs[i]))
  }

  /** Block `i` is a list item whose successor is not an item of the same kind: its container closes. */
  predicate Closes(bs: seq<Block>, i: nat)
    requires i < |bs|
  {
    ListKind(bs[i]).Some? && (i + 1 == |bs| || ListKind(bs[i + 1]) != ListKind(bs[i]))
  }

  /** What block `i` contributes, in order: an opening tag, its own markup, a closing tag. */
  function BlockPieces(bs: seq<Block>, i: nat): seq<Piece>
    requires i < |bs|
  {
    match ListKind(bs[i])
    case None => [BlockPiece(bs[i])]
    case Some(t) =>
      (if Opens(bs, i) then [OpenList(t)] else [])
      + [ListItem(t, bs[i])]
      + (if Closes(bs, i) then [CloseList(t)] else [])
  }

  /** The pieces of the first `n` blocks. */
  function PiecesUpTo(bs: seq<Block>, n: nat): seq<Piece>
    requires n <= |bs|
  {
    if n == 0 then [] else PiecesUpTo(bs, n - 1) + BlockPieces(bs, n - 1)
  }

  function Pieces(bs: seq<Block>): seq<Piece> {
    PiecesUpTo(bs, |bs|)
  }

  /** The opening tag block `i` emits before its markup, if any. */
  function OpenTag(bs: seq<Block>, i: nat): string
    requires i < |bs|
  {
    if Opens(bs, i) then "<" + TagName(ListKind(bs[i]).value) + ">" else ""
  }

  /** The closing tag block `i` emits after its markup, if any. */
  function CloseTag(bs: seq<Block>, i: nat): string
    requires i < |bs|
  {
    if Closes(bs, i) then "</" + TagName(ListKind(bs[i]).value) + ">" else ""
  }

  lemma EmitPieces(bs: seq<Block>, i: nat, render: Block -> string)
    requires i < |bs|
    ensures Emit(BlockPieces(bs, i), render) == OpenTag(bs, i) + render(bs[i]) + CloseTag(bs, i)
  {
    match ListKind(bs[i])
    case None =>
    case Some(t) =>
      var o: seq<Piece> := if Opens(bs, i) then [OpenList(t)] else [];
      var c: seq<Piece> := if Closes(bs, i) then [CloseList(t)] else [];
      EmitAppend(o + [ListItem(t, bs[i])], c, render);
      EmitAppend(o, [ListItem(t, bs[i])], render);
  }

  /**
   * The loop of `blocksToHtml`. `inList` and `listType` are the source's two
   * flags. The loop's output is the pieces of all blocks, and the list left
   * open after any block is the one the next block continues, so the final
   * close never fires.
   */
  method BlocksToHtml(blocks: seq<Block>) returns (html: string)
    ensures html == Emit(Pieces(blocks), BlockHtml)
  {
    html := "";
    var inList := false;
    var listType: Option<ListTag> := None;
    var index := 0;
    while index < |blocks|
      invariant 0 <= index <= |blocks|
      invariant html == Emit(PiecesUpTo(blocks, index), BlockHtml)
      invariant inList <==> NestingAfter(blocks, index).Inside?
      invariant listType == OpenKind(NestingAfter(blocks, index))
    {
      ghost var before := html;
      html, inList, listType := RenderBlockStep(blocks, index, html, inList, listType);
      EmitStep(blocks, index, BlockHtml, before, html);
      index := index + 1;
    }
    if inList {
      match listType
      case Some(t) => html := html + ("</" + TagName(t) + ">");
      case None =>
    }
  }

  /**
   * One call of the `forEach` callback: open a container if block `index`
   * starts a list, append the block's markup, and close the container when
   * the next block (looked up at `index + 1`) does not continue the run.
   * The text appended is the block's pieces, and the flags afterwards
   * describe the nesting after the block.
   */
  method RenderBlockStep(blocks: seq<Block>, index: nat, html: string, inList: bool, listType: Option<ListTag>)
    returns (html': string, inList': bool, listType': Option<ListTag>)
    requires index < |blocks|
    requires inList <==> NestingAfter(blocks, index).Inside?
    requires listType == OpenKind(NestingAfter(blocks, index))
    ensures html' == html + OpenTag(blocks, index) + BlockHtml(blocks[index]) + CloseTag(blocks, index)
    ensures inList' <==> NestingAfter(blocks, index + 1).Inside?
    ensures listType' == OpenKind(NestingAfter(blocks, index + 1))
  {
    var block := blocks[index];
    var isListItem := ListKind(block).Some?;
    var nextIsListItem := index + 1 < |blocks| && ListKind(blocks[index + 1]).Some?;
    html', inList', listType' := html, inList, listType;
    OpenStep(blocks, index, inList, listType);
    var opening := "";
    if isListItem && !inList' {
      inList' := true;
      listType' := ListKind(block);
      opening := "<" + TagName(listType'.value) + ">";
      html' := html' + opening;
    }
    assert opening == OpenTag(blocks, index);
    assert html' == html + opening;
    html' := html' + BlockHtml(block);
    CloseStep(blocks, index, inList', listType');
    var closing := "";
    ghost var beforeClose := html';
    if inList' && (!nextIsListItem || (index + 1 < |blocks| && ListKind(blocks[index + 1]) != ListKind(block))) {
      closing := "</" + TagName(listType'.value) + ">";
      html' := html' + closing;
      inList' := false;
      listType' := None;
    }
    assert closing == CloseTag(blocks, index);
    assert html' == beforeClose + closing;
    FlagsAfter(blocks, index, inList', listType');
  }

  /**
   * Before block `i` the flags say which list block `i - 1` left open; the
   * loop then opens a container exactly where the pieces do.
   */
  lemma OpenStep(bs: seq<Block>, i: nat, inList: bool, listType: Option<ListTag>)
    requires i < |bs|
    requires inList <==> NestingAfter(bs, i).Inside?
    requires listType == OpenKind(NestingAfter(bs, i))
    ensures ListKind(bs[i]).Some? && !inList <==> Opens(bs, i)
    ensures inList ==> listType == ListKind(bs[i])
  {
  }

  /** After block `i`'s markup the loop closes its container exactly where the pieces do. */
  lemma CloseStep(bs: seq<Block>, i: nat, inList: bool, listType: Option<ListTag>)
    requires i < |bs|
    requires inList <==> ListKind(bs[i]).Some?
    requires inList ==> listType == ListKind(bs[i])
    ensures (inList && (!(i + 1 < |bs| && ListKind(bs[i + 1]).Some?)
                        || (i + 1 < |bs| && ListKind(bs[i + 1]) != ListKind(bs[i]))))
            <==> Closes(bs, i)
  {
  }

  /** The text one pass of the loop appends is the markup of block `i`'s pieces. */
  lemma EmitStep(bs: seq<Block>, i: nat, render: Block -> string, before: string, after: string)
    requires i < |bs|
    requires before == Emit(PiecesUpTo(bs, i), render)
    requires after == before + OpenTag(bs, i) + render(bs[i]) + CloseTag(bs, i)
    ensures after == Emit(PiecesUpTo(bs, i + 1), render)
  {
    ConcatAssoc(before, OpenTag(bs, i), render(bs[i]), CloseTag(bs, i));
    EmitPieces(bs, i, render);
    EmitAppend(PiecesUpTo(bs, i), BlockPieces(bs, i), render);
    assert PiecesUpTo(bs, i + 1) == PiecesUpTo(bs, i) + BlockPieces(bs, i);
  }

  /** Where the container tags leave the reader: outside any list, inside one, or in a broken nesting. */
  datatype Nesting = Outside | Inside(tag: ListTag) | Broken

  /**
   * One piece read against the nesting: a container opens only outside any
   * list, an item stands only in a container of its own kind, a container
   * closes with its own tag, and any other block stands outside the lists.
   */
  function Step(s: Nesting, p: Piece): Nesting {
    match p
    case OpenList(t) => if s == Outside then Inside(t) else Broken
    case ListItem(t, _) => if s == Inside(t) then s else Broken
    case BlockPiece(_) => if s == Outside then s else Broken
    case CloseList(t) => if s == Inside(t) then Outside else Broken
  }

  /** Reading pieces one after another from the nesting `s`. */
  function Replay(s: Nesting, ps: seq<Piece>): Nesting
    decreases |ps|
  {
    if ps == [] then s else Replay(Step(s, ps[0]), ps[1..])
  }

  lemma {:induction false} ReplayAppend(s: Nesting, a: seq<Piece>, b: seq<Piece>)
    ensures Replay(s, a + b) == Replay(Replay(s, a), b)
    decreases |a|
  {
    if a == [] {
      assert a + b == b;
    } else {
      assert (a + b)[0] == a[0] && (a + b)[1..] == a[1..] + b;
      ReplayAppend(Step(s, a[0]), a[1..], b);
    }
  }

  /** The list a nesting has open, if any. */
  function OpenKind(s: Nesting): Option<ListTag> {
    match s
    case Inside(t) => Some(t)
    case _ => None
  }

  /** After block `i` the flags say which list, if any, the next block continues. */
  lemma FlagsAfter(bs: seq<Block>, i: nat, inList: bool, listType: Option<ListTag>)
    requires i < |bs|
    requires inList <==> ListKind(bs[i]).Some? && !Closes(bs, i)
    requires inList ==> listType == ListKind(bs[i])
    requires !inList ==> listType == None
    ensures inList <==> NestingAfter(bs, i + 1).Inside?
    ensures listType == OpenKind(NestingAfter(bs, i + 1))
  {
  }

  /** The nesting after the first `n` blocks: inside the list the next block continues, else outside. */
  function NestingAfter(bs: seq<Block>, n: nat): Nesting
    requires n <= |bs|
  {
    if n > 0 && ListKind(bs[n - 1]).Some? && !Closes(bs, n - 1) then Inside(ListKind(bs[n - 1]).value) else Outside
  }

  /** Block `i`'s pieces lead from the nesting before it to the nesting after it. */
  lemma ReplayBlock(bs: seq<Block>, i: nat)
    requires i < |bs|
    ensures Replay(NestingAfter(bs, i), BlockPieces(bs, i)) == NestingAfter(bs, i + 1)
  {
    var s := NestingAfter(bs, i);
    match ListKind(bs[i])
    case None =>
    case Some(t) =>
      var o: seq<Piece> := if Opens(bs, i) then [OpenList(t)] else [];
      var c: seq<Piece> := if Closes(bs, i) then [CloseList(t)] else [];
      ReplayAppend(s, o + [ListItem(t, bs[i])], c);
      ReplayAppend(s, o, [ListItem(t, bs[i])]);
  }

  lemma {:induction false} NestingUpTo(bs: seq<Block>, n: nat)
    requires n <= |bs|
    ensures Replay(Outside, PiecesUpTo(bs, n)) == NestingAfter(bs, n)
    decreases n
  {
    if n > 0 {
      var i := n - 1;
      NestingUpTo(bs, i);
      ReplayAppend(Outside, PiecesUpTo(bs, i), BlockPieces(bs, i));
      ReplayBlock(bs, i);
    }
  }

  /**
   * The list containers of the output are balanced and never nested: every
   * item stands inside a container of its own kind, every other block
   * outside all containers, and every container opened is closed with the
   * same tag by the end.
   */
  lemma WellNested(bs: seq<Block>)
    ensures Replay(Outside, Pieces(bs)) == Outside
  {
    NestingUpTo(bs, |bs|);
  }

  /** The blocks the pieces carry, in order. */
  function Carried(ps: seq<Piece>): seq<Block> {
    if ps == [] then []
    else
      match ps[0]
      case ListItem(_, b) => [b] + Carried(ps[1..])
      case BlockPiece(b) => [b] + Carried(ps[1..])
      case _ => Carried(ps[1..])
  }

  lemma {:induction false} CarriedAppend(a: seq<Piece>, b: seq<Piece>)
    ensures Carried(a + b) == Carried(a) + Carried(b)
    decreases |a|
  {
    if a == [] {
      assert a + b == b;
    } else {
      assert (a + b)[0] == a[0] && (a + b)[1..] == a[1..] + b;
      CarriedAppend(a[1..], b);
    }
  }

  /** Block `i`'s pieces carry block `i` alone. */
  lemma CarriedBlock(bs: seq<Block>, i: nat)
    requires i < |bs|
    ensures Carried(BlockPieces(bs, i)) == [bs[i]]
  {
    match ListKind(bs[i])
    case None =>
    case Some(t) =>
      var o: seq<Piece> := if Opens(bs, i) then [OpenList(t)] else [];
      var c: seq<Piece> := if Closes(bs, i) then [CloseList(t)] else [];
      CarriedAppend(o + [ListItem(t, bs[i])], c);
      CarriedAppend(o, [ListItem(t, bs[i])]);
  }

  lemma {:induction false} CarriedUpTo(bs: seq<Block>, n: nat)
    requires n <= |bs|
    ensures Carried(PiecesUpTo(bs, n)) == bs[..n]
    decreases n
  {
    if n > 0 {
      var i := n - 1;
      CarriedUpTo(bs, i);
      CarriedAppend(PiecesUpTo(bs, i), BlockPieces(bs, i));
      CarriedBlock(bs, i);
      assert bs[..n] == bs[..i] + [bs[i]];
    }
  }

  /** Nothing is lost or reordered: between the container tags stand exactly the blocks, in order. */
  lemma BlockOrder(bs: seq<Block>)
    ensures Carried(Pieces(bs)) == bs
  {
    CarriedUpTo(bs, |bs|);
    assert bs[..|bs|] == bs;
  }

  /**
   * Two bulleted items, a numbered item and a paragraph: one `ul` with two
   * items, then a separate `ol` with one, then the paragraph.
   */
  lemma MixedLists(a: seq<RichText>, b: seq<RichText>, c: seq<RichText>, d: seq<RichText>)
    ensures Pieces([BulletedListItem(a), BulletedListItem(b), NumberedListItem(c), Paragraph(d)])
      == [OpenList(Ul), ListItem(Ul, BulletedListItem(a)), ListItem(Ul, BulletedListItem(b)), CloseList(Ul),
          OpenList(Ol), ListItem(Ol, NumberedListItem(c)), CloseList(Ol),
          BlockPiece(Paragraph(d))]
  {
    var bs := [BulletedListItem(a), BulletedListItem(b), NumberedListItem(c), Paragraph(d)];
    assert BlockPieces(bs, 0) == [OpenList(Ul), ListItem(Ul, bs[0])];
    assert BlockPieces(bs, 1) == [ListItem(Ul, bs[1]), CloseList(Ul)];
    assert BlockPieces(bs, 2) == [OpenList(Ol), ListItem(Ol, bs[2]), CloseList(Ol)];
    assert BlockPieces(bs, 3) == [BlockPiece(bs[3])];
    assert PiecesUpTo(bs, 1) == [OpenList(Ul), ListItem(Ul, bs[0])];
    assert PiecesUpTo(bs, 2) == PiecesUpTo(bs, 1) + BlockPieces(bs, 1);
    assert PiecesUpTo(bs, 3) == PiecesUpTo(bs, 2) + BlockPieces(bs, 2);
    assert Pieces(bs) == PiecesUpTo(bs, 3) + BlockPieces(bs, 3);
  }
}
