/**
 * The Notion content blocks both API handlers read. A block is a tagged
 * union keyed by its `type`; each variant keeps only the payload fields the
 * renderer (api/notion-page.js) or the link extractor (api/notion.js)
 * looks at. A string field holds `""` where the payload leaves it out, and a
 * rich-text field holds `[]` where the array is missing: the source treats
 * the two alike (`x || default`, `!arr || !arr.length`, a `for` over no runs).
 */
module NotionBlocks {
  import opened Text

  /** `rt.annotations`; `color` is `""` when absent. */
  datatype Annotations = Annotations(
    bold: bool,
    italic: bool,
    strikethrough: bool,
    underline: bool,
    code: bool,
    color: string)

  /** One rich-text run: `plain_text`, optional `annotations`, `href` (`""` when null). */
  datatype RichText = RichText(plainText: string, annotations: Option<Annotations>, href: string)

  /**
   * One top-level block. `Unsupported` stands for every `type` the renderer
   * has no case for (`to_do`, `table_of_contents`, ...); it still carries the
   * `rich_text` and `caption` arrays the link extractor scans.
   */
  datatype Block =
    | Paragraph(richText: seq<RichText>)
    | Heading1(richText: seq<RichText>)
    | Heading2(richText: seq<RichText>)
    | Heading3(richText: seq<RichText>)
    | BulletedListItem(richText: seq<RichText>)
    | NumberedListItem(richText: seq<RichText>)
    | Code(richText: seq<RichText>, language: string, caption: seq<RichText>)
    | Quote(richText: seq<RichText>)
    | Callout(richText: seq<RichText>, emoji: string)
    | Divider
    | Image(fileUrl: string, externalUrl: string, caption: seq<RichText>)
    | Video(fileUrl: string, externalUrl: string, caption: seq<RichText>)
    | Bookmark(url: string, caption: seq<RichText>)
    | Toggle(richText: seq<RichText>)
    | Unsupported(richText: seq<RichText>, caption: seq<RichText>)

  /** `content.rich_text` of the block's payload, `[]` where the type has none. */
  function RichTextOf(b: Block): seq<RichText> {
    match b
    case Divider | Image(_, _, _) | Video(_, _, _) | Bookmark(_, _) => []
    case _ => b.richText
  }

  /** `content.caption` of the block's payload, `[]` where the type has none. */
  function CaptionOf(b: Block): seq<RichText> {
    match b
    case Code(_, _, c) => c
    case Image(_, _, c) => c
    case Video(_, _, c) => c
    case Bookmark(_, c) => c
    case Unsupported(_, c) => c
    case _ => []
  }
}
