# Knowledge-graph site: a verified Dafny model of its core

The site shows a Notion database as a 3D knowledge graph. Two serverless
handlers serve it:

- `api/notion.js` turns the database's pages into nodes, clusters and
  links. A link exists when a page's text mentions another page's slug as a
  `[[wiki link]]`.
- `api/notion-page.js` renders one page's blocks as HTML.

The browser front end (`src/main.js`) adds:

- a search box;
- a minimap with zoom buttons;
- a small music player;
- content windows that can be minimized to a taskbar, maximized and closed.

This project models that core in Dafny and proves what each piece promises.

- **`Text`**: the JavaScript string operations the core relies on, on
  `seq<char>`:
  - ASCII `toLowerCase`;
  - `trim`;
  - `includes`;
  - the `trim().toLowerCase()` normalisation of a wiki-link label;
  - `charAt(0).toUpperCase() + slice(1)`;
  - the character-by-character order `Array.prototype.sort` uses.
- **`WikiLinks`**: the regular expression `/\[\[([^\]]+)\]\]/g`. It is a
  tokenizer that splits a text into plain characters and link tokens, with
  two proved facts:
  - a round trip back to the text;
  - uniqueness: tokenizing the text of a canonical token list gives that
    list back.

  `RewriteWikiLinks` is the renderer's `replace` of each match by a
  node-link anchor.
- **`NotionBlocks`**: blocks and rich-text runs, reduced to the fields the
  two handlers read.
- **`RichTextRender`**: `richTextToHtml`. For each run it escapes `&`, `<`
  and `>`, nests the annotation tags, adds the colour span and the external
  link, then rewrites wiki links. The runs are joined in order.
- **`BlockRender`**: `blocksToHtml`, as the source's loop with its
  `inList`/`listType` state. It is proved equal to a specification that
  emits one list of open, item and close pieces per block. The lemmas show
  that every list opened is closed, and that the blocks appear in their own
  order.
- **`Graph`**: the database handler after its fetches.
  - The first loop builds the nodes and the clusters; the first page of a
    group writes its cluster.
  - `extractWikiLinks`: the distinct normalised labels, in first-seen order.
  - The link callbacks run in the order the page fetches complete. That
    order is an input permutation, because `Promise.all` does not fix it.
  - Links are deduplicated by the sorted key `a::b`.
  - The `core` cluster is added when no page created it.
- **`Search`**: `nodeMatchesSearch`, proved equal to case-insensitive
  occurrence of the query in the name, the id, a non-empty description, or
  the node's cluster name.
- **`Minimap`**: the zoom state as a class. Zooming moves by 30 within
  [50, 500], and the orthographic camera follows the zoom.
- **`MusicPlayer`**: the `musicPlayer` object's playlist cursor as a class:
  - `loadTrack`, `nextTrack`, `prevTrack`, `togglePlay`, `setPlaylist` and
    `updateTrackInfo`;
  - the track-name label kept in step with the cursor (audio error handlers that overwrite it are left out);
  - the cursor cycling through the playlist.
- **`Windows`**: the window registry as a class. It holds:
  - `openWindows`;
  - the `windowZIndex` counter;
  - `activeWindowId`;
  - the taskbar.

  Every operation keeps three facts true:
  - the taskbar lists exactly the minimized windows;
  - no two windows share a z-index;
  - the active window, while it is open, is on top.

## Model

| member | source | states |
|---|---|---|
| Text.LowerChar | api/notion.js:150 | the lower-case of a character: upper-case ASCII letters move down by 32, every other character is kept; the result is never upper-case |
| Text.UpperChar | api/notion.js:69 | the upper-case of a character: lower-case ASCII letters move up by 32, every other character is kept; the result is never lower-case |
| Text.ToLower | src/main.js:43-48 | `toLowerCase` keeps the length, lower-cases each character in place and leaves no upper-case letter |
| Text.ToLowerFixesLower | src/main.js:43-48 | a string is its own lower-case exactly when it has no upper-case letter; lower-casing is idempotent |
| Text.TrimStart | api/notion.js:150 | the result is a suffix of the input; everything it drops is white space; it does not start with white space |
| Text.TrimEnd | api/notion.js:150 | the result is a prefix of the input; everything it drops is white space; it does not end with white space |
| Text.Trim | api/notion.js:150 | `trim` yields a trimmed string that the input surrounds with white space only |
| Text.TrimmedBothEnds | api/notion.js:150 | trimming the start and then the end leaves neither end on white space |
| Text.PaddedBothEnds | api/notion.js:150 | the trimmed string sits in the input at the offset of the dropped leading white space, with only white space around it |
| Text.PaddedParts | api/notion.js:150 | dropping leading and then trailing white space leaves a string padded only by white space in the original |
| Text.TrimOfTrimmed | api/notion.js:150 | trimming a trimmed string changes nothing |
| Text.LowerKeepsTrimmed | api/notion.js:150 | lower-casing a trimmed string keeps it trimmed |
| Text.Normalize | api/notion.js:150 | `trim().toLowerCase()` yields a trimmed string without upper-case letters |
| Text.NormalizeIdempotent | api/notion-page.js:228 | normalising a normalised label changes nothing |
| Text.Includes | src/main.js:45-48 | `includes` is true exactly when the query occurs somewhere in the string |
| Text.InfixOfTail | src/main.js:45-48 | when the query is not at position 0, it occurs in the string exactly when it occurs in the string's tail |
| Text.LexLessTotal | api/notion.js:101 | the character-by-character order of `sort` is irreflexive and asymmetric, and total on distinct strings |
| Text.Capitalize | api/notion.js:69 | the cluster name's `charAt(0).toUpperCase() + slice(1)`; no contract of its own, `Text.CapitalizeFirst` states its length, head and tail |
| Text.CapitalizeFirst | api/notion.js:69 | `charAt(0).toUpperCase() + slice(1)` keeps the length and the tail, and the first character is its upper-case (never lower-case) |
| WikiLinks.CloseBracket | api/notion.js:141 | the first `]` at or after a position, or the end of the text: no `]` lies before it |
| WikiLinks.MatchAtStart | api/notion.js:141 | the pattern matches at the start of a text ending its label at `e` exactly when the result is `Some(e)` |
| WikiLinks.Tokenize | api/notion.js:141 | every link token holds a non-empty label without `]` |
| WikiLinks.TokenizeRoundTrip | api/notion.js:141 | putting the tokens back together gives the scanned text |
| WikiLinks.UntokenizeCons | api/notion.js:141 | the text of a token list is the first token's text followed by the rest's |
| WikiLinks.LinkSplit | api/notion.js:141 | a match ending at `e` is `[[`, the label, `]]`, then the rest of the text |
| WikiLinks.TokenizeCanonical | api/notion.js:141 | the scanner only produces canonical token lists, with no plain `[[label]]` left unmatched |
| WikiLinks.UntokenizeCanonical | api/notion.js:141 | scanning the text of a canonical token list gives that list back, so the tokenisation is unique |
| WikiLinks.LabelsAppend | api/notion.js:149-150 | the labels of two token lists are those of the first, then those of the second |
| WikiLinks.LabelsMembers | api/notion.js:149-150 | a label is listed exactly when some token is a link with that name |
| WikiLinks.NoBracketNoLinks | api/notion.js:149 | a text without `[` has no wiki links |
| WikiLinks.RenderWithoutLinks | api/notion-page.js:227-230 | with no link tokens, rendering gives back the scanned text |
| WikiLinks.RewriteWithoutLinks | api/notion-page.js:227-230 | a text without wiki links passes the `replace` unchanged |
| WikiLinks.TokenizeAfterPlain | api/notion-page.js:227 | a prefix without `[` becomes plain tokens, and the scan resumes on the rest |
| WikiLinks.RenderChars | api/notion-page.js:227-230 | plain tokens render as their characters |
| WikiLinks.TokenizeLinkFirst | api/notion-page.js:227 | a text that starts with `[[label]]` starts with that link token |
| WikiLinks.RenderPlain | api/notion-page.js:227-230 | a text without `[` renders as itself |
| WikiLinks.RenderCons | api/notion-page.js:227-230 | rendering a token list renders the first token and then the rest |
| WikiLinks.Anchor | api/notion-page.js:227-230 | the replacement for one match: `data-node` is the label trimmed and lower-cased, the text the label trimmed; no contract of its own, used by `RewriteOneLink` and `BoldLinkRun` |
| WikiLinks.RewriteWikiLinks | api/notion-page.js:227-230 | `text.replace(/\[\[([^\]]+)\]\]/g, …)` as the scan's tokens with every link replaced by its anchor; no contract of its own, `RewriteWithoutLinks`, `RenderPlain` and `RewriteOneLink` state what it does |
| WikiLinks.RenderOneLink | api/notion-page.js:227-230 | one link between bracket-free texts is replaced by its anchor, and nothing else changes |
| WikiLinks.RewriteOneLink | api/notion-page.js:227-230 | `p[[l]]q` rewrites to `p`, the node-link anchor for `l` (trimmed label, normalised `data-node`), then `q` |
| RichTextRender.ReplaceChar | api/notion-page.js:174-177 | replacing a character leaves no other character of it than those of the replacement |
| RichTextRender.ReplaceCharAppend | api/notion-page.js:174-177 | a global `replace` of one character distributes over concatenation |
| RichTextRender.Escape | api/notion-page.js:174-177 | escaped text has no `<` or `>`, and every character comes from the input or an entity |
| RichTextRender.ReplaceAbsent | api/notion-page.js:174-177 | replacing a character that does not occur changes nothing |
| RichTextRender.EscapeOne | api/notion-page.js:174-177 | the three chained `replace` calls escape each character independently (`&` first, so no entity is escaped twice) |
| RichTextRender.EscapeAppend | api/notion-page.js:174-177 | escaping distributes over concatenation |
| RichTextRender.EscapeRoundTrip | api/notion-page.js:174-177 | decoding `&amp;`, `&lt;`, `&gt;` gives back the original text: the escaping loses nothing |
| RichTextRender.UnescapeAngle | api/notion-page.js:176-177 | `&lt;` and `&gt;` at the front decode to `<` and `>` |
| RichTextRender.UnescapeFirst | api/notion-page.js:174-177 | decoding an escaped first character gives that character back, and decoding carries on after it |
| RichTextRender.OpenTagsAppend | api/notion-page.js:181-185 | the opening tags of a tag list are those of its parts, in order |
| RichTextRender.WrapAllAppend | api/notion-page.js:181-185 | wrapping in a list of tags is wrapping in the first part, then the second |
| RichTextRender.WrapAllNesting | api/notion-page.js:181-185 | successive wraps nest: the opening tags appear in reverse order, the closing tags in order |
| RichTextRender.WrapOpt | api/notion-page.js:181-185 | a conditional wrap adds its tag exactly when its flag is set |
| RichTextRender.Annotate | api/notion-page.js:180-185 | the five annotation wraps in the source's order; no contract of its own, `AnnotateWrapAll`, `AnnotateNesting` and `BoldOnly` state its markup |
| RichTextRender.AnnotateWrapAll | api/notion-page.js:181-185 | the annotations apply `code`, `strong`, `em`, `s`, `u` in that order, each only when its flag is set |
| RichTextRender.AnnotateNesting | api/notion-page.js:181-185 | annotated text is the active tags opened outermost-last, the text, then the tags closed innermost-first |
| RichTextRender.ColorWrap | api/notion-page.js:187-218 | the colour span from the 18-entry map; no contract of its own, `ColorWrapIdentity`, `ColorWrapBase` and `ColorWrapBackground` state each case |
| RichTextRender.ColorWrapIdentity | api/notion-page.js:187-218 | the colour step leaves the text unstyled exactly when the colour is not in the colour map (including `default` and no colour) |
| RichTextRender.ColorWrapBase | api/notion-page.js:189-198 | a base colour gives a foreground `color` span with its map value |
| RichTextRender.BackgroundInPalette | api/notion-page.js:199-207 | each base colour's `_background` variant is in the colour map |
| RichTextRender.ColorWrapBackground | api/notion-page.js:211-216 | a `_background` colour gives a background span with its map value |
| RichTextRender.JoinMapAppend | api/notion-page.js:170-233 | `map(...).join('')` distributes over concatenation |
| RichTextRender.LinkWrap | api/notion-page.js:221-224 | the anchor with `target="_blank"` and `rel="noopener noreferrer"` when `href` is set; no contract of its own, `LinkedRun` and `LinkedWikiRun` state its markup |
| RichTextRender.RenderRun | api/notion-page.js:170-232 | one run: escape, annotate and colour, link, then the wiki-link rewrite; no contract of its own, `PlainRun`, `StyledRun`, `LinkedStyledRun` and `LinkedRun` state each path |
| RichTextRender.RichTextToHtml | api/notion-page.js:167-234 | `richTextToHtml`: empty for an empty array, otherwise the runs joined; no contract of its own, `RichTextAppend` and `RichTextSingle` state how it composes |
| RichTextRender.RichTextAppend | api/notion-page.js:167-234 | runs render independently and in order: rendering a concatenation concatenates the renderings |
| RichTextRender.RichTextSingle | api/notion-page.js:167-234 | a single run renders as that run's markup |
| RichTextRender.PlainRun | api/notion-page.js:171-177 | a run without annotations, link or `[` renders as its escaped text, which decodes back to the text |
| RichTextRender.StyledRun | api/notion-page.js:180-219 | an annotated run without a link is escaped, annotated, coloured, then rewritten |
| RichTextRender.LinkedStyledRun | api/notion-page.js:180-230 | an annotated run with a link puts the annotated, coloured text inside the `<a href=… target="_blank" rel="noopener noreferrer">` anchor and rewrites wiki-links over the whole anchor |
| RichTextRender.LinkedRun | api/notion-page.js:221-224 | a linked run without annotations or `[` is exactly its escaped text inside that anchor |
| RichTextRender.LinkedWikiRun | api/notion-page.js:221-230 | a `[[label]]` run with a link becomes the node anchor nested inside the run's anchor, because the rewrite runs after the link step |
| RichTextRender.EscapeLinkText | api/notion-page.js:174-177 | escaping leaves `[[label]]` alone when the label has no entity characters |
| RichTextRender.BoldOnly | api/notion-page.js:182 | the bold flag alone wraps the text in `strong` |
| RichTextRender.BoldLinkRun | api/notion-page.js:180-230 | a bold `[[label]]` run becomes the node-link anchor inside `strong`: the rewrite sees through the tags |
| RichTextRender.NoEntityChars | api/notion-page.js:174-177 | text without `&`, `<`, `>` is unchanged by escaping |
| RichTextRender.BoldStyledRun | api/notion-page.js:182-218 | a bold run of any colour is `strong` first, then the colour step, then the rewrite |
| RichTextRender.BoldColoredRun | api/notion-page.js:180-219 | a bold run in a base colour is the escaped text inside `strong`, inside the colour's foreground span |
| RichTextRender.PaletteNoBracket | api/notion-page.js:189-198 | no base colour value contains `[` |
| RichTextRender.StrongNoBracket | api/notion-page.js:182 | bold markup adds no `[` |
| RichTextRender.PlainSpan | api/notion-page.js:215-230 | a colour span without `[` passes the wiki-link rewrite unchanged |
| BlockRender.BlockHtml | api/notion-page.js:78-149 | the block `switch`: each type's markup, nothing for the skipped types; no contract of its own, `SilentIffEmpty`, `ListItemMarkup`, `HeadingLevels` and `MixedLists` state its cases |
| BlockRender.ResolveUrl | api/notion-page.js:120-133 | the file URL when set, else the external URL; empty exactly when both are |
| BlockRender.CodeLanguage | api/notion-page.js:102 | the block's language when set, else `plaintext` |
| BlockRender.CalloutIcon | api/notion-page.js:112 | the block's emoji when set, else the light-bulb emoji U+1F4A1 |
| BlockRender.BookmarkText | api/notion-page.js:136-137 | a bookmark shows its caption's markup when it has one, else its URL |
| BlockRender.SilentIffEmpty | api/notion-page.js:78-149 | a block renders nothing exactly when it is an empty paragraph, an image or video without a URL, or an unsupported type |
| BlockRender.ListItemMarkup | api/notion-page.js:96-99 | both list-item types render as `li` around their text |
| BlockRender.HeadingLevels | api/notion-page.js:84-94 | headings 1, 2, 3 render one level lower, as `h2`, `h3`, `h4` |
| BlockRender.EmitAppend | api/notion-page.js:53-165 | emitting pieces distributes over concatenation |
| BlockRender.EmitPieces | api/notion-page.js:70-156 | one block's pieces emit as its opening list tag, its markup, then its closing list tag |
| BlockRender.BlocksToHtml | api/notion-page.js:53-165 | the loop's HTML equals the emitted piece list of the blocks |
| BlockRender.RenderBlockStep | api/notion-page.js:58-157 | one iteration appends the block's opening tag, markup and closing tag, and leaves `inList`/`listType` describing the nesting after the block |
| BlockRender.OpenStep | api/notion-page.js:70-75 | the loop opens a list exactly where the specification's pieces do, and an open list matches the block's kind |
| BlockRender.CloseStep | api/notion-page.js:151-156 | the loop's close test holds exactly where the specification closes a list: a list item followed by no list item or by another kind |
| BlockRender.EmitStep | api/notion-page.js:58-157 | appending one block's output extends the output of the blocks before it |
| BlockRender.ReplayAppend | api/notion-page.js:53-165 | replaying pieces over a nesting state composes over concatenation |
| BlockRender.FlagsAfter | api/notion-page.js:151-156 | after the close test, the flags describe the nesting after the block |
| BlockRender.ReplayBlock | api/notion-page.js:58-157 | one block's pieces move the nesting state from before the block to after it |
| BlockRender.NestingUpTo | api/notion-page.js:58-157 | the pieces of the first `n` blocks lead from outside any list to the nesting after block `n` |
| BlockRender.WellNested | api/notion-page.js:159-162 | every list opened is closed: the whole output ends outside any list |
| BlockRender.CarriedAppend | api/notion-page.js:53-165 | the blocks carried by pieces compose over concatenation |
| BlockRender.CarriedBlock | api/notion-page.js:58-157 | each block's pieces carry exactly that block |
| BlockRender.CarriedUpTo | api/notion-page.js:58-157 | the pieces of the first `n` blocks carry exactly those blocks |
| BlockRender.BlockOrder | api/notion-page.js:58-157 | every block is rendered once, in the input order, and nothing else is |
| BlockRender.MixedLists | api/notion-page.js:58-157 | two bulleted items, a numbered item and a paragraph give one `ul` of two items, a separate `ol` of one item, then the paragraph |
| Graph.NodeOf | api/notion.js:44-63 | a node's id is the slug or else the page id; a missing name, group or weight (or a zero weight) becomes `Untitled`, `meta`, 3; the group is lower-cased |
| Graph.ClusterOf | api/notion.js:67-74 | the cluster a group's first page creates; no contract of its own, `ClusterOfFields` states its name and colours |
| Graph.ClusterOfFields | api/notion.js:67-74 | a cluster's name is the group capitalised (first character upper-cased, rest kept); its colours are the page's or else `#6366f1`, `#e0e7ff`, `#1e1b4b` |
| Graph.ClustersKeys | api/notion.js:67-74 | the clusters hold exactly one entry per group of the pages so far |
| Graph.ClustersFirstWriter | api/notion.js:67-74 | each group's entry is the one its first page wrote; later pages never overwrite it |
| Graph.FirstWriterAt | api/notion.js:67-74 | the entry written by a group's first page survives every later page |
| Graph.GroupNotYetSeen | api/notion.js:67 | the first page of a group finds no entry for it |
| Graph.ClustersAgree | api/notion.js:44-75 | the clusters after `n` pages depend on the first `n` nodes only |
| Graph.ClustersStep | api/notion.js:67-74 | one more page adds its group's entry when it is missing, and otherwise changes nothing |
| Graph.CollectPages | api/notion.js:39-75 | one node per page in page order, the set of valid slugs, and the clusters as first written |
| Graph.AddPage | api/notion.js:44-75 | one iteration appends the page's node, adds its slug, and adds its cluster when missing |
| Graph.MapLabels | api/notion.js:150 | mapping over labels keeps their number and maps each in place |
| Graph.TextLabels | api/notion.js:147-151 | the labels the `exec` loop finds in one text, trimmed and lower-cased, in match order; no contract of its own, `TextLabelsNormalized`, `TextLabelsLink` and `TextLabelsChar` state it |
| Graph.TextLabelsNormalized | api/notion.js:150 | every label found in a text is trimmed and lower-case |
| Graph.RunsLabelsNormalized | api/notion.js:143-153 | every label found in a list of runs is trimmed and lower-case |
| Graph.BlocksLabelsNormalized | api/notion.js:155-168 | every label found in a list of blocks is trimmed and lower-case |
| Graph.InsertAllSet | api/notion.js:139-171 | adding labels to the set keeps each once, loses none, and keeps earlier entries first |
| Graph.InsertAllCons | api/notion.js:150 | adding a list of labels adds its head and then its tail |
| Graph.InsertAllAppend | api/notion.js:143-168 | adding two lists of labels is adding the first, then the second |
| Graph.TextLabelsLink | api/notion.js:149-150 | a match at the start of a text contributes its normalised label before the labels of the rest |
| Graph.TextLabelsChar | api/notion.js:149 | without a match at the start, the labels are those of the tail |
| Graph.ScanText | api/notion.js:147-151 | the `exec` loop adds the text's labels to the set |
| Graph.ScanStep | api/notion.js:149-150 | one step of the `exec` loop advances and keeps the labels still to add |
| Graph.ScanLinkStep | api/notion.js:149-150 | after a match, the label is added and the scan resumes past `]]` |
| Graph.ScanCharStep | api/notion.js:149 | without a match, the scan moves one character on with the same labels to come |
| Graph.ScanRuns | api/notion.js:143-153 | `extractFromRichText` adds the labels of every run in order |
| Graph.ExtractWikiLinks | api/notion.js:139-171 | the distinct labels of the blocks' `rich_text` and `caption`, in first-seen order, each once and normalised |
| Graph.BlocksLabelsAt | api/notion.js:155-168 | the labels from block `k` on are block `k`'s, then those of the rest |
| Graph.ScanBlock | api/notion.js:156-167 | one block adds the labels of its `rich_text`, then of its `caption` |
| Graph.LinkKey | api/notion.js:101 | `[a, b].sort().join('::')`; no contract of its own, `LinkKeySymmetric` and `LinkKeyCollision` state its properties |
| Graph.LinkKeySymmetric | api/notion.js:101 | the sorted key does not depend on which end is the source |
| Graph.LinkKeyCollision | api/notion.js:101 | slugs containing `::` can share a key: `a::b`→`c` and `a`→`b::c` collide |
| Graph.KeysAppend | api/notion.js:103-108 | appending a link adds its key to the key set |
| Graph.AddPageLinks | api/notion.js:99-111 | the `forEach` over a page's labels appends the links `AddLinks` describes and keeps `linkSet` equal to their keys |
| Graph.AddLinks | api/notion.js:99-111 | the `forEach` over one page's targets; no contract of its own, `AddLinksGrow`, `AddLinksDistinct`, `AddLinksSound` and `AddLinksComplete` state it |
| Graph.AddLinksGrow | api/notion.js:99-111 | links are only ever appended |
| Graph.KeysPrefix | api/notion.js:103 | a longer list of links has at least the keys of its prefix |
| Graph.AddLinksDistinct | api/notion.js:101-108 | no two links share a key |
| Graph.AddLinksSound | api/notion.js:100 | every added link goes from the page to a different, valid target among its labels |
| Graph.AddLinksComplete | api/notion.js:99-111 | every valid label other than the page's own slug ends up with a link key |
| Graph.TargetsLabels | api/notion.js:93-96 | a fetched page's targets are its distinct normalised labels |
| Graph.AllTargets | api/notion.js:81-96 | one target list per page |
| Graph.FoldLinks | api/notion.js:81-116 | the callbacks of `Promise.all` applied in a given completion order; no contract of its own, `FoldLinksGrow`, `FoldLinksDistinct`, `FoldLinksSound` and `FoldLinksComplete` state it for every order |
| Graph.FoldLinksGrow | api/notion.js:81-116 | callbacks in any order only append links |
| Graph.FoldLinksDistinct | api/notion.js:81-116 | in any completion order, no two links share a key |
| Graph.FoldLinksSound | api/notion.js:81-116 | every link comes from some page's callback, to one of its valid targets |
| Graph.FoldLinksComplete | api/notion.js:81-116 | every valid target of a page whose callback ran has a link key |
| Graph.FoldStep | api/notion.js:81-116 | folding from position `k` is one callback followed by the rest |
| Graph.PageCallback | api/notion.js:82-115 | a failed fetch adds nothing; a fetched page adds the links for its extracted labels |
| Graph.CollectLinks | api/notion.js:77-116 | the callbacks in completion order build the fold of the link step over that order |
| Graph.BuildGraph | api/notion.js:39-127 | the nodes, the links of every callback, the clusters as first written, plus `core` when no page made it |
| Graph.GraphKeysDistinct | api/notion.js:101-108 | no two links of the graph share a key, whatever the completion order |
| Graph.GraphLinksSound | api/notion.js:93-111 | every link goes from a fetched page that mentions its target to a different, valid, normalised slug |
| Graph.GraphLinksComplete | api/notion.js:93-111 | every valid mention of another page is covered by a link with its key |
| Graph.UpperCaseSlugNeverTarget | api/notion.js:96-111 | a slug with an upper-case letter is never a link target, because labels are lower-cased |
| Graph.FailedFetchNoTargets | api/notion.js:93 | a page whose fetch failed adds no links |
| Search.ContainsIgnoringCase | src/main.js:43-48 | searching the lower-cased text for the lower-cased query is case-insensitive occurrence |
| Search.NodeMatchesSearch | src/main.js:42-50 | `nodeMatchesSearch`; no contract of its own, `MatchesIff` states when it holds |
| Search.MatchesIff | src/main.js:42-50 | a node matches exactly when the query occurs, ignoring case, in its name, id, non-empty description or cluster name |
| Search.EmptyQueryMatches | src/main.js:42-50 | the empty query matches every node |
| Search.QueryCaseIrrelevant | src/main.js:43 | the query's letter case makes no difference |
| Search.ClusterNameMatches | src/main.js:48 | a cluster's name makes its whole group match |
| Minimap.ZoomedIn | src/main.js:388-391 | `Math.max(MIN_ZOOM, minimapZoom - 30)`; no contract of its own, `StepsKeepGrid`, `StepsMoveBy30` and `ZoomRoundTrip` state it |
| Minimap.ZoomedOut | src/main.js:393-396 | `Math.min(MAX_ZOOM, minimapZoom + 30)`; no contract of its own, the same lemmas state it |
| Minimap.StepsKeepGrid | src/main.js:336-396 | both zoom steps keep the zoom in [50, 500] on the grid 200 + 30k |
| Minimap.StepsMoveBy30 | src/main.js:388-396 | each step moves by exactly 30 unless the zoom is already at that bound |
| Minimap.ZoomRoundTrip | src/main.js:388-396 | zooming in then out (or out then in) returns to the same level, away from the bounds |
| Minimap.ZoomInReachesMin | src/main.js:388-391 | `k` zoom-ins give `max(50, zoom - 30k)` and stay on the grid |
| Minimap.MinimapZoom.constructor | src/main.js:336-344 | the zoom starts at 200 with the camera extents at ±200 |
| Minimap.MinimapZoom.UpdateCamera | src/main.js:348-354 | the camera's extents become `-zoom`, `zoom`, `zoom`, `-zoom` |
| Minimap.MinimapZoom.ZoomIn | src/main.js:388-391 | the zoom becomes `max(50, zoom - 30)`, stays on the grid, and the camera follows |
| Minimap.MinimapZoom.ZoomOut | src/main.js:393-396 | the zoom becomes `min(500, zoom + 30)`, stays on the grid, and the camera follows |
| MusicPlayer.NextIndex | src/main.js:941-944 | the index `nextTrack` loads, wrapping to 0 after the last; no contract of its own, `NextPrevInverse` and `NextCycles` state it |
| MusicPlayer.PrevIndex | src/main.js:930-933 | the index `prevTrack` loads, wrapping to the last before 0; no contract of its own, `NextPrevInverse` states it |
| MusicPlayer.NextPrevInverse | src/main.js:930-947 | on a non-empty playlist, next and previous stay in range and undo each other |
| MusicPlayer.NextTimesCounts | src/main.js:940-944 | below the last track, each next adds one to the index |
| MusicPlayer.NextTimesCompose | src/main.js:940-944 | `a` nexts then `b` nexts are `a + b` nexts |
| MusicPlayer.NextCycles | src/main.js:940-944 | `n` nexts on a playlist of `n` tracks come back to the same track |
| MusicPlayer.Player.constructor | src/main.js:839-889 | the default three-track playlist, cursor 0, not playing, nothing loaded, label showing the first title |
| MusicPlayer.Player.UpdateTrackInfo | src/main.js:921-928 | the label shows the current title, or `No tracks found` on an empty playlist |
| MusicPlayer.Player.LoadTrack | src/main.js:912-919 | an index outside the playlist changes nothing; otherwise it becomes current, its file is loaded, and the label follows |
| MusicPlayer.Player.PrevTrack | src/main.js:930-938 | the cursor moves back, wrapping from the first track to the last, and that track's file is loaded; an empty playlist stays as it is |
| MusicPlayer.Player.NextTrack | src/main.js:940-948 | the cursor moves on, wrapping from the last track to the first, and that track's file is loaded; an empty playlist stays as it is |
| MusicPlayer.Player.TogglePlay | src/main.js:891-910 | nothing on an empty playlist; otherwise the playing flag flips, starting with nothing loaded loads the current track, and otherwise the loaded file stays |
| MusicPlayer.Player.SetPlaylist | src/main.js:1030-1034 | the new tracks with the cursor at 0 and the label following |
| Windows.ActiveOnTop | src/main.js:758-763 | the active window, while open, has a z-index above every other open window |
| Windows.RaiseKeepsStacked | src/main.js:758-763 | giving a window the next z-index keeps z-indices distinct and puts it on top |
| Windows.InsertKeepsStacked | src/main.js:578-610 | a new window at the next z-index keeps z-indices distinct |
| Windows.MinimizedAfterInsert | src/main.js:605-610 | a new, unminimized window does not change the taskbar |
| Windows.MinimizedAfterSet | src/main.js:765-784 | minimizing or restoring one window adds it to, or removes it from, the taskbar's ids |
| Windows.MinimizedAfterClose | src/main.js:797-805 | closing a window drops it from the taskbar's ids and leaves the others |
| Windows.ToggleTwice | src/main.js:786-795 | two maximize toggles leave the registry as it was |
| Windows.WindowRegistry.constructor | src/main.js:557-559 | no windows, counter 200, nothing active, empty hidden taskbar |
| Windows.WindowRegistry.UpdateTaskbar | src/main.js:807-831 | the taskbar lists exactly the minimized windows and is visible exactly when there is one |
| Windows.WindowRegistry.BringToFront | src/main.js:758-763 | an open window gets the next z-index and becomes active; an unknown id changes nothing |
| Windows.WindowRegistry.MinimizeWindow | src/main.js:765-773 | an open window is marked minimized and appears on the taskbar; nothing else changes |
| Windows.WindowRegistry.RestoreWindow | src/main.js:775-784 | an open window is unminimized, leaves the taskbar, and is brought to the front |
| Windows.WindowRegistry.ToggleMaximize | src/main.js:786-795 | an open window's maximized flag flips; nothing else changes |
| Windows.WindowRegistry.CloseWindow | src/main.js:797-805 | only that entry is removed and the taskbar refreshed; `activeWindowId` is left as it was |
| Windows.WindowRegistry.CreateWindow | src/main.js:561-618 | an open node is restored and brought to the front; a new one gets an entry offset by 30 per open window, unminimized and unmaximized, at the top of the stack and active |
| Windows.WindowRegistry.InsertWindow | src/main.js:578-610 | the new entry takes the next z-index and the offsets `100 + 30n`, `80 + 30n` |

## Left out

- HTTP plumbing is not modelled: CORS headers, the `OPTIONS` reply, the `pageId` check, the API-key check and the status codes. The Notion fetches become inputs: the database pages, and for each page its blocks or `None` when the fetch failed or threw.
- The completion order of the page callbacks under `Promise.all` is an input permutation. The callbacks are modelled as running one after another, which JavaScript's single thread guarantees between `await`s.
- A block whose payload object is missing is not modelled. The renderer would throw on it, and the extractor skips it. The model always has a payload.
- `richTextToHtml`'s `preserveWhitespace` parameter is not modelled. The source never reads it.
- `to_do` and `table_of_contents` blocks render nothing, because the renderer has no case for them. Node ids are not made unique: the first loop pushes every page's node.
- JavaScript prototype keys are not modelled. A group or colour named like an `Object.prototype` member (`constructor`, `toString`) reads a built-in function in the source. The model's maps hold only the keys written.
- Text.LowerChar, Text.UpperChar: only ASCII letters change case. `toLowerCase`/`toUpperCase` on other Unicode letters is not modelled.
- Text.LexLessTotal: order is by character code. For characters outside the Basic Multilingual Plane this differs from UTF-16 code-unit order.
- Graph.NodeOf: `weight` is an integer. Non-integer weights and `NaN` are not modelled.
- Graph.LinkKeyCollision: key collisions for slugs containing `::` are modelled as written. The colliding link is dropped, as in the source.
- DOM, audio and WebGL effects are not modelled: element creation, event listeners, drag and resize, `innerHTML` content, the maximize button glyph, `audio.play()`/`pause()`, the progress bar, volume, mute and the collapse toggle. `updateProjectionMatrix` is also not modelled.
- Windows.WindowRegistry.UpdateTaskbar: the taskbar is the set of minimized ids. The order of `Object.entries` and the item markup are not modelled.
- Windows.WindowRegistry.CreateWindow: the part after the first `await` is not modelled: fetching and inserting the page content.
- MusicPlayer.Player.TogglePlay: the asynchronous `play()` failure, which rewrites the track label to a hint, is not modelled.
- MusicPlayer.Player.Valid: the audio element's `error` listener (`handleError`) overwrites the label with `Track not found`; that event is not modelled, so the label is only proved to follow the cursor between such errors.
- MusicPlayer.Player.LoadTrack: `audio.src` holds the track's path as given. The browser's resolution to an absolute URL is not modelled.
- The minimap's panning, its node dots and the main 3D scene are outside this model.
