# XmlToWikiParser in Dafny

XmlToWikiParser turns XML documents into wiki markup. It walks the content of each
document's root element in order:

- A `section` element becomes a heading line framed by `=` signs. The number of signs
  grows with the nesting depth.
- A `bold` element's content is wrapped in `'''`, and an `italic` element's content in
  `''`.
- A text node is emitted normalised. Under a section it sits on a line of its own.
- Everything else is dropped.

The depth lives in a static counter, `headingLevel`, that starts at 1. After the walk:

- every pair of newlines in the output is collapsed into one;
- the output file name is the input file name with every match of the regular
  expression `.xml` replaced by `.biqui`.

The model has six modules:

- `XmlTree` (`xml_tree.dfy`): the parsed document tree the walk receives, as the JDOM
  library delivers it. This covers the attribute lookup and the library's text
  normalisation. The module also proves what normalisation yields: empty exactly for
  white space, always in normal form, idempotent.
- `Wiki` (`wiki.dfy`): the output as a function of the tree and the entry level. Each
  function returns the appended text and the level left behind. It also proves the
  depth bookkeeping: the level after a list is the entry level minus the number of
  sections without content that the walk reaches. Finally it proves that the output
  only grows, and what a list of plain text renders to.
- `Translator` (`translator.dfy`): the translator itself. It is a class whose field
  `headingLevel` the methods update in place. Each method appends to the output it is
  given, just as the Java static methods do. Each method is proved to append exactly
  what `Wiki` specifies and to leave `headingLevel` where `Wiki` says.
  `GetHeadingMarkup` is the counting loop that builds the `=` run. `ProcessFile` is the
  per-file part of the driver: translate from the current level (never reset), collapse
  the newlines, derive the output name.
- `Rewrites` (`rewrites.dfy`): the newline collapse and the file rename, as single
  left-to-right passes without overlap, with their properties.
- `Scenarios` (`scenarios.dfy`): small documents translated end to end, for arbitrary
  titles and texts.
- `Strings` (`strings.dfy`): the associativity and prefix facts the proofs use.

The text rule asks a text node for the name of its parent element. Every text node the
walk reaches is an item of the content list being walked, so its parent is the element
that owns that list. The model passes that element's name down the walk as
`parentName`. At the top level it is the root element's name.

### Behaviour a reader might not expect

The model follows the code as written, including these points:

- **Depth is never reset.** One might expect `headingLevel` to start again at 1 for each
  document. The code never resets it, so `ProcessFile` starts from whatever level the
  previous file left.
- **Empty sections lower the depth.** One might expect a section without content to
  leave the depth unchanged. The code decrements outside the `if` (line 180), so such a
  section lowers the level by one, as `EmptySection` and `EmptySectionsLowerTheLevel`
  show.
- **No `=` at level 0 or below.** The markup is not simply `min(level, 6)` signs: at
  level 0 or below the loop builds no `=` at all, so a heading there has none.
- **Text under a section is trimmed and put on its own line.** For a section "Intro"
  holding the text `"Hello "` and a bold "world", one might expect
  `\n=Intro=\n\nHello '''world'''`. The code trims `"Hello "` to `"Hello"` and puts it on
  its own line, because its parent is a section. Before the collapse it produces
  `\n=Intro=\n\nHello\n'''world'''`, and after it `\n=Intro=\nHello\n'''world'''`
  (`IntroRendered`, `IntroExample`).
- **The rename is a regular expression.** It is not a replacement of the literal
  substring `.xml`. The dot stands for any character except a line terminator, so
  `fooxml` becomes `fo.biqui` (`RenameDotExample`).
- **The translation has no error case.** Given a tree, the walk always produces a text.

## Model

| member | source | states |
|---|---|---|
| XmlTree.CollapseSpacesShape | src/main/java/com/conversion/files/XmlToWikiParser.java:136 | The normalisation pass leaves only single blanks. It leaves no leading blank. It yields nothing exactly when the text is all XML white space. |
| XmlTree.NormalizeEmpty | src/main/java/com/conversion/files/XmlToWikiParser.java:136-137 | A text normalises to the empty string exactly when it consists of white space only, which is when the emptiness test at line 137 skips it. |
| XmlTree.NormalizeShape | src/main/java/com/conversion/files/XmlToWikiParser.java:136 | Every normalised text is in normal form: no white space but single blanks, none at either end. |
| XmlTree.CollapseKeepsSingleBlanks | src/main/java/com/conversion/files/XmlToWikiParser.java:136 | Text with single blanks only, and no leading blank where one would be dropped, passes through the normalisation pass unchanged. |
| XmlTree.NormalizeKeepsNormalForm | src/main/java/com/conversion/files/XmlToWikiParser.java:136 | Text already in normal form is its own normalisation. |
| XmlTree.NormalizeIdempotent | src/main/java/com/conversion/files/XmlToWikiParser.java:136 | Normalising twice gives the same text as normalising once. |
| Wiki.EqualsRun | src/main/java/com/conversion/files/XmlToWikiParser.java:205-207 | n appended signs give a string of length n made of `=` only. |
| Wiki.HeadingMarkup | src/main/java/com/conversion/files/XmlToWikiParser.java:200-210 | The markup is exactly `======` from level 6 up, exactly `level` signs `=` for levels 0 to 5, and empty at level 0 and below. |
| Wiki.LevelAfterPrefix | src/main/java/com/conversion/files/XmlToWikiParser.java:132-153 | After the first `count` items of a list, the level is the entry level minus the sections without content that the walk reaches among them. |
| Wiki.LevelAfterList | src/main/java/com/conversion/files/XmlToWikiParser.java:132-198 | After a whole list, the level is the entry level minus the number of sections without content reachable through sections, bold and italic. With none, the level is restored. |
| Wiki.LevelAfterNode | src/main/java/com/conversion/files/XmlToWikiParser.java:155-198 | A section with content and bold or italic change the level only through their content. A section without content lowers it by one. Text, other content and unknown elements leave it unchanged. |
| Wiki.PrefixTextGrows | src/main/java/com/conversion/files/XmlToWikiParser.java:132-153 | Append-only: the text of any shorter prefix of a content list is a prefix of the text of any longer one. |
| Wiki.SiblingLevel | src/main/java/com/conversion/files/XmlToWikiParser.java:133-151 | Item `i` is rendered after the text of the items before it. It starts at the entry level lowered by the sections without content before it, so siblings after none all start at the entry level. |
| Wiki.TextOnlyPrefix | src/main/java/com/conversion/files/XmlToWikiParser.java:133-143 | Under a parent that is not a section, the first `count` text nodes render as their normalised values concatenated, at an unchanged level. |
| Wiki.TextOnlyList | src/main/java/com/conversion/files/XmlToWikiParser.java:133-143 | Under a parent that is not a section, a list of text nodes renders as the concatenation of their normalised values and leaves the level unchanged. |
| Translator.XmlToWikiParser.constructor | src/main/java/com/conversion/files/XmlToWikiParser.java:30 | The heading level starts at 1. |
| Translator.XmlToWikiParser.ProcessContentList | src/main/java/com/conversion/files/XmlToWikiParser.java:132-153 | The loop keeps the incoming output as a prefix and appends exactly the list's rendering, item by item. Each item starts at the level the previous one left. The final level is the list's. |
| Translator.XmlToWikiParser.ProcessElement | src/main/java/com/conversion/files/XmlToWikiParser.java:155-170 | Dispatches on the tag: section, bold and italic as specified. Any other tag appends nothing and leaves the level unchanged, its content unvisited. |
| Translator.XmlToWikiParser.ProcessSection | src/main/java/com/conversion/files/XmlToWikiParser.java:172-182 | Appends the heading line built from the markup of the entry level and the heading, "null" when absent. Appends the content rendered one level deeper when there is any. Leaves the level one below what the content left, or one below the entry level when there is none. |
| Translator.XmlToWikiParser.ProcessBold | src/main/java/com/conversion/files/XmlToWikiParser.java:184-190 | Appends `'''`, the content's rendering, then `'''`. The level is what the content leaves. |
| Translator.XmlToWikiParser.ProcessItalic | src/main/java/com/conversion/files/XmlToWikiParser.java:192-198 | Appends `''`, the content's rendering, then `''`. The level is what the content leaves. |
| Translator.XmlToWikiParser.GetHeadingMarkup | src/main/java/com/conversion/files/XmlToWikiParser.java:200-210 | The counting loop returns exactly the heading markup: six signs from level 6 up, `level` signs below, none at 0 and below. |
| Translator.XmlToWikiParser.ProcessFile | src/main/java/com/conversion/files/XmlToWikiParser.java:93-99 | The written text is the collapse of the root content's rendering, starting at the level left by earlier files. The level afterwards is the rendering's. The output name is the rename of the input name. |
| Rewrites.CollapseNewlines | src/main/java/com/conversion/files/XmlToWikiParser.java:98 | The collapse never makes the output longer. |
| Rewrites.CollapseKeepsOtherCharacters | src/main/java/com/conversion/files/XmlToWikiParser.java:98 | With newlines removed, output and input before the collapse are equal: every other character survives, in order. |
| Rewrites.CollapseEvenRun | src/main/java/com/conversion/files/XmlToWikiParser.java:98 | A run of 2m newlines becomes m newlines, whatever follows, and the scan goes on after the run. |
| Rewrites.CollapseRunThen | src/main/java/com/conversion/files/XmlToWikiParser.java:98 | A run of k newlines before text that does not start with a newline becomes ceil(k/2) newlines, and the text is collapsed on its own. |
| Rewrites.CollapseRun | src/main/java/com/conversion/files/XmlToWikiParser.java:98 | A run of k newlines becomes ceil(k/2) newlines. |
| Rewrites.CollapseChangesIff | src/main/java/com/conversion/files/XmlToWikiParser.java:98 | The collapse changes a string exactly when it holds two newlines in a row, and then makes it strictly shorter. |
| Rewrites.CollapseThroughText | src/main/java/com/conversion/files/XmlToWikiParser.java:98 | Text without newlines passes through unchanged whatever follows. |
| Rewrites.CollapseKeepsText | src/main/java/com/conversion/files/XmlToWikiParser.java:98 | Text without newlines is left as it is. |
| Rewrites.CollapseAfterLine | src/main/java/com/conversion/files/XmlToWikiParser.java:98 | The blank line between a heading line and the next line disappears; the rest collapses on its own. |
| Rewrites.CollapseNotIdempotent | src/main/java/com/conversion/files/XmlToWikiParser.java:98 | The collapse is a single pass: three newlines become two, and only a second pass would give one. |
| Rewrites.RenameToWiki | src/main/java/com/conversion/files/XmlToWikiParser.java:116 | The rename never shortens the name. |
| Rewrites.RenameChangesIff | src/main/java/com/conversion/files/XmlToWikiParser.java:116 | The rename changes a name exactly when the pattern (any character but a line terminator, then `xml`) occurs in it, and then lengthens it. |
| Rewrites.RenameXmlExtension | src/main/java/com/conversion/files/XmlToWikiParser.java:116 | Any name ending in `.xml` has that ending replaced by `.biqui`, and the part before it is renamed on its own: no match runs across the boundary. |
| Rewrites.RenameExtensionExample | src/main/java/com/conversion/files/XmlToWikiParser.java:116 | `doc.xml` becomes `doc.biqui`. |
| Rewrites.RenameEveryMatchExample | src/main/java/com/conversion/files/XmlToWikiParser.java:116 | Every match is replaced: `a.xml.xml` becomes `a.biqui.biqui`. |
| Rewrites.RenameDotExample | src/main/java/com/conversion/files/XmlToWikiParser.java:116 | The dot matches any character: `fooxml` becomes `fo.biqui`. |
| Scenarios.TextUnder | src/main/java/com/conversion/files/XmlToWikiParser.java:135-143 | A text node emits nothing when it is white space only. Otherwise it emits its normalised value, wrapped in newlines exactly when the parent is a section. It never changes the level. |
| Scenarios.SectionWithText | src/main/java/com/conversion/files/XmlToWikiParser.java:172-182 | A level-1 section with text emits `\n=title=\n` followed by the text on its own line, and restores the level. |
| Scenarios.SiblingSections | src/main/java/com/conversion/files/XmlToWikiParser.java:172-182 | At level 1, two sibling sections that each hold one non-blank text both get `=` markup, each text on a line of its own, and the level is 1 afterwards. |
| Scenarios.NestedSections | src/main/java/com/conversion/files/XmlToWikiParser.java:172-182 | At level 1, a section holding one section that holds one non-blank text: the inner heading gets `==` under the outer `=`, and the level is 1 afterwards. |
| Scenarios.SectionWithBold | src/main/java/com/conversion/files/XmlToWikiParser.java:132-190 | Text and bold inside a section: the text sits on its own line, the bold text is wrapped in `'''` without newlines. |
| Scenarios.SectionWithBoldCollapsed | src/main/java/com/conversion/files/XmlToWikiParser.java:98 | After the collapse, the blank line under the heading is gone; the line break between text and bold stays. |
| Scenarios.IntroRendered | src/main/java/com/conversion/files/XmlToWikiParser.java:132-190 | The Intro document renders as `\n=Intro=\n\nHello\n'''world'''`. |
| Scenarios.IntroExample | src/main/java/com/conversion/files/XmlToWikiParser.java:98 | After the collapse the Intro document is `\n=Intro=\nHello\n'''world'''`. |
| Scenarios.EmptySection | src/main/java/com/conversion/files/XmlToWikiParser.java:172-182 | A section without content emits its heading line at the entry level and lowers the level by one. |
| Scenarios.EmptySectionsLowerTheLevel | src/main/java/com/conversion/files/XmlToWikiParser.java:172-182 | Of two empty level-1 siblings, the second gets no `=` at all, and the level ends at -1. |
| Scenarios.EmptySectionsCollapsed | src/main/java/com/conversion/files/XmlToWikiParser.java:98 | Two empty sibling sections rendered at level 1, with newline-free titles and a non-empty second title: after the line-98 collapse the two heading lines are joined by a single newline. |
| Scenarios.MissingHeadingAndEmptyEmphasis | src/main/java/com/conversion/files/XmlToWikiParser.java:172-198 | A section without heading attribute shows `null`. Empty bold emits `''''''` and empty italic `''''`. |
| Scenarios.UnknownElementSkipped | src/main/java/com/conversion/files/XmlToWikiParser.java:145-168 | An element with any other name emits nothing, whatever its content. So does content that is neither text nor an element. The level is unchanged in both cases. |

## Left out

- The command line and the directory watcher (`main`, `startWatcher`, lines 35-78) are not modelled. They are process and file-system event plumbing around an endless blocking loop.
- File handling is not modelled: listing the input folder, reading, creating, writing and deleting files (lines 80-113 and 117-129). `ProcessFile` models one iteration of the per-file loop on an already parsed tree: the parse result in, the text and the file name to write out.
- XmlTree.AttributeValue — the attribute lookup belongs to the JDOM library (`getAttributeValue`, line 174), which is not part of this model. It is a plain map lookup with no contract of its own. The effect of a missing heading is proved in `MissingHeadingAndEmptyEmphasis`.
- XML parsing (`getStAXParsedDocument`, lines 212-225) belongs to the XML libraries. The model starts from the parsed tree.
- Text normalisation belongs to the JDOM library, and that library is not part of this model. `XmlTree.Normalize` follows its documented rule: trim, and turn every inner run of white space into one blank.
- Content of kinds other than text and element (comments, CDATA sections, processing instructions, entity references) is modelled as one case, `Other`. The translator ignores all of them.
- Logging and stack-trace printing carry no meaning for the output and are left out.
- The general regular-expression engine behind `replaceAll` is not modelled. Only the two fixed rewrites at lines 98 and 116 are written out.
- `headingLevel` is a static field in the source. Here it is a field of one translator object. A run of the program uses that one counter throughout, which one object living as long as the run captures. Sharing it between several objects is not modelled.
- Java's `int` is 32 bits wide and the model's level is unbounded. A wrap-around would need more than two billion empty sections.
