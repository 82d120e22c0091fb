# KDML tree rewrite, modelled in Dafny

KDML is a small markup language that a browser page previews live. Each edit
goes through the same cycle. The text is parsed into a posthtml node tree. The
tree is rewritten by `convert`. The first top-level `head` gives the document
title and is then dropped. The rest is serialized into the preview. This
project models that rewrite and the title extraction, from `src/main.js`.

The rewrite walks the node tree in document order. It carries the parent's
tag and a nesting depth:

- a `section` is kept, and its children are walked one level deeper;
- an `h` becomes `h1` to `h6` by the depth;
- a `quote` becomes `blockquote` or `q`;
- `code` becomes `pre > code` or a single `code`, highlighted when the
  highlighter knows its `lang`;
- `math` becomes a `div` or a `span` of class `math`, typeset in display or
  inline mode.

The block or inline choice is made by one test: the parent is a `section`, or
there is no parent.

Files, one module each:

- `tree.dfy` (`Tree`): the node model. A node is a text string or an element.
  An element has an optional tag, attributes with string or null values, and
  content. The content is missing, a string, or a sequence of nodes.
- `externals.dfy` (`Externals`): the foreign libraries, passed in as an `Env`
  of plain functions. These are the serializer, the parser, `unescape`, the
  highlighter's grammar lookup and `highlight`, and the math typesetter.
- `rewriters.dfy` (`Rewriters`): the shared block test and the four element
  rewriters.
- `walker.dfy` (`Walker`): the walk as a specification (`Walk`,
  `ConvertNode`). Beside it is the source's in-place loop over an array
  (`Convert`), proved to compute that specification. Last come lemmas that
  describe the result by position: the node at a path of child indices is
  rewritten with its input parent's tag and with depth 1 plus the number of
  sections above it.
- `assembler.dfy` (`Assembler`): `findIndex`, `findElement`, `splice`, the
  head and title extraction, and the whole cycle `RenderKDML`.

Three behaviours of the code that the model keeps, which a reader might not expect:

- `convertH` caps the depth at 6 but sets no lower bound. The walker never
  passes a depth below 1.
- When there is no `head`, the title slot on the page is not written at all,
  so it keeps its previous value. `Page.title` is `None` in that case.
- In the unhighlighted fallback, a code element's content is the serialized
  child markup as it is. It is not unescaped.

## Model

| member | source | states |
|---|---|---|
| Tree.KindOf | src/main.js:70-83 | the walker's dispatch: section, heading, code, math or quote exactly when the tag is `section`, `h`, `code`, `math` or `quote`; text nodes and all other tags fall to the generic case |
| Rewriters.IsBlock | src/main.js:96 | the block test written out at lines 96, 131 and 151: true exactly when the parent tag is `section` or there is no parent |
| Rewriters.Min | src/main.js:90 | `Math.min`: the result is at most both arguments and is one of them |
| Rewriters.NatDecimal | src/main.js:91 | the decimal digits of a natural number are never empty, and a number below ten is its single digit |
| Rewriters.Decimal | src/main.js:91 | an integer printed in decimal is never empty and starts with `-` when the number is negative |
| Rewriters.HeadingTag | src/main.js:91 | the tag `h${depth}` starts with `h`; for levels 1 to 6 it is `h1` to `h6`; for a level below 1 it is none of the six heading tags |
| Rewriters.ConvertH | src/main.js:89-93 | only the tag changes; it becomes the heading tag of `min(depth, 6)`, one of `h1` to `h6` whenever depth is at least 1 |
| Rewriters.LangOf | src/main.js:98 | `node.attrs?.lang`: the `lang` attribute's value, and none when the node has no attributes, no `lang` key or a null value |
| Rewriters.Highlighted | src/main.js:101 | the highlighter is used exactly when `lang` is present and the grammar lookup for it succeeds |
| Rewriters.ConvertCode | src/main.js:95-128 | `pre` wrapping a single inner `code` in block position, a single `code` inline; the wrapper and the inner element carry the same attributes; `class` is `language-<lang>` exactly when `lang` is present, whether or not the highlighter knows it; without a grammar the code content is the serialized children unchanged, with one it is the parsed highlighter output of the unescaped text |
| Rewriters.ConvertMath | src/main.js:130-148 | `div` in block position, `span` inline, always of class `math`; the typesetter's display-mode flag is the block flag; the content is the parsed typeset markup |
| Rewriters.ConvertQuote | src/main.js:150-160 | `blockquote` exactly in block position and `q` exactly inline; attributes and content are left unchanged |
| Rewriters.RewritersSeeOnlyBlockTest | src/main.js:96 | code, math and quote rewriting (block test at lines 96, 131 and 151) depends on the parent tag only through the shared block test |
| Walker.Walk | src/main.js:67-87 | the walked sequence has the same length as the input; each position holds the conversion of the node that was there, so order is kept |
| Walker.WalkContent | src/main.js:68 | only an array of children is walked; missing or string content is returned unchanged |
| Walker.ConvertNode | src/main.js:70-84 | the loop body's dispatch on one node: a section's children walked one level deeper below `section`; a heading retagged by depth, a quote by the block test, each then walked at the same depth below its new tag; code and math replaced by the rewriter's output; a text node left alone; any other element's children walked below its own tag |
| Walker.ConvertNodeShape | src/main.js:70-84 | code and math become exactly the rewriter's result and are not walked further; text nodes are unchanged; sections and generic nodes keep their tag and attributes; headings and quotes get the rewriter's tag and keep their attributes; a node whose content is not an array keeps its content; walked children keep their count; the retagging never changes the block classification of the node's own tag |
| Walker.Convert | src/main.js:67-87 | the in-place loop leaves in the array exactly the walk of its old contents |
| Walker.ConvertSlot | src/main.js:70-84 | one loop iteration produces exactly the specified conversion of that node |
| Walker.ConvertContent | src/main.js:67-68 | the recursive call on a node's content produces exactly the walk of that content |
| Walker.ChildrenWalked | src/main.js:70-84 | the children of a section are walked at depth plus one below the `section` tag; the children of a heading, quote or generic node are walked at the same depth below its new tag; the new tag has the block classification of the old |
| Walker.WalkAt | src/main.js:67-87 | every path into the input is a path into the output; the node there is converted with its immediate input parent's tag as parent and with the initial depth plus the number of sections above it |
| Walker.ConvertNodeSeesOnlyBlockTest | src/main.js:70-84 | a node's whole conversion, children included, is the same under any two parents that the block test classifies alike |
| Walker.HeadingLevel | src/main.js:70-74 | from the root, a heading k sections deep becomes `h{min(1 + k, 6)}` and keeps its attributes |
| Walker.KeptAt | src/main.js:70-84 | at any depth, sections and generic nodes keep their tag and attributes |
| Walker.BlockOrInlineAt | src/main.js:75-81 | code, math and quotes anywhere take their block or inline form from the block test on their input parent's tag (the top level counts as block); code and math there are exactly the rewriter's output |
| Walker.QuoteDemotes | src/main.js:79-81 | code, math and quotes directly inside any quote become the inline forms `code`, `span` and `q`, whatever the quote's own position |
| Walker.SameContextSameResult | src/main.js:67-87 | two positions holding the same node, under parents with the same block classification and below as many sections, are rewritten identically whatever their further ancestors |
| Assembler.FindIndex | src/main.js:19 | `findIndex`: -1 when no node has the tag, otherwise the first index whose node has it |
| Assembler.FindElement | src/main.js:33-41 | null exactly when no node has the tag; otherwise a node that has the tag and that no earlier node's tag matches |
| Assembler.Splice | src/main.js:26 | the sequence loses exactly the node at the index: one shorter, the nodes before it unchanged, those after it shifted down by one, same multiset apart from the removed node |
| Assembler.Assembles | src/main.js:19-29 | the outcome of the head handling, case by case on the first top-level `head`: none gives no title and the whole sequence serialized; missing content fails as not iterable; string content or no `title` child fails on the missing title; otherwise the first `title` child's content is the title and the preview is the sequence with that head spliced out |
| Assembler.Assemble | src/main.js:19-29 | without a top-level `head`, the title is left unset and the whole sequence is serialized; with one, the content of the first `title` child of the first `head` is the title and the preview is the sequence without that head; a head with missing content, string content or no `title` child makes the cycle fail |
| Assembler.RenderKDML | src/main.js:15-31 | the cycle assembles the page from the parsed text walked from the root with no parent and depth 1 |
| Assembler.FindIndexNone | src/main.js:19-21 | `findIndex` returns -1 exactly when no node has the tag |
| Assembler.SpliceFirst | src/main.js:19-26 | splicing out the first node with a tag leaves one such node fewer and every other node in its order |
| Assembler.TitleExtraction | src/main.js:19-29 | a cycle that succeeds sets a title exactly when the converted top level has a `head`; the preview is then that top level with exactly its first `head` cut out (one `head` fewer, every other node, later heads included, kept in order); otherwise the preview is the whole top level |

## Left out

- The page's DOM is not modelled. The `#preview` and `#document-title` lookups and the `innerHTML` writes are replaced by the returned `Page` value.
- The CodeJar editor, its highlighting callback, the `load` listener and the `onUpdate` wiring are left out. They are user-interface event plumbing; each edit simply runs `RenderKDML` once.
- The posthtml plugin pipeline (`parseKDML`, `kdmlParser`) is not modelled as such. It is taken to be the parser followed by `Convert(tree, None, 1)`.
- The foreign libraries are arbitrary total functions in `Env`, with nothing assumed about them. These are posthtml-parser, posthtml-render, html-escaper, Prism and KaTeX.
- Rewriters.ConvertMath: KaTeX throwing on malformed math is not modelled. That error escapes the cycle uncaught; `Env.typeset` is total.
- Rewriters.ConvertCode: the `pre` wrapper's content is a single node object in the source, not an array. It is modelled as a one-node child sequence.
- Rewriters.ConvertCode: with no `lang`, the source looks up the grammar key `"undefined"`. This is modelled as "no grammar". Prism's non-grammar members of `Prism.languages` (its helper functions) are not distinguished from grammars: `hasGrammar` is whatever the lookup says.
- Walker.Convert: the children arrays are mutated in place through the node objects in the source. The model copies them into a fresh array, converts that array in place and writes the node back. Aliasing between subtrees is not modelled, since a parsed tree shares none.
- Tags are compared as optional strings. JavaScript's loose `==` on non-string tags is not modelled.
- Attribute values are strings or null, and a missing attribute object is an empty map.
- The depth is an integer, not a floating-point number.
- The CSS imports and the empty initial document are left out.
