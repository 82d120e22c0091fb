/**
 * The foreign libraries the rewrite calls, passed in as plain total
 * functions. Nothing is assumed of them beyond being functions of their
 * arguments.
 */
module Externals {
  import opened Tree

  datatype Env = Env(
    /** posthtml-render's `render`: serializes a node's content to markup text. */
    render: Content -> string,
    /** posthtml-parser's `parser`: markup text to a node sequence. */
    parse: string -> seq<Node>,
    /** html-escaper's `unescape`. */
    unescape: string -> string,
    /** `Prism.languages[lang] != null`: the highlighter has a grammar for `lang`. */
    hasGrammar: string -> bool,
    /** `Prism.highlight(text, Prism.languages[lang], lang)`, as (text, lang). */
    highlight: (string, string) -> string,
    /** `katex.renderToString(text, { displayMode })`, as (text, displayMode). */
    typeset: (string, bool) -> string
  )
}
