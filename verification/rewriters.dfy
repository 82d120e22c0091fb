/**
 * The element rewriters of src/main.js: one per special tag. Each takes a
 * node and its positional context (the parent's tag or the nesting depth)
 * and yields the replacement node.
 */
module Rewriters {
  import opened Tree
  import opened Externals

  /**
   * The block test shared by the code, math and quote rewriters: a node is
   * in block position when its parent is a section or when it has no parent
   * (JavaScript's `parent == null` also holds for undefined).
   */
  predicate IsBlock(parent: Option<string>)
  {
    parent == None || parent == Some("section")
  }

  /** `Math.min` on integers. */
  function Min(a: int, b: int): (r: int)
    ensures r <= a && r <= b
    ensures r == a || r == b
  {
    if a < b then a else b
  }

  function DigitChar(d: nat): char
    requires d < 10
  {
    "0123456789"[d]
  }

  /** Decimal digits of a natural number, as a template literal prints them. */
  function NatDecimal(n: nat): (s: string)
    ensures |s| > 0
    ensures n < 10 ==> s == [DigitChar(n)]
  {
    if n < 10 then [DigitChar(n)] else NatDecimal(n / 10) + [DigitChar(n % 10)]
  }

  /** An integer as a template literal prints it. */
  function Decimal(n: int): (s: string)
    ensures |s| > 0
    ensures n < 0 ==> s[0] == '-'
  {
    if n < 0 then "-" + NatDecimal(-n) else NatDecimal(n)
  }

  /** The six heading tags, by level. */
  const HeadingTags: seq<string> := ["h1", "h2", "h3", "h4", "h5", "h6"]

  /** The tag `h${depth}` that convertH writes. */
  function HeadingTag(depth: int): (t: string)
    ensures |t| >= 2 && t[0] == 'h'
    ensures 1 <= depth <= 6 ==> t == HeadingTags[depth - 1]
    ensures depth < 1 ==> t !in HeadingTags
  {
    var t := "h" + Decimal(depth);
    assert t[1..] == Decimal(depth);
    assert depth < 0 ==> t[1] == '-';
    t
  }

  /**
   * convertH: retags a heading by the current depth, capped at six. Only the
   * tag changes. There is no lower cap: a depth below one would give a tag
   * that is not a heading level (the walker never passes one).
   */
  function ConvertH(node: Node, depth: int): (r: Node)
    requires node.Elem?
    ensures r.Elem? && r.attrs == node.attrs && r.content == node.content
    ensures r.tag == Some(HeadingTag(Min(depth, 6)))
    ensures 1 <= depth ==> r.tag == Some(HeadingTags[Min(depth, 6) - 1])
  {
    node.(tag := Some(HeadingTag(Min(depth, 6))))
  }

  /** `node.attrs?.lang`. */
  function LangOf(node: Node): Option<string>
  {
    var attrs := AttrsOf(node);
    if "lang" in attrs then attrs["lang"] else None
  }

  /** Whether the highlighter will be used for this node's language. */
  predicate Highlighted(node: Node, env: Env)
  {
    LangOf(node).Some? && env.hasGrammar(LangOf(node).value)
  }

  /** The element holding the code text: the inner `code` of a block, else the node itself. */
  function CodeElement(r: Node, block: bool): Node
  {
    if block && r.Elem? && r.content.Children? && |r.content.nodes| == 1 then r.content.nodes[0] else r
  }

  /**
   * convertCode: serializes the children back to text; highlights it when
   * the highlighter knows the language, else keeps the serialized text as
   * it is; wraps it as `pre > code` in block position and as a single
   * `code` inline. Both elements carry the class `language-<lang>`, which
   * is null exactly when there is no `lang` attribute.
   */
  function ConvertCode(node: Node, parent: Option<string>, env: Env): (r: Node)
    ensures r.Elem? && r.tag == Some(if IsBlock(parent) then "pre" else "code")
    ensures r.attrs.Keys == {"class"}
    ensures r.attrs["class"].None? <==> LangOf(node).None?
    ensures LangOf(node).Some? ==> r.attrs["class"] == Some("language-" + LangOf(node).value)
    ensures IsBlock(parent) ==>
              && r.content.Children? && |r.content.nodes| == 1
              && r.content.nodes[0].Elem?
              && r.content.nodes[0].tag == Some("code")
              && r.content.nodes[0].attrs == r.attrs
    ensures !Highlighted(node, env) ==>
              CodeElement(r, IsBlock(parent)).content == Raw(env.render(ContentOf(node)))
    ensures Highlighted(node, env) ==>
              CodeElement(r, IsBlock(parent)).content
              == Children(env.parse(env.highlight(env.unescape(env.render(ContentOf(node))), LangOf(node).value)))
  {
    var block := IsBlock(parent);
    var code := env.render(ContentOf(node));
    var lang := LangOf(node);
    var content :=
      if Highlighted(node, env) then Children(env.parse(env.highlight(env.unescape(code), lang.value)))
      else Raw(code);
    var className := if lang.Some? then Some("language-" + lang.value) else None;
    var attrs := map["class" := className];
    if block then
      Elem(Some("pre"), attrs, Children([Elem(Some("code"), attrs, content)]))
    else
      Elem(Some("code"), attrs, content)
  }

  /**
   * convertMath: typesets the serialized, unescaped children in display
   * mode exactly when in block position, and wraps the parsed result in a
   * `div` (block) or a `span` (inline) of class `math`.
   */
  function ConvertMath(node: Node, parent: Option<string>, env: Env): (r: Node)
    ensures r.Elem? && r.tag == Some(if IsBlock(parent) then "div" else "span")
    ensures r.attrs == map["class" := Some("math")]
    ensures r.content
            == Children(env.parse(env.typeset(env.unescape(env.render(ContentOf(node))), IsBlock(parent))))
  {
    var block := IsBlock(parent);
    var math := env.render(ContentOf(node));
    var rendered := env.parse(env.typeset(env.unescape(math), block));
    if block then
      Elem(Some("div"), map["class" := Some("math")], Children(rendered))
    else
      Elem(Some("span"), map["class" := Some("math")], Children(rendered))
  }

  /**
   * convertQuote: retags a quote as `blockquote` in block position and as
   * `q` inline. Attributes and content are left as they are.
   */
  function ConvertQuote(node: Node, parent: Option<string>): (r: Node)
    requires node.Elem?
    ensures r.Elem? && r.attrs == node.attrs && r.content == node.content
    ensures r.tag == Some("blockquote") <==> IsBlock(parent)
    ensures r.tag == Some("q") <==> !IsBlock(parent)
  {
    var block := IsBlock(parent);
    if block then node.(tag := Some("blockquote")) else node.(tag := Some("q"))
  }

  /**
   * The three position-sensitive rewriters see the parent tag only through
   * the block test: two parents with the same classification give the same
   * result, whatever their tags.
   */
  lemma RewritersSeeOnlyBlockTest(node: Node, p1: Option<string>, p2: Option<string>, env: Env)
    requires IsBlock(p1) == IsBlock(p2)
    ensures ConvertCode(node, p1, env) == ConvertCode(node, p2, env)
    ensures ConvertMath(node, p1, env) == ConvertMath(node, p2, env)
    ensures node.Elem? ==> ConvertQuote(node, p1) == ConvertQuote(node, p2)
  {
  }
}
