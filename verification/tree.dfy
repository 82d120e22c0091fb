/**
 * The node model shared by the parser's output, the rewrite and the
 * serializer's input: a posthtml-style tree of tagged elements.
 */
module Tree {

  /** JavaScript's null/undefined, made explicit. */
  datatype Option<+T> = None | Some(value: T)

  /** Success or one of the failures the source lets escape as an exception. */
  datatype Result<+R, +E> = Ok(value: R) | Err(error: E)

  /**
   * A node is either a bare text string or an element object. An element's
   * tag may be missing, an attribute's value may be null (the class
   * attribute the code rewriter writes when no language is given), and its
   * content may be missing, a single string, or an array of nodes.
   */
  datatype Node =
    | Text(text: string)
    | Elem(tag: Option<string>, attrs: map<string, Option<string>>, content: Content)

  datatype Content =
    | Absent
    | Raw(text: string)
    | Children(nodes: seq<Node>)

  /** `node.tag`: undefined for a text node. */
  function TagOf(n: Node): Option<string>
  {
    match n
    case Text(_) => None
    case Elem(t, _, _) => t
  }

  /** `node.attrs`, with a missing attribute object read as an empty one. */
  function AttrsOf(n: Node): map<string, Option<string>>
  {
    match n
    case Text(_) => map[]
    case Elem(_, a, _) => a
  }

  /** `node.content`: undefined for a text node. */
  function ContentOf(n: Node): Content
  {
    match n
    case Text(_) => Absent
    case Elem(_, _, c) => c
  }

  /** The special tags the walker dispatches on; everything else is Other. */
  datatype Kind = Section | Heading | Code | Math | Quote | Other

  function KindOf(n: Node): (k: Kind)
    ensures k == Section <==> TagOf(n) == Some("section")
    ensures k == Heading <==> TagOf(n) == Some("h")
    ensures k == Code <==> TagOf(n) == Some("code")
    ensures k == Math <==> TagOf(n) == Some("math")
    ensures k == Quote <==> TagOf(n) == Some("quote")
  {
    match TagOf(n)
    case Some("section") => Section
    case Some("h") => Heading
    case Some("code") => Code
    case Some("math") => Math
    case Some("quote") => Quote
    case _ => Other
  }
}
