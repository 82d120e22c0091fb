/**
 * The tree walker `convert` of src/main.js: a document-order pass over an
 * array of nodes that rewrites each special node by its position and
 * descends into the children of every node it does not replace wholesale,
 * carrying the parent's tag and the section nesting depth.
 *
 * `Walk` and `ConvertNode` say what one pass computes; `Convert` is the
 * in-place loop of the source, proved to compute it. The second half of the
 * module characterises the result by position: the node found by following
 * a path of child indices is rewritten with, as context, the tag of its
 * parent in the input and the initial depth plus the number of sections
 * above it.
 */
module Walker {
  import opened Tree
  import opened Externals
  import opened Rewriters

  /** The nodes whose children the walker descends into: elements with an
    * array of children that are neither code nor math. */
  predicate Walked(n: Node)
  {
    n.Elem? && n.content.Children? && KindOf(n) != Code && KindOf(n) != Math
  }

  /** One pass over a sequence: every node converted in its own position. */
  function Walk(env: Env, ns: seq<Node>, parent: Option<string>, depth: int): (r: seq<Node>)
    ensures |r| == |ns|
    ensures forall i :: 0 <= i < |ns| ==> r[i] == ConvertNode(env, ns[i], parent, depth)
    decreases ns
  {
    if ns == [] then [] else [ConvertNode(env, ns[0], parent, depth)] + Walk(env, ns[1..], parent, depth)
  }

  /** `convert(content, parent, depth)`: only an array is walked. */
  function WalkContent(env: Env, c: Content, parent: Option<string>, depth: int): (r: Content)
    ensures r.Children? <==> c.Children?
    ensures c.Children? ==> |r.nodes| == |c.nodes|
    ensures !c.Children? ==> r == c
    decreases c
  {
    if c.Children? then Children(Walk(env, c.nodes, parent, depth)) else c
  }

  /** What the loop body of `convert` leaves in the slot of one node. */
  function ConvertNode(env: Env, n: Node, parent: Option<string>, depth: int): Node
    decreases n
  {
    match KindOf(n)
    case Section => n.(content := WalkContent(env, n.content, n.tag, depth + 1))
    case Heading =>
      var h := ConvertH(n, depth);
      h.(content := WalkContent(env, h.content, h.tag, depth))
    case Code => ConvertCode(n, parent, env)
    case Math => ConvertMath(n, parent, env)
    case Quote =>
      var q := ConvertQuote(n, parent);
      q.(content := WalkContent(env, q.content, q.tag, depth))
    case Other =>
      if n.Text? then n else n.(content := WalkContent(env, n.content, n.tag, depth))
  }

  /**
   * What the conversion of one node keeps and changes: code and math are
   * exactly the rewriter's result, not walked further; text is unchanged;
   * sections and generic nodes keep tag and attributes; headings and quotes
   * get the rewriter's tag and keep their attributes; content that is not
   * an array is kept; walked children keep their count; and the new tag has
   * the block classification of the old.
   */
  lemma ConvertNodeShape(env: Env, n: Node, parent: Option<string>, depth: int)
    ensures var r := ConvertNode(env, n, parent, depth);
            && (KindOf(n) == Code ==> r == ConvertCode(n, parent, env))
            && (KindOf(n) == Math ==> r == ConvertMath(n, parent, env))
            && (n.Text? ==> r == n)
            && (KindOf(n) == Section || KindOf(n) == Other ==> TagOf(r) == TagOf(n) && AttrsOf(r) == AttrsOf(n))
            && (KindOf(n) == Heading ==> r.Elem? && r.tag == Some(HeadingTag(Min(depth, 6))) && r.attrs == n.attrs)
            && (KindOf(n) == Quote ==> r.Elem? && r.tag == ConvertQuote(n, parent).tag && r.attrs == n.attrs)
            && (KindOf(n) != Code && KindOf(n) != Math ==>
                  && (!Walked(n) ==> ContentOf(r) == ContentOf(n))
                  && (Walked(n) ==> Walked(r) && |r.content.nodes| == |n.content.nodes|)
                  && IsBlock(TagOf(r)) == IsBlock(TagOf(n)))
  {
  }

  /**
   * `convert(tree, parent, depth)` on an array: every slot is overwritten,
   * in document order, with what the loop body makes of it.
   */
  method Convert(tree: array<Node>, parent: Option<string>, depth: int, env: Env)
    modifies tree
    ensures tree[..] == Walk(env, old(tree[..]), parent, depth)
    decreases SeqSize(tree[..]), 2
  {
    ghost var input := tree[..];
    for i := 0 to tree.Length
      invariant tree[i..] == input[i..]
      invariant forall k :: 0 <= k < i ==> tree[k] == ConvertNode(env, input[k], parent, depth)
    {
      SizeAt(input, i);
      tree[i] := ConvertSlot(tree[i], parent, depth, env);
    }
  }

  /**
   * The loop body of `convert` for one node: a section's children are
   * converted one level deeper; a heading or a quote is retagged and its
   * children converted below the new tag; code and math are replaced
   * wholesale and not descended into; any other node's children are
   * converted below its own tag.
   */
  method ConvertSlot(n: Node, parent: Option<string>, depth: int, env: Env) returns (r: Node)
    ensures r == ConvertNode(env, n, parent, depth)
    decreases Size(n), 1
  {
    if TagOf(n) == Some("section") {
      var kids := ConvertContent(n.content, n.tag, depth + 1, env);
      r := n.(content := kids);
    } else if TagOf(n) == Some("h") {
      r := ConvertH(n, depth);
      var kids := ConvertContent(r.content, r.tag, depth, env);
      r := r.(content := kids);
    } else if TagOf(n) == Some("code") {
      r := ConvertCode(n, parent, env);
    } else if TagOf(n) == Some("math") {
      r := ConvertMath(n, parent, env);
    } else if TagOf(n) == Some("quote") {
      r := ConvertQuote(n, parent);
      var kids := ConvertContent(r.content, r.tag, depth, env);
      r := r.(content := kids);
    } else if n.Elem? {
      var kids := ConvertContent(n.content, n.tag, depth, env);
      r := n.(content := kids);
    } else {
      r := n;
    }
  }

  /**
   * The recursive call `convert(node.content, tag, depth)`: content that is
   * an array is converted in place; a string or a missing content is left
   * alone.
   */
  method ConvertContent(c: Content, parent: Option<string>, depth: int, env: Env) returns (r: Content)
    ensures r == WalkContent(env, c, parent, depth)
    decreases ContentSize(c), 3
  {
    if c.Children? {
      var kids := new Node[|c.nodes|](i requires 0 <= i < |c.nodes| => c.nodes[i]);
      assert kids[..] == c.nodes;
      Convert(kids, parent, depth, env);
      r := Children(kids[..]);
    } else {
      r := c;
    }
  }

  /** The number of nodes in a tree: the measure the recursion of `Convert` decreases. */
  ghost function Size(n: Node): nat
    decreases n
  {
    match n
    case Text(_) => 1
    case Elem(_, _, c) => 1 + ContentSize(c)
  }

  ghost function ContentSize(c: Content): nat
    decreases c
  {
    if c.Children? then SeqSize(c.nodes) else 0
  }

  ghost function SeqSize(ns: seq<Node>): nat
    decreases ns
  {
    if ns == [] then 0 else Size(ns[0]) + SeqSize(ns[1..])
  }

  lemma {:induction false} SizeAt(ns: seq<Node>, i: nat)
    requires i < |ns|
    ensures Size(ns[i]) <= SeqSize(ns)
  {
    if i > 0 {
      SizeAt(ns[1..], i - 1);
    }
  }

  // ---------------------------------------------------------------------
  // Positions

  /** A path of child indices from the top-level sequence, every proper
    * ancestor on it being a node the walker descends into. */
  predicate Descends(ns: seq<Node>, p: seq<nat>)
    decreases |p|
  {
    && |p| > 0
    && p[0] < |ns|
    && (|p| > 1 ==> Walked(ns[p[0]]) && Descends(ns[p[0]].content.nodes, p[1..]))
  }

  /** The node at a path. */
  function At(ns: seq<Node>, p: seq<nat>): Node
    requires Descends(ns, p)
    decreases |p|
  {
    if |p| == 1 then ns[p[0]] else At(ns[p[0]].content.nodes, p[1..])
  }

  /** How many proper ancestors of the node at a path are sections. */
  function SectionsAbove(ns: seq<Node>, p: seq<nat>): nat
    requires Descends(ns, p)
    decreases |p|
  {
    if |p| == 1 then 0
    else (if KindOf(ns[p[0]]) == Section then 1 else 0) + SectionsAbove(ns[p[0]].content.nodes, p[1..])
  }

  /** The input tag of the immediate parent of the node at a path; `top` for
    * a top-level node. */
  function InputParentTag(ns: seq<Node>, top: Option<string>, p: seq<nat>): Option<string>
    requires Descends(ns, p)
    decreases |p|
  {
    if |p| == 1 then top else InputParentTag(ns[p[0]].content.nodes, TagOf(ns[p[0]]), p[1..])
  }

  /** The whole conversion sees the parent only through the block test. */
  lemma {:induction false} ConvertNodeSeesOnlyBlockTest(env: Env, n: Node, p1: Option<string>, p2: Option<string>, depth: int)
    requires IsBlock(p1) == IsBlock(p2)
    ensures ConvertNode(env, n, p1, depth) == ConvertNode(env, n, p2, depth)
  {
    RewritersSeeOnlyBlockTest(n, p1, p2, env);
  }

  /** Below the top level, the parent tag of a position does not depend on the top-level parent. */
  lemma {:induction false} InputParentTagBlock(ns: seq<Node>, t1: Option<string>, t2: Option<string>, p: seq<nat>)
    requires Descends(ns, p)
    requires IsBlock(t1) == IsBlock(t2)
    ensures IsBlock(InputParentTag(ns, t1, p)) == IsBlock(InputParentTag(ns, t2, p))
  {
  }

  /** The children of a walked node are walked below its new tag, one level deeper below a section. */
  lemma ChildrenWalked(env: Env, n: Node, parent: Option<string>, depth: int)
    requires Walked(n)
    ensures var r := ConvertNode(env, n, parent, depth);
            Walked(r) && IsBlock(TagOf(r)) == IsBlock(TagOf(n))
            && r.content.nodes == Walk(env, n.content.nodes, TagOf(r), if KindOf(n) == Section then depth + 1 else depth)
  {
  }

  /**
   * The positional characterisation of one pass: every path into the input
   * is a path into the output, and the node there is the input node
   * converted with its input parent's tag and with the initial depth raised
   * once for every section above it.
   */
  lemma {:induction false} WalkAt(env: Env, ns: seq<Node>, parent: Option<string>, depth: int, p: seq<nat>)
    requires Descends(ns, p)
    ensures Descends(Walk(env, ns, parent, depth), p)
    ensures At(Walk(env, ns, parent, depth), p)
            == ConvertNode(env, At(ns, p), InputParentTag(ns, parent, p), depth + SectionsAbove(ns, p))
    decreases |p|
  {
    var out := Walk(env, ns, parent, depth);
    var n := ns[p[0]];
    var m := ConvertNode(env, n, parent, depth);
    assert out[p[0]] == m;
    if |p| > 1 {
      var kids, rest := n.content.nodes, p[1..];
      var inner := if KindOf(n) == Section then depth + 1 else depth;
      ChildrenWalked(env, n, parent, depth);
      WalkAt(env, kids, TagOf(m), inner, rest);
      PathStep(out, parent, p);
      PathStep(ns, parent, p);
      var q1, q2 := InputParentTag(kids, TagOf(m), rest), InputParentTag(kids, TagOf(n), rest);
      InputParentTagBlock(kids, TagOf(m), TagOf(n), rest);
      ConvertNodeSeesOnlyBlockTest(env, At(kids, rest), q1, q2, inner + SectionsAbove(kids, rest));
    }
  }

  /** One step down a path: from the top-level node at its first index to the rest of the path. */
  lemma PathStep(ns: seq<Node>, top: Option<string>, p: seq<nat>)
    requires |p| > 1 && p[0] < |ns| && Walked(ns[p[0]])
    requires Descends(ns[p[0]].content.nodes, p[1..])
    ensures Descends(ns, p)
    ensures At(ns, p) == At(ns[p[0]].content.nodes, p[1..])
    ensures InputParentTag(ns, top, p) == InputParentTag(ns[p[0]].content.nodes, TagOf(ns[p[0]]), p[1..])
    ensures SectionsAbove(ns, p)
            == (if KindOf(ns[p[0]]) == Section then 1 else 0) + SectionsAbove(ns[p[0]].content.nodes, p[1..])
  {
  }

  /** Stepping from a walked node to one of its children extends the path by one index. */
  lemma {:induction false} DescendsExtend(ns: seq<Node>, top: Option<string>, p: seq<nat>, j: nat)
    requires Descends(ns, p) && Walked(At(ns, p)) && j < |At(ns, p).content.nodes|
    ensures Descends(ns, p + [j])
    ensures At(ns, p + [j]) == At(ns, p).content.nodes[j]
    ensures InputParentTag(ns, top, p + [j]) == TagOf(At(ns, p))
    ensures SectionsAbove(ns, p + [j]) == SectionsAbove(ns, p) + (if KindOf(At(ns, p)) == Section then 1 else 0)
    decreases |p|
  {
    assert (p + [j])[0] == p[0];
    if |p| > 1 {
      assert (p + [j])[1..] == p[1..] + [j];
      DescendsExtend(ns[p[0]].content.nodes, TagOf(ns[p[0]]), p[1..], j);
    } else {
      assert (p + [j])[1..] == [j];
    }
  }

  // ---------------------------------------------------------------------
  // Consequences for a whole document, walked from the root with no parent
  // and depth 1, as the posthtml plugin calls it.

  /**
   * A heading k sections deep becomes `h{min(1 + k, 6)}`; its attributes
   * are kept.
   */
  lemma HeadingLevel(env: Env, ns: seq<Node>, p: seq<nat>)
    requires Descends(ns, p) && KindOf(At(ns, p)) == Heading
    ensures Descends(Walk(env, ns, None, 1), p)
    ensures At(Walk(env, ns, None, 1), p).Elem?
    ensures At(Walk(env, ns, None, 1), p).tag == Some(HeadingTags[Min(1 + SectionsAbove(ns, p), 6) - 1])
    ensures At(Walk(env, ns, None, 1), p).attrs == At(ns, p).attrs
  {
    WalkAt(env, ns, None, 1, p);
  }

  /**
   * Sections and nodes with no special tag keep their tag and attributes
   * wherever they are.
   */
  lemma KeptAt(env: Env, ns: seq<Node>, p: seq<nat>)
    requires Descends(ns, p) && (KindOf(At(ns, p)) == Section || KindOf(At(ns, p)) == Other)
    ensures Descends(Walk(env, ns, None, 1), p)
    ensures TagOf(At(Walk(env, ns, None, 1), p)) == TagOf(At(ns, p))
    ensures AttrsOf(At(Walk(env, ns, None, 1), p)) == AttrsOf(At(ns, p))
  {
    WalkAt(env, ns, None, 1, p);
  }

  /**
   * Code, math and quotes take their block or inline form from the block
   * test applied to the tag their parent had in the input (no parent at the
   * top level); code and math are exactly the rewriter's result, never
   * walked further.
   */
  lemma BlockOrInlineAt(env: Env, ns: seq<Node>, p: seq<nat>)
    requires Descends(ns, p)
    ensures Descends(Walk(env, ns, None, 1), p)
    ensures var n, r := At(ns, p), At(Walk(env, ns, None, 1), p);
            var block := IsBlock(InputParentTag(ns, None, p));
            && (KindOf(n) == Code ==>
                  r == ConvertCode(n, InputParentTag(ns, None, p), env)
                  && r.tag == Some(if block then "pre" else "code"))
            && (KindOf(n) == Math ==>
                  r == ConvertMath(n, InputParentTag(ns, None, p), env)
                  && r.tag == Some(if block then "div" else "span"))
            && (KindOf(n) == Quote ==>
                  r.Elem? && r.tag == Some(if block then "blockquote" else "q") && r.attrs == n.attrs)
  {
    WalkAt(env, ns, None, 1, p);
  }

  /**
   * Quote demotion: whatever the quote's own position, code, math and quotes
   * directly inside it take their inline form.
   */
  lemma QuoteDemotes(env: Env, ns: seq<Node>, q: seq<nat>, j: nat)
    requires Descends(ns, q) && KindOf(At(ns, q)) == Quote && Walked(At(ns, q))
    requires j < |At(ns, q).content.nodes|
    ensures Descends(ns, q + [j]) && Descends(Walk(env, ns, None, 1), q + [j])
    ensures var n, r := At(ns, q + [j]), At(Walk(env, ns, None, 1), q + [j]);
            && (KindOf(n) == Code ==> TagOf(r) == Some("code"))
            && (KindOf(n) == Math ==> TagOf(r) == Some("span"))
            && (KindOf(n) == Quote ==> TagOf(r) == Some("q"))
  {
    DescendsExtend(ns, None, q, j);
    BlockOrInlineAt(env, ns, q + [j]);
  }

  /**
   * The rewrite is local: two positions, in the same or in different
   * documents, holding the same node under parents of the same block
   * classification and below as many sections, are rewritten alike,
   * whatever lies further up.
   */
  lemma SameContextSameResult(env: Env, ns1: seq<Node>, p1: seq<nat>, ns2: seq<Node>, p2: seq<nat>)
    requires Descends(ns1, p1) && Descends(ns2, p2) && At(ns1, p1) == At(ns2, p2)
    requires IsBlock(InputParentTag(ns1, None, p1)) == IsBlock(InputParentTag(ns2, None, p2))
    requires SectionsAbove(ns1, p1) == SectionsAbove(ns2, p2)
    ensures Descends(Walk(env, ns1, None, 1), p1) && Descends(Walk(env, ns2, None, 1), p2)
    ensures At(Walk(env, ns1, None, 1), p1) == At(Walk(env, ns2, None, 1), p2)
  {
    WalkAt(env, ns1, None, 1, p1);
    WalkAt(env, ns2, None, 1, p2);
    ConvertNodeSeesOnlyBlockTest(env, At(ns1, p1),
      InputParentTag(ns1, None, p1), InputParentTag(ns2, None, p2), 1 + SectionsAbove(ns1, p1));
  }
}
