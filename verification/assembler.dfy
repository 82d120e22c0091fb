/**
 * The document assembler of src/main.js (`renderKDML` without its page
 * writes, and `findElement`): parse and convert the text, take the title
 * out of the first top-level `head`, drop that `head`, and serialize the
 * rest.
 */
module Assembler {
  import opened Tree
  import opened Externals
  import opened Walker

  /** `ns.findIndex(n => n.tag == tag)`: the first index whose node has the tag, or -1. */
  function FindIndex(ns: seq<Node>, tag: string): (r: int)
    ensures -1 <= r < |ns|
    ensures r >= 0 ==> TagOf(ns[r]) == Some(tag)
    ensures forall k :: 0 <= k < |ns| && (r == -1 || k < r) ==> TagOf(ns[k]) != Some(tag)
  {
    if ns == [] then -1
    else if TagOf(ns[0]) == Some(tag) then 0
    else
      var i := FindIndex(ns[1..], tag);
      if i == -1 then -1 else i + 1
  }

  /** `findElement(tree, tag)`: the first node of the sequence with the tag, or null. */
  method FindElement(tree: seq<Node>, tag: string) returns (r: Option<Node>)
    ensures r.None? <==> forall k :: 0 <= k < |tree| ==> TagOf(tree[k]) != Some(tag)
    ensures r.Some? ==>
              exists i :: 0 <= i < |tree| && tree[i] == r.value && TagOf(tree[i]) == Some(tag)
                          && forall k :: 0 <= k < i ==> TagOf(tree[k]) != Some(tag)
  {
    for i := 0 to |tree|
      invariant forall k :: 0 <= k < i ==> TagOf(tree[k]) != Some(tag)
    {
      if TagOf(tree[i]) == Some(tag) {
        return Some(tree[i]);
      }
    }
    return None;
  }

  /** `ns.splice(i, 1)`: the sequence without its i-th node, the others in order. */
  function Splice(ns: seq<Node>, i: nat): (r: seq<Node>)
    requires i < |ns|
    ensures |r| == |ns| - 1
    ensures forall k :: 0 <= k < i ==> r[k] == ns[k]
    ensures forall k :: i <= k < |r| ==> r[k] == ns[k + 1]
    ensures multiset(r) + multiset{ns[i]} == multiset(ns)
  {
    assert ns == ns[..i] + [ns[i]] + ns[i + 1..];
    ns[..i] + ns[i + 1..]
  }

  /**
   * What one render cycle writes to the page: the title slot (None when it
   * is left as it was) and the preview's markup.
   */
  datatype Page = Page(title: Option<string>, preview: string)

  /**
   * The two ways the head handling throws: iterating a `head` whose content
   * is missing, and reading the content of a title that was not found.
   */
  datatype RenderError = HeadContentNotIterable | HeadHasNoTitle

  /**
   * The outcome of assembling a converted top level: when it has a `head`,
   * the content of the first `title` among that head's children becomes
   * the title and exactly the first `head` is removed; the rest is
   * serialized as the preview. Without a `head` the title slot is left
   * alone and the whole top level is serialized. A head whose content is
   * missing, or that has no `title` child, makes the cycle fail.
   */
  ghost predicate Assembles(parsed: seq<Node>, env: Env, r: Result<Page, RenderError>)
  {
    var h := FindIndex(parsed, "head");
    && (h == -1 ==> r == Ok(Page(None, env.render(Children(parsed)))))
    && (h >= 0 && ContentOf(parsed[h]).Absent? ==> r == Err(HeadContentNotIterable))
    && (h >= 0 && ContentOf(parsed[h]).Raw? ==> r == Err(HeadHasNoTitle))
    && (h >= 0 && ContentOf(parsed[h]).Children? ==>
          var kids := ContentOf(parsed[h]).nodes;
          var t := FindIndex(kids, "title");
          && (t == -1 ==> r == Err(HeadHasNoTitle))
          && (t >= 0 ==>
                r == Ok(Page(Some(env.render(ContentOf(kids[t]))), env.render(Children(Splice(parsed, h)))))))
  }

  /** The head and title part of `renderKDML`, on the converted top level. */
  method Assemble(parsed: seq<Node>, env: Env) returns (r: Result<Page, RenderError>)
    ensures Assembles(parsed, env, r)
  {
    var body := parsed;
    var title: Option<string> := None;
    var headIndex := FindIndex(parsed, "head");
    if headIndex != -1 {
      var head := parsed[headIndex];
      match ContentOf(head) {
        case Absent =>
          return Err(HeadContentNotIterable);
        case Raw(_) =>
          // iterating a string yields characters, none of which has a tag
          return Err(HeadHasNoTitle);
        case Children(kids) =>
          var found := FindElement(kids, "title");
          if found.None? {
            return Err(HeadHasNoTitle);
          }
          ghost var t := FindIndex(kids, "title");
          assert found.value == kids[t];
          title := Some(env.render(ContentOf(found.value)));
          body := Splice(body, headIndex);
      }
    }
    r := Ok(Page(title, env.render(Children(body))));
  }

  /**
   * `renderKDML(code)`: parses the text, converts it from the root (no
   * parent, depth 1) and assembles the page from the result.
   */
  method RenderKDML(code: string, env: Env) returns (r: Result<Page, RenderError>)
    ensures Assembles(Walk(env, env.parse(code), None, 1), env, r)
  {
    var source := env.parse(code);
    var tree := new Node[|source|](i requires 0 <= i < |source| => source[i]);
    assert tree[..] == source;
    Convert(tree, None, 1, env);
    r := Assemble(tree[..], env);
  }

  /** How many nodes of the sequence have the tag. */
  function CountTag(ns: seq<Node>, tag: string): nat
  {
    if ns == [] then 0 else (if TagOf(ns[0]) == Some(tag) then 1 else 0) + CountTag(ns[1..], tag)
  }

  /** The nodes of the sequence without the tag, in order. */
  function Without(ns: seq<Node>, tag: string): seq<Node>
  {
    if ns == [] then [] else (if TagOf(ns[0]) == Some(tag) then [] else [ns[0]]) + Without(ns[1..], tag)
  }

  /** FindIndex finds nothing exactly when no node has the tag. */
  lemma {:induction false} FindIndexNone(ns: seq<Node>, tag: string)
    ensures FindIndex(ns, tag) == -1 <==> CountTag(ns, tag) == 0
  {
    if ns != [] {
      FindIndexNone(ns[1..], tag);
    }
  }

  /**
   * Splicing out the first node with a tag removes one such node and keeps
   * every other node, in order.
   */
  lemma {:induction false} SpliceFirst(ns: seq<Node>, tag: string)
    requires FindIndex(ns, tag) >= 0
    ensures CountTag(Splice(ns, FindIndex(ns, tag)), tag) + 1 == CountTag(ns, tag)
    ensures Without(Splice(ns, FindIndex(ns, tag)), tag) == Without(ns, tag)
  {
    var h := FindIndex(ns, tag);
    if h == 0 {
      assert Splice(ns, 0) == ns[1..];
    } else {
      assert FindIndex(ns[1..], tag) == h - 1;
      assert Splice(ns, h) == [ns[0]] + Splice(ns[1..], h - 1);
      assert Splice(ns, h)[1..] == Splice(ns[1..], h - 1);
      SpliceFirst(ns[1..], tag);
    }
  }

  /**
   * A cycle that succeeds sets a title exactly when the converted top level
   * has a `head`. Its preview is then the top level without exactly its
   * first `head`: one `head` fewer, and every other node, later heads
   * included, kept in order. Otherwise the preview is the whole top level.
   */
  lemma TitleExtraction(parsed: seq<Node>, env: Env, r: Result<Page, RenderError>)
    requires Assembles(parsed, env, r) && r.Ok?
    ensures r.value.title.None? <==> CountTag(parsed, "head") == 0
    ensures r.value.title.None? ==> r.value.preview == env.render(Children(parsed))
    ensures r.value.title.Some? ==>
              exists body :: r.value.preview == env.render(Children(body))
                             && CountTag(body, "head") + 1 == CountTag(parsed, "head")
                             && Without(body, "head") == Without(parsed, "head")
    ensures r.value.title.Some? ==>
              exists h :: 0 <= h < |parsed| && TagOf(parsed[h]) == Some("head")
                          && (forall k :: 0 <= k < h ==> TagOf(parsed[k]) != Some("head"))
                          && r.value.preview == env.render(Children(parsed[..h] + parsed[h + 1..]))
  {
    FindIndexNone(parsed, "head");
    var h := FindIndex(parsed, "head");
    if h >= 0 {
      SpliceFirst(parsed, "head");
      var body := Splice(parsed, h);
      assert body == parsed[..h] + parsed[h + 1..];
      assert r.value.preview == env.render(Children(body));
    }
  }
}
