/** The early package `kemmer`: every element is named and always emits
    its tags, attribute values are strings, and there is no placeholder,
    wrapper or binding. Its `style` lays the selector blocks out without
    indentation. */
module Kemmer {
  import opened Results
  import opened Strings
  import Attributes
  import StyleSheets

  /** A node of the early tree. */
  datatype Node =
    | Tag(name: string, selfClosing: bool, attrs: seq<(string, string)>, children: seq<Node>)
    | Text(s: string)
    | Style(rules: StyleSheets.Rules)

  /** An argument of a call: a plain string or a node. */
  datatype Arg = Chars(s: string) | Child(node: Node)

  /** `tag(name, **attrs)`: a trailing `/` is removed, exactly once, and
      makes the element self-closing. */
  function MakeTag(name: string, attrs: seq<(string, string)>): (r: Node)
    ensures r.Tag? && r.attrs == attrs && r.children == []
    ensures r.selfClosing <==> EndsWithSlash(name)
    ensures r.selfClosing ==> r.name + "/" == name
    ensures !r.selfClosing ==> r.name == name
  {
    if EndsWithSlash(name) then
      assert name[..|name| - 1] + "/" == name;
      Tag(name[..|name| - 1], true, attrs, [])
    else
      Tag(name, false, attrs, [])
  }

  /** A call argument as a child: strings become text leaves. */
  function Wrap(arg: Arg): Node {
    match arg
    case Chars(s) => Text(s)
    case Child(n) => n
  }

  /** The children contributed by a call's arguments, in argument order. */
  function WrapAll(args: seq<Arg>): (r: seq<Node>)
    ensures |r| == |args|
    ensures forall i :: 0 <= i < |args| ==> r[i] == Wrap(args[i])
  {
    seq(|args|, i requires 0 <= i < |args| => Wrap(args[i]))
  }

  /** `node(*args)`: only tags are callable; the arguments go after the
      existing children and nothing else about the tag changes. */
  function Call(n: Node, args: seq<Arg>): (r: Option<Node>)
    ensures r.Some? <==> n.Tag?
    ensures r.Some? ==> (r.value.Tag? && r.value.name == n.name
                         && r.value.selfClosing == n.selfClosing && r.value.attrs == n.attrs)
    ensures r.Some? ==> (|r.value.children| == |n.children| + |args|
                         && r.value.children[..|n.children|] == n.children
                         && forall i :: 0 <= i < |args| ==> r.value.children[|n.children| + i] == Wrap(args[i]))
  {
    if n.Tag? then
      var kids := n.children + WrapAll(args);
      assert kids[..|n.children|] == n.children;
      Some(n.(children := kids))
    else
      None
  }

  /** `iter(tag)`: the children, in order. */
  function Iter(n: Node): (r: seq<Node>)
    requires n.Tag?
    ensures |r| == |n.children| && forall i :: 0 <= i < |r| ==> r[i] == n.children[i]
  {
    n.children
  }

  /** The streaming of an early `style`: no indentation before the
      selectors and closing braces, and a blank line before the closing
      tag. */
  function StyleText(rules: StyleSheets.Rules): (r: string)
    ensures |rules| == 0 ==> r == "\n<style>\n\n</style>\n"
  {
    "\n<style>\n" + StyleSheets.RulesText("", rules) + "\n</style>\n"
  }

  /** `''.join(node._stream())`: a self-closing tag without children is
      `<name attrs/>`; every other tag emits its opening tag, its children
      in order and its closing tag, even when its name is empty. */
  function Stream(n: Node): (r: string)
    ensures n.Tag? ==> 3 <= |r| && r[0] == '<' && r[|r| - 1] == '>'
    decreases n
  {
    match n
    case Tag(name, selfClosing, attrs, kids) =>
      var a := Attributes.Render(attrs);
      if selfClosing && |kids| == 0 then "<" + name + a + "/>"
      else "<" + name + a + ">" + StreamAll(kids) + ("</" + name + ">")
    case Text(s) => s
    case Style(rules) => StyleText(rules)
  }

  /** The children streamed one after another: nothing for no children,
      a single child's own text for one. */
  function StreamAll(kids: seq<Node>): (r: string)
    ensures |kids| == 0 ==> r == ""
    ensures |kids| == 1 ==> r == Stream(kids[0])
    decreases kids
  {
    if |kids| == 0 then "" else Stream(kids[0]) + StreamAll(kids[1..])
  }

  /** `tag.render()`: the tag's text, which starts with its opening tag
      and ends with `/>` or with its closing tag. */
  function Render(n: Node): (r: string)
    requires n.Tag?
    ensures n.selfClosing && |n.children| == 0 ==> r == "<" + n.name + Attributes.Render(n.attrs) + "/>"
    ensures !(n.selfClosing && |n.children| == 0) ==>
              && "<" + n.name + Attributes.Render(n.attrs) + ">" <= r
              && |r| >= |"</" + n.name + ">"|
              && r[|r| - |"</" + n.name + ">"|..] == "</" + n.name + ">"
  {
    var r := Stream(n);
    var open := "<" + n.name + Attributes.Render(n.attrs) + ">";
    var close := "</" + n.name + ">";
    if n.selfClosing && |n.children| == 0 then r
    else
      assert r == open + StreamAll(n.children) + close;
      assert r[..|open|] == open;
      assert r[|r| - |close|..] == close;
      r
  }

  /** `repr` of the early tag: a self-closing tag without children shows
      only its name with the slash restored, without its attributes;
      otherwise the name, the attributes and the children, if any. */
  function Repr(n: Node): (r: string)
    ensures n.Tag? ==> "tag(" <= r
    ensures n.Tag? && |n.children| > 0 ==> r[|r| - 1] == ')'
    decreases n
  {
    match n
    case Tag(name, selfClosing, attrs, kids) =>
      if selfClosing && |kids| == 0 then "tag(" + Quote(name + "/") + ")"
      else
        var c := if |kids| == 0 then "" else "(" + Join(", ", ReprAll(kids)) + ")";
        "tag(" + Quote(name) + AttrsRepr(attrs) + ")" + c
    case Text(s) => Quote(s)
    case Style(_) => "<kemmer.style object>"
  }

  /** The attribute part of a `repr`: nothing, or `, ` and the items. */
  function AttrsRepr(attrs: seq<(string, string)>): string {
    if |attrs| == 0 then "" else ", " + Join(", ", KeywordItems(attrs))
  }

  /** The `k=v` items of a `repr`, in order. */
  function KeywordItems(attrs: seq<(string, string)>): (r: seq<string>)
    ensures |r| == |attrs|
    ensures forall i :: 0 <= i < |attrs| ==> r[i] == attrs[i].0 + "=" + Quote(attrs[i].1)
  {
    if |attrs| == 0 then [] else [attrs[0].0 + "=" + Quote(attrs[0].1)] + KeywordItems(attrs[1..])
  }

  /** The `repr` of each child, in order. */
  function ReprAll(kids: seq<Node>): (r: seq<string>)
    ensures |r| == |kids|
    decreases kids
  {
    if |kids| == 0 then [] else [Repr(kids[0])] + ReprAll(kids[1..])
  }
}
