/** Properties of the early package's tree: streaming is assembled from
    the children, calls extend it just before the closing tag, iteration
    sees the appended children, and the early `repr` drops the attributes
    of a self-closing tag. */
module KemmerLemmas {
  import opened Results
  import opened Strings
  import Attributes
  import StyleSheets
  import opened Kemmer

  /** Streaming two runs of children is streaming each in turn. */
  lemma {:induction false} StreamAllAppend(a: seq<Node>, b: seq<Node>)
    ensures StreamAll(a + b) == StreamAll(a) + StreamAll(b)
    decreases |a|
  {
    if |a| == 0 {
      assert a + b == b;
    } else {
      assert (a + b)[1..] == a[1..] + b;
      StreamAllAppend(a[1..], b);
    }
  }

  /** Calling a tag inserts the new children's text just before its
      closing tag, after the text of the old children. */
  lemma StreamCall(n: Node, args: seq<Arg>)
    requires n.Tag? && (!n.selfClosing || |n.children| + |args| > 0)
    ensures Stream(Call(n, args).value)
         == "<" + n.name + Attributes.Render(n.attrs) + ">"
            + StreamAll(n.children) + StreamAll(WrapAll(args)) + ("</" + n.name + ">")
  {
    var m := Call(n, args).value;
    assert m.children == n.children + WrapAll(args);
    StreamAllAppend(n.children, WrapAll(args));
    var open := "<" + n.name + Attributes.Render(n.attrs) + ">";
    var x := StreamAll(n.children);
    var y := StreamAll(WrapAll(args));
    assert open + (x + y) == open + x + y;
  }

  /** A fresh tag: with a trailing slash it streams as one self-closing
      tag without the slash in the name; otherwise as an empty pair of
      tags, even for the empty name. */
  lemma StreamMadeTag(name: string, attrs: seq<(string, string)>)
    ensures EndsWithSlash(name) ==>
              Stream(MakeTag(name, attrs)) == "<" + name[..|name| - 1] + Attributes.Render(attrs) + "/>"
    ensures !EndsWithSlash(name) ==>
              Stream(MakeTag(name, attrs)) == "<" + name + Attributes.Render(attrs) + ">" + "" + ("</" + name + ">")
  {
  }

  /** Iterating a called tag yields the old children, then the new ones. */
  lemma IterCall(n: Node, args: seq<Arg>)
    requires n.Tag?
    ensures Iter(Call(n, args).value) == Iter(n) + WrapAll(args)
  {
    var m := Call(n, args).value;
    assert m.children == m.children[..|n.children|] + m.children[|n.children|..];
    assert m.children[|n.children|..] == WrapAll(args);
  }

  /** The early `repr` of a fresh self-closing tag shows only the name
      with its slash, whatever the attributes. */
  lemma ReprDropsAttributes(stem: string, attrs: seq<(string, string)>)
    ensures Repr(MakeTag(stem + "/", attrs)) == "tag(" + Quote(stem + "/") + ")"
  {
    var s := stem + "/";
    assert s[..|s| - 1] == stem;
  }

  /** The i-th child `repr` is the `repr` of the i-th child. */
  lemma {:induction false} ReprAllPointwise(kids: seq<Node>)
    ensures forall i :: 0 <= i < |kids| ==> ReprAll(kids)[i] == Repr(kids[i])
    decreases |kids|
  {
    if |kids| > 0 {
      ReprAllPointwise(kids[1..]);
      assert forall i :: 1 <= i < |kids| ==> kids[i] == kids[1..][i - 1];
    }
  }

  /** The early `repr` of a fresh tag without a trailing slash shows the
      name, even the empty one, and the attributes. */
  lemma ReprMadeTag(name: string, attrs: seq<(string, string)>)
    requires !EndsWithSlash(name)
    ensures Repr(MakeTag(name, attrs)) == "tag(" + Quote(name) + AttrsRepr(attrs) + ")"
  {
    var t := "tag(" + Quote(name) + AttrsRepr(attrs) + ")";
    assert Repr(MakeTag(name, attrs)) == t + "";
  }

  /** A tag with children, self-closing or not, shows its name, its
      attributes and then its children, comma-separated, in a second pair
      of parentheses. */
  lemma ReprWithChildren(n: Node)
    requires n.Tag? && |n.children| > 0
    ensures Repr(n) == "tag(" + Quote(n.name) + AttrsRepr(n.attrs) + ")"
                       + ("(" + Join(", ", ReprAll(n.children)) + ")")
  {
  }

  /** Adding a selector to an early style adds exactly its block just
      before the blank line and the closing tag. */
  lemma StyleTextSnoc(rules: StyleSheets.Rules, sel: string, props: StyleSheets.Properties)
    ensures StyleText(rules + [(sel, props)])
         == "\n<style>\n" + (StyleSheets.RulesText("", rules) + StyleSheets.Block("", sel, props)) + "\n</style>\n"
  {
    var one: StyleSheets.Rules := [(sel, props)];
    StyleSheets.RulesTextAppend("", rules, one);
    assert one[1..] == [];
    var b := StyleSheets.Block("", sel, props);
    assert StyleSheets.RulesText("", []) == "";
    assert b + "" == b;
    assert StyleSheets.RulesText("", one) == b;
  }

  /** The one-selector example in the early layout. */
  lemma StyleTextExample()
    ensures StyleText(StyleSheets.New([("a", [("b", "c")])])) == "\n<style>\na {\n    b: c;\n}\n\n</style>\n"
  {
    StyleSheets.NewOne("a", [("b", "c")]);
    StyleSheets.RulesTextOne("", "a", "b", "c");
    StyleTextExampleText();
  }

  lemma StyleTextExampleText()
    ensures "\n<style>\n" + ("" + "a" + " {\n" + ("    " + "b" + ": " + "c" + ";\n") + "" + "}\n") + "\n</style>\n"
         == "\n<style>\na {\n    b: c;\n}\n\n</style>\n"
  {
  }

  /** `str(tag('hello')('world'))` in the early package. */
  lemma StreamHelloWorld()
    ensures Stream(Call(MakeTag("hello", []), [Chars("world")]).value) == "<hello>world</hello>"
  {
    assert !EndsWithSlash("hello");
    var n := Call(MakeTag("hello", []), [Chars("world")]).value;
    assert n == Tag("hello", false, [], [Text("world")]);
    var kids := [Text("world")];
    assert kids[1..] == [];
    assert StreamAll(kids) == "world" + "";
    assert Attributes.Render([]) == "";
    StreamHelloWorldText();
  }

  lemma StreamHelloWorldText()
    ensures "<" + "hello" + "" + ">" + ("world" + "") + ("</" + "hello" + ">") == "<hello>world</hello>"
  {
  }

  /** The early package has no wrapper: a tag with an empty name still
      emits both tags. */
  lemma StreamEmptyName()
    ensures Stream(MakeTag("", [])) == "<></>"
  {
    assert Attributes.Render([]) == "";
    assert "<" + "" + "" + ">" + "" + ("</" + "" + ">") == "<></>";
  }

  /** `repr(tag('a/', class_='foo'))` in the early package. */
  lemma ReprSelfClosingExample()
    ensures Repr(MakeTag("a/", [("class_", "foo")])) == "tag('a/')"
  {
    assert "a/" == "a" + "/";
    ReprDropsAttributes("a", [("class_", "foo")]);
    assert "tag(" + ("'" + "a/" + "'") + ")" == "tag('a/')";
  }
}
