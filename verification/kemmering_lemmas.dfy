/** Properties of the current package's tree: how serialization is
    assembled from the children, how calls extend it, what `repr` shows,
    and what binding does and does not change. */
module KemmeringLemmas {
  import opened Results
  import opened Strings
  import opened Kemmering

  /** The serializations of concrete children, in order. */
  function Pieces<C>(kids: seq<Node<C>>): (r: seq<string>)
    requires forall i :: 0 <= i < |kids| ==> Concrete(kids[i])
    ensures |r| == |kids|
  {
    seq(|kids|, i requires 0 <= i < |kids| && Concrete(kids[i]) => Serialize(kids[i]).value)
  }

  // ------------------------------------------------------------ serialize

  /** The children's text is the concatenation of each child's text. */
  lemma {:induction false} SerializeAllIsConcat<C>(kids: seq<Node<C>>)
    requires forall i :: 0 <= i < |kids| ==> Concrete(kids[i])
    ensures SerializeAll(kids) == Ok(Concat(Pieces(kids)))
    decreases |kids|
  {
    if |kids| > 0 {
      SerializeAllIsConcat(kids[1..]);
      assert Pieces(kids) == [Serialize(kids[0]).value] + Pieces(kids[1..]);
    }
  }

  /** Every node of `a + b` is concrete exactly when every node of `a`
      and every node of `b` is. */
  lemma ConcreteAppend<C>(a: seq<Node<C>>, b: seq<Node<C>>)
    ensures (forall i :: 0 <= i < |a + b| ==> Concrete((a + b)[i]))
        <==> (forall i :: 0 <= i < |a| ==> Concrete(a[i])) && (forall i :: 0 <= i < |b| ==> Concrete(b[i]))
  {
    assert forall i :: 0 <= i < |a| ==> (a + b)[i] == a[i];
    assert forall i :: 0 <= i < |b| ==> (a + b)[|a| + i] == b[i];
  }

  /** The text of children is the text of the first child followed by
      the text of the rest. */
  lemma SerializeAllCons<C>(n: Node<C>, rest: seq<Node<C>>)
    requires Serialize(n).Ok? && SerializeAll(rest).Ok?
    ensures SerializeAll([n] + rest) == Ok(Serialize(n).value + SerializeAll(rest).value)
  {
    var kids := [n] + rest;
    assert kids[0] == n;
    assert kids[1..] == rest;
  }

  /** The text of two concrete runs of children is the text of each in
      turn. */
  lemma {:induction false} SerializeAllAppendText<C>(a: seq<Node<C>>, b: seq<Node<C>>)
    requires SerializeAll(a).Ok? && SerializeAll(b).Ok?
    ensures SerializeAll(a + b) == Ok(SerializeAll(a).value + SerializeAll(b).value)
    decreases |a|
  {
    if |a| == 0 {
      assert a + b == b;
      assert "" + SerializeAll(b).value == SerializeAll(b).value;
    } else {
      var t := a[1..];
      assert a == [a[0]] + t;
      assert a + b == [a[0]] + (t + b);
      assert Concrete(a[0]);
      assert forall i :: 0 <= i < |t| ==> Concrete(t[i]) by {
        assert forall i :: 0 <= i < |t| ==> t[i] == a[i + 1];
      }
      SerializeAllAppendText(t, b);
      SerializeAllCons(a[0], t);
      SerializeAllCons(a[0], t + b);
      var h := Serialize(a[0]).value;
      var x := SerializeAll(t).value;
      var y := SerializeAll(b).value;
      assert h + (x + y) == h + x + y;
    }
  }

  /** Streaming two runs of children is streaming each in turn; it fails
      exactly when either run fails. */
  lemma SerializeAllAppend<C>(a: seq<Node<C>>, b: seq<Node<C>>)
    ensures SerializeAll(a + b).Ok? <==> SerializeAll(a).Ok? && SerializeAll(b).Ok?
    ensures SerializeAll(a).Ok? && SerializeAll(b).Ok? ==>
              SerializeAll(a + b) == Ok(SerializeAll(a).value + SerializeAll(b).value)
  {
    ConcreteAppend(a, b);
    if SerializeAll(a).Ok? && SerializeAll(b).Ok? {
      SerializeAllAppendText(a, b);
    }
  }

  /** A named element that is not a childless self-closing one streams as
      its opening tag, each child's text in order, and its closing tag. */
  lemma SerializeNamed<C>(n: Node<C>)
    requires n.Element? && n.cls != Doc && Truthy(n.name) && Concrete(n)
    requires !(n.selfClosing && |n.children| == 0)
    ensures Serialize(n) == Ok("<" + n.name.value + AttrsText(n.attrs) + ">"
                               + Concat(Pieces(n.children)) + ("</" + n.name.value + ">"))
  {
    SerializeAllIsConcat(n.children);
    var body := Concat(Pieces(n.children));
    var a := AttrsText(n.attrs);
    var nm := n.name.value;
  }

  /** A wrapper streams exactly as the concatenation of its children, with
      no tags at all. */
  lemma SerializeWrapper<C>(args: seq<Arg<C>>)
    requires forall i :: 0 <= i < |args| ==> Concrete(Wrap(args[i]))
    ensures Serialize(MakeNoTag(args)) == Ok(Concat(Pieces(WrapAll(args))))
  {
    SerializeAllIsConcat(WrapAll(args));
    var body := Concat(Pieces(WrapAll(args)));
    assert "" + body + "" == body;
  }

  /** A wrapper containing an unbound placeholder cannot be streamed. */
  lemma SerializeWrapperDefer<C>(f: C -> Node<C>)
    ensures Serialize(MakeNoTag([Chars("a"), Child(Defer(f, "f"))])) == Err(UnboundDefer)
  {
    var n := MakeNoTag([Chars("a"), Child(Defer(f, "f"))]);
    assert !Concrete(n.children[1]);
  }

  /** Calling an element inserts the new children's text just before its
      closing tag, after the text of the old children. */
  lemma SerializeCall<C>(n: Node<C>, args: seq<Arg<C>>)
    requires n.Element? && n.cls != Doc && Truthy(n.name) && Concrete(n)
    requires forall i :: 0 <= i < |args| ==> Concrete(Wrap(args[i]))
    requires !n.selfClosing || |n.children| + |args| > 0
    ensures Serialize(Call(n, args).value)
         == Ok("<" + n.name.value + AttrsText(n.attrs) + ">"
               + SerializeAll(n.children).value + SerializeAll(WrapAll(args)).value
               + ("</" + n.name.value + ">"))
  {
    var m := Call(n, args).value;
    assert m.children == n.children + WrapAll(args);
    SerializeAllAppend(n.children, WrapAll(args));
    var x := SerializeAll(n.children).value;
    var y := SerializeAll(WrapAll(args)).value;
    var a := AttrsText(n.attrs);
    var nm := n.name.value;
    assert "<" + nm + a + ">" + (x + y) == "<" + nm + a + ">" + x + y;
  }

  /** A tag built from a name: with a trailing slash and no children it
      streams as `<name attrs/>` without the slash in the name; a name
      without the slash streams open and close tags around its children. */
  lemma SerializeMadeTag<C>(name: string, attrs: Attrs<C>, args: seq<Arg<C>>)
    requires name != ""
    requires forall i :: 0 <= i < |args| ==> Concrete(Wrap(args[i]))
    ensures EndsWithSlash(name) && |args| == 0 ==>
              Serialize(Call(MakeTag(Some(name), attrs), args).value)
              == Ok("<" + name[..|name| - 1] + AttrsText(attrs) + "/>")
    ensures !EndsWithSlash(name) ==>
              Serialize(Call(MakeTag(Some(name), attrs), args).value)
              == Ok("<" + name + AttrsText(attrs) + ">" + Concat(Pieces(WrapAll(args))) + ("</" + name + ">"))
  {
    var n := Call(MakeTag(Some(name), attrs), args).value;
    assert n.children == WrapAll(args);
    var a := AttrsText(attrs);
    if EndsWithSlash(name) && |args| == 0 {
      var stem := name[..|name| - 1];
      assert n.name == Some(stem);
    }
    if !EndsWithSlash(name) {
      SerializeAllIsConcat(WrapAll(args));
      var body := Concat(Pieces(WrapAll(args)));
    }
  }

  /** A name given with a trailing slash. */
  lemma MakeTagSlashed<C>(stem: string, attrs: Attrs<C>)
    requires stem != ""
    ensures MakeTag(Some(stem + "/"), attrs) == Element(Tag, Some(stem), true, attrs, [])
  {
    var s := stem + "/";
    assert s[..|s| - 1] == stem;
  }

  /** A self-closing element without children streams as one tag. */
  lemma SerializeEmptyTag<C>(nm: string, attrs: Attrs<C>)
    ensures Serialize(Element(Tag, Some(nm), true, attrs, [])) == Ok("<" + nm + AttrsText(attrs) + "/>")
  {
  }

  /** Text arguments stream verbatim. */
  lemma SerializeTextChildren<C>(s: string)
    ensures SerializeAll<C>([Text(s)]) == Ok(s)
  {
    var kids: seq<Node<C>> := [Text(s)];
    assert kids[1..] == [];
    assert s + "" == s;
  }

  /** A tag with one child streams around the child's text. */
  lemma SerializeOneChild<C>(name: string, attrs: Attrs<C>, child: Node<C>, text: string)
    requires name != "" && Serialize(child) == Ok(text)
    ensures Serialize(Element(Tag, Some(name), false, attrs, [child]))
         == Ok("<" + name + AttrsText(attrs) + ">" + text + ("</" + name + ">"))
  {
    var kids := [child];
    assert kids[1..] == [];
    assert SerializeAll(kids) == Ok(text + "");
    assert text + "" == text;
  }

  /** A tag called with one string streams around that string. */
  lemma SerializeTextCall<C>(name: string, attrs: Attrs<C>, s: string)
    requires name != ""
    ensures Serialize<C>(Call(Element(Tag, Some(name), false, attrs, []), [Chars(s)]).value)
         == Ok("<" + name + AttrsText(attrs) + ">" + s + ("</" + name + ">"))
  {
    assert Call(Element(Tag, Some(name), false, attrs, []), [Chars(s)]).value
        == Element(Tag, Some(name), false, attrs, [Text(s)]);
    SerializeOneChild(name, attrs, Text(s), s);
  }

  /** `str(tag('hello'))`. */
  lemma SerializeHello<C>()
    ensures Serialize(MakeTag<C>(Some("hello"), [])) == Ok("<hello></hello>")
  {
    assert AttrsText<C>([]) == "";
    var n := MakeTag<C>(Some("hello"), []);
    assert !EndsWithSlash("hello");
    assert n == Element(Tag, Some("hello"), false, [], []);
    assert SerializeAll<C>([]) == Ok("");
    assert "<" + "hello" + "" + ">" + "" + ("</" + "hello" + ">") == "<hello></hello>";
  }

  /** `str(tag('hello')('world'))`. */
  lemma SerializeHelloWorld<C>()
    ensures Serialize(Call(MakeTag<C>(Some("hello"), []), [Chars("world")]).value) == Ok("<hello>world</hello>")
  {
    assert AttrsText<C>([]) == "";
    assert MakeTag<C>(Some("hello"), []) == Element(Tag, Some("hello"), false, [], []) by {
      assert !EndsWithSlash("hello");
    }
    SerializeTextCall<C>("hello", [], "world");
    HelloWorldText();
  }

  lemma HelloWorldText()
    ensures "<" + "hello" + "" + ">" + "world" + ("</" + "hello" + ">") == "<hello>world</hello>"
  {
  }

  /** `str(tag('a')(tag('b/')))`. */
  lemma SerializeNested<C>()
    ensures Serialize(Call(MakeTag<C>(Some("a"), []), [Child(MakeTag(Some("b/"), []))]).value) == Ok("<a><b/></a>")
  {
    assert AttrsText<C>([]) == "";
    assert "b/" == "b" + "/";
    var b := MakeTag<C>(Some("b/"), []);
    assert b.name.value + "/" == "b/";
    assert b.name == Some("b");
    assert Serialize(b) == Ok("<" + "b" + "" + "/>");
    assert "<" + "b" + "" + "/>" == "<b/>";
    assert !EndsWithSlash("a");
    var n := Call(MakeTag<C>(Some("a"), []), [Child(b)]).value;
    assert n == Element(Tag, Some("a"), false, [], [b]);
    assert SerializeAll<C>([b]) == Ok("<b/>") by {
      var kids: seq<Node<C>> := [b];
      assert kids[1..] == [];
      assert "<b/>" + "" == "<b/>";
    }
    assert "<" + "a" + "" + ">" + "<b/>" + ("</" + "a" + ">") == "<a><b/></a>";
  }

  /** A self-closing tag built from `stem + "/"` whose attribute text is
      known streams as `<stem text/>`. */
  lemma SerializeSlashed<C>(stem: string, attrs: Attrs<C>, text: string)
    requires stem != "" && AttrsText(attrs) == text
    ensures Serialize(MakeTag(Some(stem + "/"), attrs)) == Ok("<" + stem + text + "/>")
  {
    MakeTagSlashed(stem, attrs);
  }

  /** One attribute, formatted. */
  lemma AttrPairsOne<C>(k: string, v: AttrValue<C>)
    ensures AttrPairs([(k, v)]) == [(k, ValueText(v))]
  {
  }

  /** Two attributes, formatted in order. */
  lemma AttrPairsTwo<C>(k1: string, v1: AttrValue<C>, k2: string, v2: AttrValue<C>)
    ensures AttrPairs([(k1, v1), (k2, v2)]) == [(k1, ValueText(v1)), (k2, ValueText(v2))]
  {
  }

  /** Binding attributes that hold no placeholder gives them back
      unchanged. */
  lemma BindAttrsStatic<C>(attrs: Attrs<C>, ctx: C)
    requires forall i :: 0 <= i < |attrs| ==> attrs[i].1.Str?
    ensures BindAttrs(attrs, ctx) == attrs
  {
    var r := BindAttrs(attrs, ctx);
    assert forall i :: 0 <= i < |attrs| ==> r[i] == (r[i].0, r[i].1) == attrs[i];
  }

  /** Two keyword attributes render in order, separated by one space. */
  lemma RenderTwoAttributes()
    ensures Attributes.Render([("foo", "bar"), ("bar", "baz")]) == " foo=\"bar\" bar=\"baz\""
  {
    assert [("foo", "bar"), ("bar", "baz")] == [("foo", "bar")] + [("bar", "baz")];
    Attributes.RenderOne("foo", "bar");
    Attributes.RenderSnoc([("foo", "bar")], "bar", "baz");
    assert RStripUnderscores("foo") == "foo";
    assert RStripUnderscores("bar") == "bar";
    assert " " + "foo" + "=\"" + "bar" + "\"" + " " + ("bar" + "=\"" + "baz" + "\"") == " foo=\"bar\" bar=\"baz\"";
  }

  /** `str(tag('a/', foo='bar', bar='baz'))`. */
  lemma SerializeAttributeExample<C>()
    ensures Serialize(MakeTag<C>(Some("a/"), [("foo", Str("bar")), ("bar", Str("baz"))]))
         == Ok("<a foo=\"bar\" bar=\"baz\"/>")
  {
    var attrs: Attrs<C> := [("foo", Str("bar")), ("bar", Str("baz"))];
    AttrPairsTwo<C>("foo", Str("bar"), "bar", Str("baz"));
    RenderTwoAttributes();
    assert "a/" == "a" + "/";
    SerializeSlashed("a", attrs, " foo=\"bar\" bar=\"baz\"");
    AttributeExampleText();
  }

  lemma AttributeExampleText()
    ensures "<" + "a" + " foo=\"bar\" bar=\"baz\"" + "/>" == "<a foo=\"bar\" bar=\"baz\"/>"
  {
  }

  /** `str(tag('a/', class_='foo'))`: a reserved word spelled with a
      trailing underscore. */
  lemma SerializeReservedWordExample<C>()
    ensures Serialize(MakeTag<C>(Some("a/"), [("class_", Str("foo"))])) == Ok("<a class=\"foo\"/>")
  {
    var attrs: Attrs<C> := [("class_", Str("foo"))];
    AttrPairsOne<C>("class_", Str("foo"));
    Attributes.ReservedWordKey();
    assert "a/" == "a" + "/";
    SerializeSlashed("a", attrs, " class=\"foo\"");
    ReservedWordText();
  }

  lemma ReservedWordText()
    ensures "<" + "a" + " class=\"foo\"" + "/>" == "<a class=\"foo\"/>"
  {
  }

  /** The attribute text of `href` holding an unbound placeholder. */
  lemma RenderLazyHref<C>(f: C -> string)
    ensures AttrsText<C>([("href", Lazy(f, "url"))]) == " href=\"defer(url)\""
  {
    AttrPairsOne<C>("href", Lazy(f, "url"));
    assert "defer(" + "url" + ")" == "defer(url)";
    Attributes.RenderOne("href", "defer(url)");
    assert RStripUnderscores("href") == "href";
    assert " " + "href" + "=\"" + "defer(url)" + "\"" == " href=\"defer(url)\"";
  }

  /** An unbound placeholder used as an attribute value is formatted
      through its `repr`; streaming does not fail. */
  lemma SerializeLazyAttribute<C>(f: C -> string)
    ensures Serialize(MakeTag<C>(Some("a/"), [("href", Lazy(f, "url"))])) == Ok("<a href=\"defer(url)\"/>")
  {
    RenderLazyHref(f);
    assert "a/" == "a" + "/";
    SerializeSlashed<C>("a", [("href", Lazy(f, "url"))], " href=\"defer(url)\"");
    LazyAttributeText();
  }

  lemma LazyAttributeText()
    ensures "<" + "a" + " href=\"defer(url)\"" + "/>" == "<a href=\"defer(url)\"/>"
  {
  }

  // ----------------------------------------------------------------- repr

  /** The `repr` of each child, pointwise. */
  lemma {:induction false} ReprAllPointwise<C>(kids: seq<Node<C>>)
    ensures forall i :: 0 <= i < |kids| ==> ReprAll(kids)[i] == Repr(kids[i])
    decreases |kids|
  {
    if |kids| > 0 {
      ReprAllPointwise(kids[1..]);
      assert forall i :: 1 <= i < |kids| ==> kids[i] == kids[1..][i - 1];
    }
  }

  /** The `repr` of a freshly built tag reproduces its constructor call:
      the name exactly as passed, trailing slash included. */
  lemma ReprMadeTag<C>(name: string, attrs: Attrs<C>)
    requires name != ""
    ensures Repr(MakeTag(Some(name), attrs)) == "tag(" + Quote(name) + AttrsRepr(attrs) + ")"
  {
  }

  /** A named element with children shows them, comma-separated, in a
      second pair of parentheses. */
  lemma ReprWithChildren<C>(n: Node<C>)
    requires n.Element? && Truthy(n.name) && |n.children| > 0
    ensures Repr(n) == "tag(" + Quote(n.name.value) + AttrsRepr(n.attrs) + ")"
                       + ("(" + Join(", ", ReprAll(n.children)) + ")")
  {
  }

  /** A wrapper shows `notag`, followed by its children in parentheses
      only when it has any. */
  lemma ReprNoTag<C>(args: seq<Arg<C>>)
    ensures |args| == 0 ==> Repr(MakeNoTag(args)) == "notag"
    ensures |args| > 0 ==> Repr(MakeNoTag(args)) == "notag(" + Join(", ", ReprAll(WrapAll(args))) + ")"
  {
    var n := MakeNoTag(args);
    assert n == Element(NoTag, None, false, [], WrapAll(args));
    if |args| == 0 {
      assert Repr(n) == "notag" + "";
    } else {
      var j := Join(", ", ReprAll(WrapAll(args)));
      assert Repr(n) == "notag" + ("(" + j + ")");
      assert "notag" + ("(" + j + ")") == "notag(" + j + ")";
    }
  }

  /** The `repr` of a single child. */
  lemma ReprOne<C>(n: Node<C>)
    ensures ReprAll([n]) == [Repr(n)]
  {
    var kids := [n];
    assert kids[1..] == [];
  }

  /** `repr(tag('hello'))`. */
  lemma ReprHello<C>()
    ensures Repr(MakeTag<C>(Some("hello"), [])) == "tag('hello')"
  {
    ReprMadeTag<C>("hello", []);
    assert AttrsRepr<C>([]) == "";
    assert "tag(" + ("'" + "hello" + "'") + "" + ")" == "tag('hello')";
  }

  /** `repr(tag('hello')('world'))`. */
  lemma ReprHelloWorld<C>()
    ensures Repr(Call(MakeTag<C>(Some("hello"), []), [Chars("world")]).value) == "tag('hello')('world')"
  {
    assert !EndsWithSlash("hello");
    var h := Call(MakeTag<C>(Some("hello"), []), [Chars("world")]).value;
    assert h == Element(Tag, Some("hello"), false, [], [Text("world")]);
    ReprOne<C>(Text("world"));
    assert Join(", ", ["'world'"]) == "'world'";
    ReprWithChildren(h);
    assert AttrsRepr<C>([]) == "";
    ReprHelloWorldText();
  }

  lemma ReprHelloWorldText()
    ensures "tag(" + ("'" + "hello" + "'") + "" + ")(" + ("'" + "world" + "'") + ")" == "tag('hello')('world')"
  {
  }

  /** `repr(tag('a')(tag('b/')))`: the child shows its slash again. */
  lemma ReprNested<C>()
    ensures Repr(Call(MakeTag<C>(Some("a"), []), [Child(MakeTag(Some("b/"), []))]).value) == "tag('a')(tag('b/'))"
  {
    var b := MakeTag<C>(Some("b/"), []);
    ReprMadeTag<C>("b/", []);
    assert AttrsRepr<C>([]) == "";
    assert Repr(b) == "tag('b/')" by {
      assert "tag(" + ("'" + "b/" + "'") + "" + ")" == "tag('b/')";
    }
    assert !EndsWithSlash("a");
    var a := Call(MakeTag<C>(Some("a"), []), [Child(b)]).value;
    assert a == Element(Tag, Some("a"), false, [], [b]);
    ReprOne<C>(b);
    assert Join(", ", ["tag('b/')"]) == "tag('b/')";
    ReprWithChildren(a);
    ReprNestedText();
  }

  lemma ReprNestedText()
    ensures "tag(" + ("'" + "a" + "'") + "" + ")(" + "tag('b/')" + ")" == "tag('a')(tag('b/'))"
  {
  }

  /** `repr(tag('a/', class_='foo'))`: keys keep their underscore. */
  lemma ReprAttributeExample<C>()
    ensures Repr(MakeTag<C>(Some("a/"), [("class_", Str("foo"))])) == "tag('a/', class_='foo')"
  {
    var cls: Attrs<C> := [("class_", Str("foo"))];
    ReprMadeTag<C>("a/", cls);
    assert KeywordItems(cls) == ["class_" + "=" + ("'" + "foo" + "'")];
    assert AttrsRepr(cls) == ", " + ("class_" + "=" + ("'" + "foo" + "'"));
    ReprAttributeText();
  }

  lemma ReprAttributeText()
    ensures "tag(" + ("'" + "a/" + "'") + (", " + ("class_" + "=" + ("'" + "foo" + "'"))) + ")" == "tag('a/', class_='foo')"
  {
  }

  // ----------------------------------------------------------------- bind

  /** No attribute value is a placeholder and no placeholder is reachable. */
  predicate Static<C>(n: Node<C>) {
    match n
    case Element(_, _, _, attrs, kids) =>
      && (forall i :: 0 <= i < |attrs| ==> attrs[i].1.Str?)
      && (forall i :: 0 <= i < |kids| ==> Static(kids[i]))
    case Defer(_, _) => false
    case _ => true
  }

  /** Every reachable element is a plain tag that the rebuild reproduces:
      not self-closing and not named with a trailing slash. */
  predicate Stable<C>(n: Node<C>) {
    match n
    case Element(cls, name, selfClosing, _, kids) =>
      && cls == Tag && !selfClosing && !(Truthy(name) && EndsWithSlash(name.value))
      && (forall i :: 0 <= i < |kids| ==> Stable(kids[i]))
    case _ => true
  }

  /** Every reachable placeholder resolves, under `ctx`, to a concrete node. */
  predicate ResolvesConcrete<C>(n: Node<C>, ctx: C) {
    match n
    case Element(_, _, _, _, kids) => forall i :: 0 <= i < |kids| ==> ResolvesConcrete(kids[i], ctx)
    case Defer(f, _) => Concrete(f(ctx))
    case _ => true
  }

  /** Binding a rebuildable tree whose placeholders resolve to concrete
      nodes gives a tree that streams without error. */
  lemma {:induction false} BindThenSerialize<C>(x: Node<C>, ctx: C)
    requires Rebuildable(x) && ResolvesConcrete(x, ctx)
    ensures Rebind(x, ctx).Ok? && Concrete(Rebind(x, ctx).value)
    decreases x
  {
    if x.Element? {
      forall i | 0 <= i < |x.children|
        ensures Concrete(Rebind(x, ctx).value.children[i])
      {
        BindThenSerialize(x.children[i], ctx);
      }
    }
  }

  /** A placeholder's result is used as is: a resolver returning another
      placeholder leaves it unbound, and streaming the result fails. */
  lemma DeferNotRebound<C>(f: C -> Node<C>, g: C -> Node<C>, ctx: C)
    requires f(ctx) == Defer(g, "g")
    ensures Bind(Defer(f, "f"), ctx) == Ok(Defer(g, "g"))
    ensures Serialize(Bind(Defer(f, "f"), ctx).value) == Err(UnboundDefer)
  {
  }

  /** Stable trees hold only plain tags, so their rebuild succeeds. */
  lemma {:induction false} StableRebuildable<C>(x: Node<C>)
    requires Stable(x)
    ensures Rebuildable(x)
    decreases x
  {
    if x.Element? {
      forall i | 0 <= i < |x.children|
        ensures Rebuildable(x.children[i])
      {
        StableRebuildable(x.children[i]);
      }
    }
  }

  /** On a stable tree, the rebuild as written is exactly the rebuild
      that keeps the class and the self-closing flag. */
  lemma {:induction false} RebindStable<C>(x: Node<C>, ctx: C)
    requires Stable(x)
    ensures Rebind(x, ctx) == Ok(RebindPreserving(x, ctx))
    decreases x
  {
    StableRebuildable(x);
    if x.Element? {
      var r := Rebind(x, ctx).value;
      var p := RebindPreserving(x, ctx);
      forall i | 0 <= i < |x.children|
        ensures r.children[i] == p.children[i]
      {
        RebindStable(x.children[i], ctx);
      }
      assert r.children == p.children;
      assert r.attrs == p.attrs;
    }
  }

  /** The preserving rebuild changes nothing in a tree without placeholders. */
  lemma {:induction false} RebindPreservingIdentity<C>(x: Node<C>, ctx: C)
    requires Static(x)
    ensures RebindPreserving(x, ctx) == x
    decreases x
  {
    if x.Element? {
      var p := RebindPreserving(x, ctx);
      forall i | 0 <= i < |x.children|
        ensures p.children[i] == x.children[i]
      {
        RebindPreservingIdentity(x.children[i], ctx);
      }
      assert p.children == x.children;
      assert p.attrs == x.attrs;
    }
  }

  /** Binding a stable tree without placeholders gives back the same tree,
      so its text is unchanged. */
  lemma BindIdentity<C>(x: Node<C>, ctx: C)
    requires Stable(x) && Static(x)
    ensures Rebind(x, ctx) == Ok(x)
    ensures Serialize(Rebind(x, ctx).value) == Serialize(x)
  {
    RebindStable(x, ctx);
    RebindPreservingIdentity(x, ctx);
  }

  /** The preserving rebuild keeps the text of every tree without
      placeholders, self-closing tags and wrappers included. */
  lemma RebindPreservingSerialize<C>(x: Node<C>, ctx: C)
    requires Static(x)
    ensures Serialize(RebindPreserving(x, ctx)) == Serialize(x)
  {
    RebindPreservingIdentity(x, ctx);
  }

  /** `tag('br/')` streams as `<br/>`. */
  lemma SerializeBr<C>()
    ensures Serialize(MakeTag<C>(Some("br/"), [])) == Ok("<br/>")
  {
    assert "br/" == "br" + "/";
    assert AttrsText<C>([]) == "";
    SerializeSlashed<C>("br", [], "");
    assert "<" + "br" + "" + "/>" == "<br/>";
  }

  /** As written, binding `tag('br/')` rebuilds it as `tag('br')`: the
      flag is lost and the text changes from `<br/>` to `<br></br>`. The
      preserving rebuild keeps `<br/>`. */
  lemma BindDropsSelfClosing<C>(ctx: C)
    ensures Serialize(MakeTag<C>(Some("br/"), [])) == Ok("<br/>")
    ensures Bind(MakeTag<C>(Some("br/"), []), ctx) == Ok(MakeTag(Some("br"), []))
    ensures Serialize(Bind(MakeTag<C>(Some("br/"), []), ctx).value) == Ok("<br></br>")
    ensures Serialize(RebindPreserving(MakeTag<C>(Some("br/"), []), ctx)) == Ok("<br/>")
  {
    SerializeBr<C>();
    assert "br/" == "br" + "/";
    MakeTagSlashed<C>("br", []);
    var n := MakeTag<C>(Some("br/"), []);
    assert BindAttrs<C>([], ctx) == [];
    assert RebindAll<C>([], ctx) == Ok([]);
    assert !EndsWithSlash("br");
    var b := MakeTag<C>(Some("br"), []);
    assert b == Element(Tag, Some("br"), false, [], []);
    assert Bind(n, ctx) == Ok(b);
    assert AttrsText<C>([]) == "";
    assert SerializeAll<C>([]) == Ok("");
    assert "<" + "br" + "" + ">" + "" + ("</" + "br" + ">") == "<br></br>";
    RebindPreservingSerialize(n, ctx);
  }

  /** `tag('a')(notag('x'))` streams as `<a>x</a>`. */
  lemma SerializeWrapped<C>()
    ensures Serialize(Call(MakeTag<C>(Some("a"), []), [Child(MakeNoTag([Chars("x")]))]).value) == Ok("<a>x</a>")
  {
    var w := MakeNoTag<C>([Chars("x")]);
    assert w.children == [Text("x")];
    SerializeTextChildren<C>("x");
    assert Serialize(w) == Ok("" + "x" + "");
    assert "" + "x" + "" == "x";
    var t := Call(MakeTag<C>(Some("a"), []), [Child(w)]).value;
    assert !EndsWithSlash("a");
    assert t == Element(Tag, Some("a"), false, [], [w]);
    assert SerializeAll<C>([w]) == Ok("x") by {
      var kids := [w];
      assert kids[1..] == [];
      assert "x" + "" == "x";
    }
    assert AttrsText<C>([]) == "";
    assert "<" + "a" + "" + ">" + "x" + ("</" + "a" + ">") == "<a>x</a>";
  }

  /** As written, binding a tag that contains a wrapper fails, since the
      wrapper's rebuild passes `None` as a child. The preserving rebuild
      keeps the text `<a>x</a>`. */
  lemma BindNoTagFails<C>(ctx: C)
    ensures Serialize(Call(MakeTag<C>(Some("a"), []), [Child(MakeNoTag([Chars("x")]))]).value) == Ok("<a>x</a>")
    ensures Bind(Call(MakeTag<C>(Some("a"), []), [Child(MakeNoTag([Chars("x")]))]).value, ctx) == Err(RebuildFailed)
    ensures Serialize(RebindPreserving(Call(MakeTag<C>(Some("a"), []), [Child(MakeNoTag([Chars("x")]))]).value, ctx))
         == Ok("<a>x</a>")
  {
    SerializeWrapped<C>();
    var w := MakeNoTag<C>([Chars("x")]);
    assert w.children == [Text("x")];
    var t := Call(MakeTag<C>(Some("a"), []), [Child(w)]).value;
    assert t.children == [w];
    assert !Rebuildable(t.children[0]);
    assert Static(t.children[0]);
    RebindPreservingSerialize(t, ctx);
  }
}
