/** How the early package relates to the current one. Every early tree
    has a direct counterpart in the current tree (a plain `tag` with
    string attributes); building and calling agree, and streaming agrees
    as long as every tag has a non-empty name and no style block occurs.
    The empty name and the `repr` of a self-closing tag are where the two
    versions part. */
module Versions {
  import opened Results
  import opened Strings
  import Attributes
  import Kemmer
  import K = Kemmering
  import KemmerLemmas

  /** Early attributes as current ones: every value is a plain string. */
  function StrAttrs<C>(attrs: seq<(string, string)>): (r: K.Attrs<C>)
    ensures |r| == |attrs|
    ensures forall i :: 0 <= i < |attrs| ==> r[i] == (attrs[i].0, K.Str(attrs[i].1))
  {
    if |attrs| == 0 then [] else [(attrs[0].0, K.Str(attrs[0].1))] + StrAttrs(attrs[1..])
  }

  /** The current counterpart of an early node: tags become plain `tag`
      elements, so the counterpart has no placeholder and every element
      in it can be rebuilt by `bind`. */
  function Embed<C>(k: Kemmer.Node): (r: K.Node<C>)
    ensures r.Element? <==> k.Tag?
    ensures K.Concrete(r) && K.Rebuildable(r)
    decreases k
  {
    match k
    case Tag(name, selfClosing, attrs, kids) =>
      K.Element(K.Tag, Some(name), selfClosing, StrAttrs(attrs), EmbedAll(kids))
    case Text(s) => K.Text(s)
    case Style(rules) => K.Style(rules)
  }

  function EmbedAll<C>(kids: seq<Kemmer.Node>): (r: seq<K.Node<C>>)
    ensures |r| == |kids|
    ensures forall i :: 0 <= i < |kids| ==> r[i] == Embed(kids[i])
    decreases kids
  {
    if |kids| == 0 then []
    else
      var r := [Embed(kids[0])] + EmbedAll(kids[1..]);
      assert forall i :: 1 <= i < |kids| ==> kids[i] == kids[1..][i - 1];
      r
  }

  /** The current counterpart of a call argument: wrapping it as a child
      gives the counterpart of the wrapped early child. */
  function EmbedArg<C>(a: Kemmer.Arg): (r: K.Arg<C>)
    ensures K.Wrap(r) == Embed<C>(Kemmer.Wrap(a))
  {
    match a
    case Chars(s) => K.Chars(s)
    case Child(n) => K.Child(Embed(n))
  }

  function EmbedArgs<C>(args: seq<Kemmer.Arg>): (r: seq<K.Arg<C>>)
    ensures |r| == |args|
    ensures forall i :: 0 <= i < |args| ==> r[i] == EmbedArg(args[i])
  {
    if |args| == 0 then [] else [EmbedArg(args[0])] + EmbedArgs(args[1..])
  }

  /** Every tag reachable in the early tree has a non-empty name and no
      style block occurs: the trees on which the two serializers agree. */
  predicate Comparable(k: Kemmer.Node) {
    match k
    case Tag(name, _, _, kids) => name != "" && forall i :: 0 <= i < |kids| ==> Comparable(kids[i])
    case Text(_) => true
    case Style(_) => false
  }

  /** String attributes render the same in both versions. */
  lemma AttrsTextAgrees<C>(attrs: seq<(string, string)>)
    ensures K.AttrsText<C>(StrAttrs(attrs)) == Attributes.Render(attrs)
  {
    var p := K.AttrPairs<C>(StrAttrs(attrs));
    assert p == attrs;
  }

  /** Building a tag agrees for every name, the empty one included. */
  lemma MakeTagAgrees<C>(name: string, attrs: seq<(string, string)>)
    ensures Embed<C>(Kemmer.MakeTag(name, attrs)) == K.MakeTag<C>(Some(name), StrAttrs(attrs))
  {
  }

  /** Calling a tag agrees: the counterpart of the called early tag is the
      current tag called with the counterparts of the arguments. */
  lemma CallAgrees<C>(n: Kemmer.Node, args: seq<Kemmer.Arg>)
    requires n.Tag?
    ensures K.Call<C>(Embed(n), EmbedArgs(args)) == Ok(Embed<C>(Kemmer.Call(n, args).value))
  {
    var m := Kemmer.Call(n, args).value;
    var lhs := K.Call<C>(Embed(n), EmbedArgs(args)).value;
    var rhs := Embed<C>(m);
    assert |lhs.children| == |rhs.children|;
    forall i | 0 <= i < |lhs.children|
      ensures lhs.children[i] == rhs.children[i]
    {
      if i < |n.children| {
        assert lhs.children[i] == lhs.children[..|n.children|][i] == Embed(n.children[i]);
        assert m.children[i] == m.children[..|n.children|][i] == n.children[i];
      } else {
        var j := i - |n.children|;
        assert lhs.children[|n.children| + j] == K.Wrap(EmbedArg<C>(args[j]));
        assert m.children[|n.children| + j] == Kemmer.Wrap(args[j]);
      }
    }
    assert lhs.children == rhs.children;
  }

  /** On comparable trees the current serializer produces exactly the early
      package's text. */
  lemma {:induction false} SerializeEmbed<C>(k: Kemmer.Node)
    requires Comparable(k)
    ensures K.Serialize<C>(Embed(k)) == Ok(Kemmer.Stream(k))
    decreases k
  {
    match k
    case Tag(name, selfClosing, attrs, kids) =>
      AttrsTextAgrees<C>(attrs);
      if !(selfClosing && |kids| == 0) {
        SerializeAllEmbed<C>(kids);
      }
    case Text(_) =>
  }

  lemma {:induction false} SerializeAllEmbed<C>(kids: seq<Kemmer.Node>)
    requires forall i :: 0 <= i < |kids| ==> Comparable(kids[i])
    ensures K.SerializeAll<C>(EmbedAll(kids)) == Ok(Kemmer.StreamAll(kids))
    decreases kids
  {
    if |kids| > 0 {
      SerializeEmbed<C>(kids[0]);
      SerializeAllEmbed<C>(kids[1..]);
      assert EmbedAll<C>(kids)[1..] == EmbedAll(kids[1..]);
    }
  }

  /** The empty name: the early package emits `<></>`, the current one
      treats the tag as a wrapper and emits nothing. */
  lemma EmptyNameDiffers<C>()
    ensures Kemmer.Stream(Kemmer.MakeTag("", [])) == "<></>"
    ensures K.Serialize<C>(Embed(Kemmer.MakeTag("", []))) == Ok("")
  {
    KemmerLemmas.StreamEmptyName();
    var e := Embed<C>(Kemmer.MakeTag("", []));
    assert e == K.Element(K.Tag, Some(""), false, StrAttrs([]), EmbedAll([]));
    assert K.SerializeAll(e.children) == Ok("");
    assert "" + "" + "" == "";
  }

  /** A self-closing tag with attributes: the early `repr` leaves the
      attributes out, the current one shows them. */
  lemma ReprSelfClosingDiffers<C>()
    ensures Kemmer.Repr(Kemmer.MakeTag("a/", [("class_", "foo")])) == "tag('a/')"
    ensures K.Repr<C>(Embed(Kemmer.MakeTag("a/", [("class_", "foo")]))) == "tag('a/', class_='foo')"
  {
    KemmerLemmas.ReprSelfClosingExample();
    var attrs := StrAttrs<C>([("class_", "foo")]);
    assert attrs == [("class_", K.Str("foo"))];
    assert K.KeywordItems(attrs) == ["class_" + "=" + Quote("foo")];
    assert Join(", ", ["class_='foo'"]) == "class_='foo'";
    assert K.AttrsRepr(attrs) == ", class_='foo'";
    assert "a/" == "a" + "/";
    ReprSelfClosingText();
  }

  lemma ReprSelfClosingText()
    ensures "tag(" + ("'" + ("a" + "/") + "'") + ", class_='foo'" + ")" == "tag('a/', class_='foo')"
  {
  }
}
