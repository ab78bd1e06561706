/** The current package: a markup tree of tags, nameless wrappers
    (`notag`), HTML documents (`doc`), verbatim text, deferred
    placeholders and style blocks, with its serializer, its `repr` and the
    `bind` rebuild that resolves placeholders against a context.

    The tree is an immutable value: the source's in-place append returns
    the receiver, which here becomes a function returning the extended
    node. The context type `C` is left abstract; a placeholder carries its
    resolver as a Dafny function value. */
module Kemmering {
  import opened Results
  import opened Strings
  import Attributes
  import StyleSheets

  /** The Python class of an element. Binding distinguishes them; the
      serializer only treats `Doc` specially. */
  datatype Class = Tag | NoTag | Doc

  /** The exceptions the modelled operations can raise. */
  datatype Error =
    | UnboundDefer   // streaming a placeholder that was never bound
    | NotBindable    // `bind` on an object without a bind method (text, style)
    | RebuildFailed  // rebuilding a `notag` or `doc` passes `None` as a child
    | NotCallable    // calling something that is not an element

  /** An attribute value: a string, or a placeholder resolved to a string
      at bind time. */
  datatype AttrValue<!C> = Str(s: string) | Lazy(resolve: C -> string, fname: string)

  type Attrs<!C> = seq<(string, AttrValue<C>)>

  /** A node of the tree. `name` is `None` for wrappers and documents;
      `Some("")` is an empty but present name. */
  datatype Node<!C> =
    | Element(cls: Class, name: Option<string>, selfClosing: bool, attrs: Attrs<C>, children: seq<Node<C>>)
    | Text(s: string)
    | Defer(resolve: C -> Node<C>, fname: string)
    | Style(rules: StyleSheets.Rules)

  /** An argument of a call: a plain string or a node. */
  datatype Arg<!C> = Chars(s: string) | Child(node: Node<C>)

  /** Python truthiness of a tag name: present and non-empty. */
  predicate Truthy(name: Option<string>) {
    name.Some? && name.value != ""
  }

  /** The tag name as `%s` formats it. */
  function NameText(name: Option<string>): string {
    match name
    case None => "None"
    case Some(s) => s
  }

  // ---------------------------------------------------------------- building

  /** `tag(name, **attrs)`: a name ending in `/` loses exactly that one
      slash and makes the element self-closing; any other name, including
      `None` and the empty string, is kept as given. */
  function MakeTag<C>(name: Option<string>, attrs: Attrs<C>): (r: Node<C>)
    ensures r.Element? && r.cls == Tag && r.attrs == attrs && r.children == []
    ensures r.selfClosing <==> Truthy(name) && EndsWithSlash(name.value)
    ensures r.selfClosing ==> r.name == Some(name.value[..|name.value| - 1])
    ensures r.selfClosing ==> r.name.Some? && r.name.value + "/" == name.value
    ensures !r.selfClosing ==> r.name == name
  {
    if Truthy(name) && EndsWithSlash(name.value) then
      var s := name.value;
      assert s[..|s| - 1] + "/" == s;
      Element(Tag, Some(s[..|s| - 1]), true, attrs, [])
    else
      Element(Tag, name, false, attrs, [])
  }

  /** A call argument as a child: strings become text leaves. */
  function Wrap<C>(arg: Arg<C>): Node<C> {
    match arg
    case Chars(s) => Text(s)
    case Child(n) => n
  }

  /** The children contributed by a call's arguments, in argument order. */
  function WrapAll<C>(args: seq<Arg<C>>): (r: seq<Node<C>>)
    ensures |r| == |args|
    ensures forall i :: 0 <= i < |args| ==> r[i] == Wrap(args[i])
  {
    seq(|args|, i requires 0 <= i < |args| => Wrap(args[i]))
  }

  /** `node(*args)`: the arguments are appended after the existing
      children, in order, strings wrapped as text; everything else about
      the element is unchanged. Only elements are callable. */
  function Call<C>(n: Node<C>, args: seq<Arg<C>>): (r: Result<Node<C>, Error>)
    ensures r.Ok? <==> n.Element?
    ensures r.Ok? ==> (r.value.Element?
                       && r.value.cls == n.cls && r.value.name == n.name
                       && r.value.selfClosing == n.selfClosing && r.value.attrs == n.attrs)
    ensures r.Ok? ==> (|r.value.children| == |n.children| + |args|
                       && r.value.children[..|n.children|] == n.children
                       && forall i :: 0 <= i < |args| ==> r.value.children[|n.children| + i] == Wrap(args[i]))
    ensures r.Err? ==> r.error == NotCallable
  {
    if n.Element? then
      var kids := n.children + WrapAll(args);
      assert kids[..|n.children|] == n.children;
      Ok(n.(children := kids))
    else
      Err(NotCallable)
  }

  /** `notag(*args)`: as its constructor is written, `tag(None)` called
      with the arguments, only of class `notag`. */
  function MakeNoTag<C>(args: seq<Arg<C>>): (r: Node<C>)
    ensures r.Element? && r.cls == NoTag
    ensures Call(MakeTag(None, []), args) == Ok(r.(cls := Tag))
  {
    Element(NoTag, None, false, [], WrapAll(args))
  }

  // ----------------------------------------------------------- serializing

  /** An attribute value as `%s` formats it: a string as is, an unbound
      placeholder through its `repr`. */
  function ValueText<C>(v: AttrValue<C>): string {
    match v
    case Str(s) => s
    case Lazy(_, f) => "defer(" + f + ")"
  }

  /** The attributes with their values formatted, in order. */
  function AttrPairs<C>(attrs: Attrs<C>): (r: seq<(string, string)>)
    ensures |r| == |attrs|
    ensures forall i :: 0 <= i < |attrs| ==> r[i] == (attrs[i].0, ValueText(attrs[i].1))
  {
    if |attrs| == 0 then [] else [(attrs[0].0, ValueText(attrs[0].1))] + AttrPairs(attrs[1..])
  }

  /** The attribute text inserted after the tag name. */
  function AttrsText<C>(attrs: Attrs<C>): string {
    Attributes.Render(AttrPairs(attrs))
  }

  /** The text a `doc` streams before its children. */
  const Doctype := "<!DOCTYPE html>\n\n"

  /** No placeholder is reachable through the children of elements. */
  predicate Concrete<C>(n: Node<C>) {
    match n
    case Element(_, _, _, _, kids) => forall i :: 0 <= i < |kids| ==> Concrete(kids[i])
    case Defer(_, _) => false
    case _ => true
  }

  /** `''.join(node._stream())`. A self-closing element without children
      is `<name attrs/>`; any other element is its opening tag, its
      children in order and its closing tag, where a nameless element
      omits both tags; text is emitted verbatim; a reachable placeholder
      raises. Streaming fails exactly when a placeholder is reachable. */
  function Serialize<C>(n: Node<C>): (r: Result<string, Error>)
    ensures r.Ok? <==> Concrete(n)
    ensures r.Err? ==> r.error == UnboundDefer
    decreases n
  {
    match n
    case Element(cls, name, selfClosing, attrs, kids) =>
      var a := AttrsText(attrs);
      var tagged :=
        if selfClosing && |kids| == 0 then Ok("<" + NameText(name) + a + "/>")
        else
          (match SerializeAll(kids)
           case Err(e) => Err(e)
           case Ok(body) =>
             Ok((if Truthy(name) then "<" + name.value + a + ">" else "")
                + body
                + (if Truthy(name) then "</" + name.value + ">" else "")));
      if cls == Doc then
        (match tagged
         case Err(e) => Err(e)
         case Ok(t) => Ok(Doctype + t))
      else tagged
    case Text(s) => Ok(s)
    case Defer(_, _) => Err(UnboundDefer)
    case Style(rules) => Ok(StyleSheets.RenderHtml(rules))
  }

  /** The children streamed one after another. */
  function SerializeAll<C>(kids: seq<Node<C>>): (r: Result<string, Error>)
    ensures r.Ok? <==> forall i :: 0 <= i < |kids| ==> Concrete(kids[i])
    ensures r.Err? ==> r.error == UnboundDefer
    decreases kids
  {
    if |kids| == 0 then Ok("")
    else
      match Serialize(kids[0])
      case Err(e) => Err(e)
      case Ok(head) =>
        match SerializeAll(kids[1..])
        case Err(e) =>
          assert !Concrete(kids[1..][0]) || exists i :: 1 <= i < |kids[1..]| && !Concrete(kids[1..][i]);
          Err(e)
        case Ok(tail) => Ok(head + tail)
  }

  // ------------------------------------------------------------------ repr

  /** `repr` of an attribute value. */
  function ValueRepr<C>(v: AttrValue<C>): string {
    match v
    case Str(s) => Quote(s)
    case Lazy(_, f) => "defer(" + f + ")"
  }

  /** The keyword part of an element's `repr`: `, k=v, ...` with the keys
      as written (trailing underscores kept). */
  function AttrsRepr<C>(attrs: Attrs<C>): string {
    if |attrs| == 0 then "" else ", " + Join(", ", KeywordItems(attrs))
  }

  /** The `k=v` items of an element's `repr`, in order. */
  function KeywordItems<C>(attrs: Attrs<C>): (r: seq<string>)
    ensures |r| == |attrs|
    ensures forall i :: 0 <= i < |attrs| ==> r[i] == attrs[i].0 + "=" + ValueRepr(attrs[i].1)
  {
    if |attrs| == 0 then [] else [attrs[0].0 + "=" + ValueRepr(attrs[0].1)] + KeywordItems(attrs[1..])
  }

  /** `repr(node)`: a self-closing element without children shows the
      name with its slash restored; a named element shows `tag('name',
      k=v)` followed by its children in parentheses, if any; a nameless
      one shows `notag` and its children, if any. */
  function Repr<C>(n: Node<C>): (r: string)
    ensures n.Element? && (Truthy(n.name) || (n.selfClosing && |n.children| == 0)) ==> "tag(" <= r
    ensures n.Element? && !Truthy(n.name) && !(n.selfClosing && |n.children| == 0) ==> "notag" <= r
    ensures n.Element? && |n.children| > 0 ==> r[|r| - 1] == ')'
    decreases n
  {
    match n
    case Element(_, name, selfClosing, attrs, kids) =>
      if selfClosing && |kids| == 0 then
        "tag(" + Quote(NameText(name) + "/") + AttrsRepr(attrs) + ")"
      else
        var c := if |kids| == 0 then "" else "(" + Join(", ", ReprAll(kids)) + ")";
        if Truthy(name) then "tag(" + Quote(name.value) + AttrsRepr(attrs) + ")" + c
        else "notag" + c
    case Text(s) => Quote(s)
    case Defer(_, f) => "defer(" + f + ")"
    case Style(_) => "<kemmering.html.style object>"
  }

  /** The `repr` of each child, in order. */
  function ReprAll<C>(kids: seq<Node<C>>): (r: seq<string>)
    ensures |r| == |kids|
    decreases kids
  {
    if |kids| == 0 then [] else [Repr(kids[0])] + ReprAll(kids[1..])
  }

  // ------------------------------------------------------------------ bind

  /** An attribute value after binding. */
  function BindValue<C>(v: AttrValue<C>, ctx: C): AttrValue<C> {
    match v
    case Str(_) => v
    case Lazy(f, _) => Str(f(ctx))
  }

  /** Binding the attributes keeps every key and its position and leaves
      no placeholder behind: a string value is kept and a placeholder
      becomes its resolver's result for the context. */
  function BindAttrs<C>(attrs: Attrs<C>, ctx: C): (r: Attrs<C>)
    ensures |r| == |attrs|
    ensures forall i :: 0 <= i < |attrs| ==> r[i].0 == attrs[i].0 && r[i].1.Str?
    ensures forall i :: 0 <= i < |attrs| && attrs[i].1.Str? ==> r[i].1 == attrs[i].1
    ensures forall i :: 0 <= i < |attrs| && attrs[i].1.Lazy? ==> r[i].1.s == attrs[i].1.resolve(ctx)
  {
    seq(|attrs|, i requires 0 <= i < |attrs| => (attrs[i].0, BindValue(attrs[i].1, ctx)))
  }

  /** Every element reachable through children is a plain `tag`, so the
      rebuild of `_bind` succeeds. */
  predicate Rebuildable<C>(n: Node<C>) {
    match n
    case Element(cls, _, _, _, kids) => cls == Tag && forall i :: 0 <= i < |kids| ==> Rebuildable(kids[i])
    case _ => true
  }

  /** The `bind` helper of `tag._bind`, applied to an attribute-free
      child: text and style objects have no bind method and are kept; a
      placeholder becomes its resolver's result, which is not bound again;
      an element is rebuilt as `tag(name, **bound_attrs)(*bound_children)`.
      The rebuild passes the already stripped name, so self-closing is
      recomputed from it rather than carried over, and it fails for
      `notag` and `doc`. */
  function Rebind<C>(x: Node<C>, ctx: C): (r: Result<Node<C>, Error>)
    ensures r.Ok? <==> Rebuildable(x)
    ensures r.Err? ==> r.error == RebuildFailed
    ensures x.Text? || x.Style? ==> r == Ok(x)
    ensures x.Defer? ==> r == Ok(x.resolve(ctx))
    ensures x.Element? && r.Ok? ==>
              && r.value.Element? && r.value.cls == Tag
              && (r.value.selfClosing <==> Truthy(x.name) && EndsWithSlash(x.name.value))
              && (r.value.name == x.name || (r.value.selfClosing && r.value.name.Some? && r.value.name.value + "/" == x.name.value))
              && |r.value.attrs| == |x.attrs|
              && (forall i :: 0 <= i < |x.attrs| ==>
                    r.value.attrs[i].0 == x.attrs[i].0 && r.value.attrs[i].1 == BindValue(x.attrs[i].1, ctx))
              && |r.value.children| == |x.children|
              && (forall i :: 0 <= i < |x.children| ==> Rebind(x.children[i], ctx) == Ok(r.value.children[i]))
    decreases x
  {
    match x
    case Element(cls, name, _, attrs, kids) =>
      (match RebindAll(kids, ctx)
       case Err(e) => Err(e)
       case Ok(bound) =>
         if cls != Tag then Err(RebuildFailed)
         else Ok(MakeTag(name, BindAttrs(attrs, ctx)).(children := bound)))
    case Text(_) => Ok(x)
    case Style(_) => Ok(x)
    case Defer(f, _) => Ok(f(ctx))
  }

  /** The children bound one by one, in order; the first failure aborts. */
  function RebindAll<C>(kids: seq<Node<C>>, ctx: C): (r: Result<seq<Node<C>>, Error>)
    ensures r.Ok? <==> forall i :: 0 <= i < |kids| ==> Rebuildable(kids[i])
    ensures r.Err? ==> r.error == RebuildFailed
    ensures r.Ok? ==> (|r.value| == |kids|
                       && forall i :: 0 <= i < |kids| ==> Rebind(kids[i], ctx) == Ok(r.value[i]))
    decreases kids
  {
    if |kids| == 0 then Ok([])
    else
      match Rebind(kids[0], ctx)
      case Err(e) => Err(e)
      case Ok(head) =>
        match RebindAll(kids[1..], ctx)
        case Err(e) =>
          assert exists i :: 0 <= i < |kids[1..]| && !Rebuildable(kids[1..][i]);
          Err(e)
        case Ok(tail) =>
          assert forall i :: 1 <= i < |kids| ==> kids[i] == kids[1..][i - 1];
          Ok([head] + tail)
  }

  /** `bind(doc, context)`: calls the bind method of `doc` itself; text
      and style objects have none. */
  function Bind<C>(doc: Node<C>, ctx: C): (r: Result<Node<C>, Error>)
    ensures doc.Text? || doc.Style? ==> r == Err(NotBindable)
    ensures doc.Element? || doc.Defer? ==> r == Rebind(doc, ctx)
  {
    match doc
    case Element(_, _, _, _, _) => Rebind(doc, ctx)
    case Defer(_, _) => Rebind(doc, ctx)
    case _ => Err(NotBindable)
  }

  /** The rebuild that keeps the class and the self-closing flag: the
      same class, name and flag, every attribute value and child bound,
      and no failure for wrappers or documents. */
  function RebindPreserving<C>(x: Node<C>, ctx: C): (r: Node<C>)
    ensures x.Text? || x.Style? ==> r == x
    ensures x.Defer? ==> r == x.resolve(ctx)
    ensures x.Element? ==>
              && r.Element? && r.cls == x.cls && r.name == x.name && r.selfClosing == x.selfClosing
              && r.attrs == BindAttrs(x.attrs, ctx)
              && |r.children| == |x.children|
              && (forall i :: 0 <= i < |x.children| ==> r.children[i] == RebindPreserving(x.children[i], ctx))
    decreases x
  {
    match x
    case Element(_, _, _, attrs, kids) =>
      x.(attrs := BindAttrs(attrs, ctx), children := RebindPreservingAll(kids, ctx))
    case Defer(f, _) => f(ctx)
    case _ => x
  }

  function RebindPreservingAll<C>(kids: seq<Node<C>>, ctx: C): (r: seq<Node<C>>)
    ensures |r| == |kids|
    ensures forall i :: 0 <= i < |kids| ==> r[i] == RebindPreserving(kids[i], ctx)
    decreases kids
  {
    if |kids| == 0 then []
    else
      var r := [RebindPreserving(kids[0], ctx)] + RebindPreservingAll(kids[1..], ctx);
      assert forall i :: 1 <= i < |kids| ==> kids[i] == kids[1..][i - 1];
      r
  }
}
