/** `kemmering.html`: the `doc` node, and the catalog of HTML tag
    constructors, each a `tag` with its name fixed (a void element's name
    carries the trailing slash that makes it self-closing). The `style`
    node is the `Style` case of the tree, filled and laid out by
    `StyleSheets`. */
module Html {
  import opened Results
  import opened Strings
  import opened Kemmering
  import KemmeringLemmas
  import StyleSheets

  // ------------------------------------------------------------------- doc

  /** `doc(*children)`: built exactly like `notag(*children)`, only of
      class `doc`. */
  function MakeDoc<C>(args: seq<Arg<C>>): (r: Node<C>)
    ensures r.Element? && r.cls == Doc
    ensures MakeNoTag(args) == r.(cls := NoTag)
  {
    Element(Doc, None, false, [], WrapAll(args))
  }

  /** A document streams as the doctype line and a blank line, followed
      by exactly what a wrapper of the same children streams; it fails
      exactly when the wrapper does. */
  lemma SerializeDoc<C>(args: seq<Arg<C>>)
    ensures Serialize(MakeDoc(args)).Ok? <==> Serialize(MakeNoTag(args)).Ok?
    ensures Serialize(MakeNoTag(args)).Ok? ==>
              Serialize(MakeDoc(args)) == Ok(Doctype + Serialize(MakeNoTag(args)).value)
  {
    if forall i :: 0 <= i < |args| ==> Concrete(Wrap(args[i])) {
      KemmeringLemmas.SerializeWrapper(args);
      KemmeringLemmas.SerializeAllIsConcat(WrapAll(args));
      var body := Concat(KemmeringLemmas.Pieces(WrapAll(args)));
      assert "" + body + "" == body;
    }
  }

  /** A document holding an unbound placeholder cannot be streamed. */
  lemma SerializeDocDefer<C>(args: seq<Arg<C>>, i: nat)
    requires i < |args| && !Concrete(Wrap(args[i]))
    ensures Serialize(MakeDoc(args)) == Err(UnboundDefer)
  {
    assert !Concrete(MakeDoc(args).children[i]);
  }

  /** Binding a document always fails: the rebuild calls `doc(None)`,
      which appends `None` as a child. */
  lemma BindDocFails<C>(args: seq<Arg<C>>, ctx: C)
    ensures Bind(MakeDoc(args), ctx) == Err(RebuildFailed)
  {
  }

  // --------------------------------------------------------------- catalog

  /** One tag constructor of the module: the Python identifier and the
      name passed to `tag`. */
  datatype Entry = Entry(ident: string, arg: string)

  const TagsAToAside: seq<Entry> := [
    Entry("a", "a"), Entry("abbr", "abbr"), Entry("address", "address"),
    Entry("area", "area/"), Entry("article", "article"), Entry("aside", "aside")
  ]

  const TagsAudioToBlockquote: seq<Entry> := [
    Entry("audio", "audio"), Entry("b", "b"), Entry("base", "base/"),
    Entry("bdi", "bdi"), Entry("bdo", "bdo"), Entry("blockquote", "blockquote")
  ]

  const TagsBodyToCite: seq<Entry> := [
    Entry("body", "body"), Entry("br", "br/"), Entry("button", "button"),
    Entry("canvas", "canvas"), Entry("caption", "caption"), Entry("cite", "cite")
  ]

  const TagsCodeToDel: seq<Entry> := [
    Entry("code", "code"), Entry("col", "col/"), Entry("colgroup", "colgroup"),
    Entry("datalist", "datalist"), Entry("dd", "dd"), Entry("del_", "del")
  ]

  const TagsDetailsToEm: seq<Entry> := [
    Entry("details", "details"), Entry("dfn", "dfn"), Entry("div", "div"),
    Entry("dl", "dl"), Entry("dt", "dt"), Entry("em", "em")
  ]

  const TagsEmbedToForm: seq<Entry> := [
    Entry("embed", "embed/"), Entry("fieldset", "fieldset"), Entry("figcaption", "figcaption"),
    Entry("figure", "figure"), Entry("footer", "footer"), Entry("form", "form")
  ]

  const TagsH1ToH6: seq<Entry> := [
    Entry("h1", "h1"), Entry("h2", "h2"), Entry("h3", "h3"),
    Entry("h4", "h4"), Entry("h5", "h5"), Entry("h6", "h6")
  ]

  const TagsHeadToI: seq<Entry> := [
    Entry("head", "head"), Entry("header", "header"), Entry("hgroup", "hgroup"),
    Entry("hr", "hr/"), Entry("html", "html"), Entry("i", "i")
  ]

  const TagsIframeToKeygen: seq<Entry> := [
    Entry("iframe", "iframe"), Entry("img", "img/"), Entry("input", "input/"),
    Entry("ins", "ins"), Entry("kbd", "kbd"), Entry("keygen", "keygen")
  ]

  const TagsLabelToMark: seq<Entry> := [
    Entry("label", "label"), Entry("legend", "legend"), Entry("li", "li"),
    Entry("link", "link/"), Entry("map", "map"), Entry("mark", "mark")
  ]

  const TagsMenuToObject: seq<Entry> := [
    Entry("menu", "menu"), Entry("meta", "meta/"), Entry("meter", "meter"),
    Entry("nav", "nav"), Entry("noscript", "noscript"), Entry("object", "object")
  ]

  const TagsOlToParam: seq<Entry> := [
    Entry("ol", "ol"), Entry("optgroup", "optgroup"), Entry("option", "option"),
    Entry("output", "output"), Entry("p", "p"), Entry("param", "param/")
  ]

  const TagsPreToRuby: seq<Entry> := [
    Entry("pre", "pre"), Entry("progress", "progress"), Entry("q", "q"),
    Entry("rp", "rp"), Entry("rt", "rt"), Entry("ruby", "ruby")
  ]

  const TagsSToSmall: seq<Entry> := [
    Entry("s", "s"), Entry("samp", "samp"), Entry("script", "script"),
    Entry("section", "section"), Entry("select", "select"), Entry("small", "small")
  ]

  const TagsSourceToSup: seq<Entry> := [
    Entry("source", "source/"), Entry("span", "span"), Entry("strong", "strong"),
    Entry("sub", "sub"), Entry("summary", "summary"), Entry("sup", "sup")
  ]

  const TagsTableToTh: seq<Entry> := [
    Entry("table", "table"), Entry("tbody", "tbody"), Entry("td", "td"),
    Entry("textarea", "textarea"), Entry("tfoot", "tfoot"), Entry("th", "th")
  ]

  const TagsTheadToU: seq<Entry> := [
    Entry("thead", "thead"), Entry("time", "time"), Entry("title", "title"),
    Entry("tr", "tr"), Entry("track", "track/"), Entry("u", "u")
  ]

  const TagsUlToWbr: seq<Entry> := [
    Entry("ul", "ul"), Entry("var", "var"), Entry("video", "video"),
    Entry("wbr", "wbr")
  ]

  /** Every tag constructor, in the order the module defines them. */
  const Catalog: seq<Entry> :=
    TagsAToAside + TagsAudioToBlockquote + TagsBodyToCite + TagsCodeToDel + TagsDetailsToEm +
    TagsEmbedToForm + TagsH1ToH6 + TagsHeadToI + TagsIframeToKeygen + TagsLabelToMark +
    TagsMenuToObject + TagsOlToParam + TagsPreToRuby + TagsSToSmall + TagsSourceToSup +
    TagsTableToTh + TagsTheadToU + TagsUlToWbr

  /** The void elements: the identifiers whose name is declared with a
      trailing slash. `wbr` is not among them. */
  const VoidNames: set<string> :=
    {"area", "base", "br", "col", "embed", "hr", "img", "input", "link", "meta", "param", "source", "track"}

  /** The element name for an identifier: the identifier without its
      trailing underscores (`del_` names `del`, which is a Python keyword). */
  function TagName(ident: string): string {
    RStripUnderscores(ident)
  }

  /** An entry follows the naming convention: its name is the identifier's
      tag name, non-empty, followed by a slash exactly for void elements. */
  predicate Declared(e: Entry) {
    var n := TagName(e.ident);
    n != "" && !EndsWithSlash(n) && e.arg == n + (if e.ident in VoidNames then "/" else "")
  }

  predicate AllDeclared(entries: seq<Entry>) {
    forall i :: 0 <= i < |entries| ==> Declared(entries[i])
  }

  lemma AllDeclaredAppend(a: seq<Entry>, b: seq<Entry>)
    requires AllDeclared(a) && AllDeclared(b)
    ensures AllDeclared(a + b)
  {
    assert forall i :: |a| <= i < |a + b| ==> (a + b)[i] == b[i - |a|];
  }

  /** An entry whose argument is its identifier, for a non-void element. */
  lemma PlainDeclared(ident: string)
    requires ident != "" && ident[|ident| - 1] != '_' && ident[|ident| - 1] != '/'
    requires ident !in VoidNames
    ensures Declared(Entry(ident, ident))
  {
    assert ident + "" == ident;
  }

  /** An entry whose argument is its identifier and a slash, for a void
      element. */
  lemma VoidDeclared(ident: string)
    requires ident != "" && ident[|ident| - 1] != '_' && ident[|ident| - 1] != '/'
    requires ident in VoidNames
    ensures Declared(Entry(ident, ident + "/"))
  {
  }

  lemma TagsAToAsideDeclared()
    ensures AllDeclared(TagsAToAside)
  {
    var d := TagsAToAside;
    forall i | 0 <= i < |d|
      ensures Declared(d[i])
    {
      if i == 0 { PlainDeclared("a"); assert d[i] == Entry("a", "a"); }
      else if i == 1 { PlainDeclared("abbr"); assert d[i] == Entry("abbr", "abbr"); }
      else if i == 2 { PlainDeclared("address"); assert d[i] == Entry("address", "address"); }
      else if i == 3 { VoidDeclared("area"); assert "area/" == "area" + "/"; assert d[i] == Entry("area", "area/"); }
      else if i == 4 { PlainDeclared("article"); assert d[i] == Entry("article", "article"); }
      else { PlainDeclared("aside"); assert d[i] == Entry("aside", "aside"); }
    }
  }

  lemma TagsAudioToBlockquoteDeclared()
    ensures AllDeclared(TagsAudioToBlockquote)
  {
    var d := TagsAudioToBlockquote;
    forall i | 0 <= i < |d|
      ensures Declared(d[i])
    {
      if i == 0 { PlainDeclared("audio"); assert d[i] == Entry("audio", "audio"); }
      else if i == 1 { PlainDeclared("b"); assert d[i] == Entry("b", "b"); }
      else if i == 2 { VoidDeclared("base"); assert "base/" == "base" + "/"; assert d[i] == Entry("base", "base/"); }
      else if i == 3 { PlainDeclared("bdi"); assert d[i] == Entry("bdi", "bdi"); }
      else if i == 4 { PlainDeclared("bdo"); assert d[i] == Entry("bdo", "bdo"); }
      else { PlainDeclared("blockquote"); assert d[i] == Entry("blockquote", "blockquote"); }
    }
  }

  lemma TagsBodyToCiteDeclared()
    ensures AllDeclared(TagsBodyToCite)
  {
    var d := TagsBodyToCite;
    forall i | 0 <= i < |d|
      ensures Declared(d[i])
    {
      if i == 0 { PlainDeclared("body"); assert d[i] == Entry("body", "body"); }
      else if i == 1 { VoidDeclared("br"); assert "br/" == "br" + "/"; assert d[i] == Entry("br", "br/"); }
      else if i == 2 { PlainDeclared("button"); assert d[i] == Entry("button", "button"); }
      else if i == 3 { PlainDeclared("canvas"); assert d[i] == Entry("canvas", "canvas"); }
      else if i == 4 { PlainDeclared("caption"); assert d[i] == Entry("caption", "caption"); }
      else { PlainDeclared("cite"); assert d[i] == Entry("cite", "cite"); }
    }
  }

  lemma TagsCodeToDelDeclared()
    ensures AllDeclared(TagsCodeToDel)
  {
    var d := TagsCodeToDel;
    forall i | 0 <= i < |d|
      ensures Declared(d[i])
    {
      if i == 0 { PlainDeclared("code"); assert d[i] == Entry("code", "code"); }
      else if i == 1 { VoidDeclared("col"); assert "col/" == "col" + "/"; assert d[i] == Entry("col", "col/"); }
      else if i == 2 { PlainDeclared("colgroup"); assert d[i] == Entry("colgroup", "colgroup"); }
      else if i == 3 { PlainDeclared("datalist"); assert d[i] == Entry("datalist", "datalist"); }
      else if i == 4 { PlainDeclared("dd"); assert d[i] == Entry("dd", "dd"); }
      else { assert d[i] == Entry("del_", "del"); }
    }
  }

  lemma TagsDetailsToEmDeclared()
    ensures AllDeclared(TagsDetailsToEm)
  {
    var d := TagsDetailsToEm;
    forall i | 0 <= i < |d|
      ensures Declared(d[i])
    {
      if i == 0 { PlainDeclared("details"); assert d[i] == Entry("details", "details"); }
      else if i == 1 { PlainDeclared("dfn"); assert d[i] == Entry("dfn", "dfn"); }
      else if i == 2 { PlainDeclared("div"); assert d[i] == Entry("div", "div"); }
      else if i == 3 { PlainDeclared("dl"); assert d[i] == Entry("dl", "dl"); }
      else if i == 4 { PlainDeclared("dt"); assert d[i] == Entry("dt", "dt"); }
      else { PlainDeclared("em"); assert d[i] == Entry("em", "em"); }
    }
  }

  lemma TagsEmbedToFormDeclared()
    ensures AllDeclared(TagsEmbedToForm)
  {
    var d := TagsEmbedToForm;
    forall i | 0 <= i < |d|
      ensures Declared(d[i])
    {
      if i == 0 { VoidDeclared("embed"); assert "embed/" == "embed" + "/"; assert d[i] == Entry("embed", "embed/"); }
      else if i == 1 { PlainDeclared("fieldset"); assert d[i] == Entry("fieldset", "fieldset"); }
      else if i == 2 { PlainDeclared("figcaption"); assert d[i] == Entry("figcaption", "figcaption"); }
      else if i == 3 { PlainDeclared("figure"); assert d[i] == Entry("figure", "figure"); }
      else if i == 4 { PlainDeclared("footer"); assert d[i] == Entry("footer", "footer"); }
      else { PlainDeclared("form"); assert d[i] == Entry("form", "form"); }
    }
  }

  lemma TagsH1ToH6Declared()
    ensures AllDeclared(TagsH1ToH6)
  {
    var d := TagsH1ToH6;
    forall i | 0 <= i < |d|
      ensures Declared(d[i])
    {
      if i == 0 { PlainDeclared("h1"); assert d[i] == Entry("h1", "h1"); }
      else if i == 1 { PlainDeclared("h2"); assert d[i] == Entry("h2", "h2"); }
      else if i == 2 { PlainDeclared("h3"); assert d[i] == Entry("h3", "h3"); }
      else if i == 3 { PlainDeclared("h4"); assert d[i] == Entry("h4", "h4"); }
      else if i == 4 { PlainDeclared("h5"); assert d[i] == Entry("h5", "h5"); }
      else { PlainDeclared("h6"); assert d[i] == Entry("h6", "h6"); }
    }
  }

  lemma TagsHeadToIDeclared()
    ensures AllDeclared(TagsHeadToI)
  {
    var d := TagsHeadToI;
    forall i | 0 <= i < |d|
      ensures Declared(d[i])
    {
      if i == 0 { PlainDeclared("head"); assert d[i] == Entry("head", "head"); }
      else if i == 1 { PlainDeclared("header"); assert d[i] == Entry("header", "header"); }
      else if i == 2 { PlainDeclared("hgroup"); assert d[i] == Entry("hgroup", "hgroup"); }
      else if i == 3 { VoidDeclared("hr"); assert "hr/" == "hr" + "/"; assert d[i] == Entry("hr", "hr/"); }
      else if i == 4 { PlainDeclared("html"); assert d[i] == Entry("html", "html"); }
      else { PlainDeclared("i"); assert d[i] == Entry("i", "i"); }
    }
  }

  lemma TagsIframeToKeygenDeclared()
    ensures AllDeclared(TagsIframeToKeygen)
  {
    var d := TagsIframeToKeygen;
    forall i | 0 <= i < |d|
      ensures Declared(d[i])
    {
      if i == 0 { PlainDeclared("iframe"); assert d[i] == Entry("iframe", "iframe"); }
      else if i == 1 { VoidDeclared("img"); assert "img/" == "img" + "/"; assert d[i] == Entry("img", "img/"); }
      else if i == 2 { VoidDeclared("input"); assert "input/" == "input" + "/"; assert d[i] == Entry("input", "input/"); }
      else if i == 3 { PlainDeclared("ins"); assert d[i] == Entry("ins", "ins"); }
      else if i == 4 { PlainDeclared("kbd"); assert d[i] == Entry("kbd", "kbd"); }
      else { PlainDeclared("keygen"); assert d[i] == Entry("keygen", "keygen"); }
    }
  }

  lemma TagsLabelToMarkDeclared()
    ensures AllDeclared(TagsLabelToMark)
  {
    var d := TagsLabelToMark;
    forall i | 0 <= i < |d|
      ensures Declared(d[i])
    {
      if i == 0 { PlainDeclared("label"); assert d[i] == Entry("label", "label"); }
      else if i == 1 { PlainDeclared("legend"); assert d[i] == Entry("legend", "legend"); }
      else if i == 2 { PlainDeclared("li"); assert d[i] == Entry("li", "li"); }
      else if i == 3 { VoidDeclared("link"); assert "link/" == "link" + "/"; assert d[i] == Entry("link", "link/"); }
      else if i == 4 { PlainDeclared("map"); assert d[i] == Entry("map", "map"); }
      else { PlainDeclared("mark"); assert d[i] == Entry("mark", "mark"); }
    }
  }

  lemma TagsMenuToObjectDeclared()
    ensures AllDeclared(TagsMenuToObject)
  {
    var d := TagsMenuToObject;
    forall i | 0 <= i < |d|
      ensures Declared(d[i])
    {
      if i == 0 { PlainDeclared("menu"); assert d[i] == Entry("menu", "menu"); }
      else if i == 1 { VoidDeclared("meta"); assert "meta/" == "meta" + "/"; assert d[i] == Entry("meta", "meta/"); }
      else if i == 2 { PlainDeclared("meter"); assert d[i] == Entry("meter", "meter"); }
      else if i == 3 { PlainDeclared("nav"); assert d[i] == Entry("nav", "nav"); }
      else if i == 4 { PlainDeclared("noscript"); assert d[i] == Entry("noscript", "noscript"); }
      else { PlainDeclared("object"); assert d[i] == Entry("object", "object"); }
    }
  }

  lemma TagsOlToParamDeclared()
    ensures AllDeclared(TagsOlToParam)
  {
    var d := TagsOlToParam;
    forall i | 0 <= i < |d|
      ensures Declared(d[i])
    {
      if i == 0 { PlainDeclared("ol"); assert d[i] == Entry("ol", "ol"); }
      else if i == 1 { PlainDeclared("optgroup"); assert d[i] == Entry("optgroup", "optgroup"); }
      else if i == 2 { PlainDeclared("option"); assert d[i] == Entry("option", "option"); }
      else if i == 3 { PlainDeclared("output"); assert d[i] == Entry("output", "output"); }
      else if i == 4 { PlainDeclared("p"); assert d[i] == Entry("p", "p"); }
      else { VoidDeclared("param"); assert "param/" == "param" + "/"; assert d[i] == Entry("param", "param/"); }
    }
  }

  lemma TagsPreToRubyDeclared()
    ensures AllDeclared(TagsPreToRuby)
  {
    var d := TagsPreToRuby;
    forall i | 0 <= i < |d|
      ensures Declared(d[i])
    {
      if i == 0 { PlainDeclared("pre"); assert d[i] == Entry("pre", "pre"); }
      else if i == 1 { PlainDeclared("progress"); assert d[i] == Entry("progress", "progress"); }
      else if i == 2 { PlainDeclared("q"); assert d[i] == Entry("q", "q"); }
      else if i == 3 { PlainDeclared("rp"); assert d[i] == Entry("rp", "rp"); }
      else if i == 4 { PlainDeclared("rt"); assert d[i] == Entry("rt", "rt"); }
      else { PlainDeclared("ruby"); assert d[i] == Entry("ruby", "ruby"); }
    }
  }

  lemma TagsSToSmallDeclared()
    ensures AllDeclared(TagsSToSmall)
  {
    var d := TagsSToSmall;
    forall i | 0 <= i < |d|
      ensures Declared(d[i])
    {
      if i == 0 { PlainDeclared("s"); assert d[i] == Entry("s", "s"); }
      else if i == 1 { PlainDeclared("samp"); assert d[i] == Entry("samp", "samp"); }
      else if i == 2 { PlainDeclared("script"); assert d[i] == Entry("script", "script"); }
      else if i == 3 { PlainDeclared("section"); assert d[i] == Entry("section", "section"); }
      else if i == 4 { PlainDeclared("select"); assert d[i] == Entry("select", "select"); }
      else { PlainDeclared("small"); assert d[i] == Entry("small", "small"); }
    }
  }

  lemma TagsSourceToSupDeclared()
    ensures AllDeclared(TagsSourceToSup)
  {
    var d := TagsSourceToSup;
    forall i | 0 <= i < |d|
      ensures Declared(d[i])
    {
      if i == 0 { VoidDeclared("source"); assert "source/" == "source" + "/"; assert d[i] == Entry("source", "source/"); }
      else if i == 1 { PlainDeclared("span"); assert d[i] == Entry("span", "span"); }
      else if i == 2 { PlainDeclared("strong"); assert d[i] == Entry("strong", "strong"); }
      else if i == 3 { PlainDeclared("sub"); assert d[i] == Entry("sub", "sub"); }
      else if i == 4 { PlainDeclared("summary"); assert d[i] == Entry("summary", "summary"); }
      else { PlainDeclared("sup"); assert d[i] == Entry("sup", "sup"); }
    }
  }

  lemma TagsTableToThDeclared()
    ensures AllDeclared(TagsTableToTh)
  {
    var d := TagsTableToTh;
    forall i | 0 <= i < |d|
      ensures Declared(d[i])
    {
      if i == 0 { PlainDeclared("table"); assert d[i] == Entry("table", "table"); }
      else if i == 1 { PlainDeclared("tbody"); assert d[i] == Entry("tbody", "tbody"); }
      else if i == 2 { PlainDeclared("td"); assert d[i] == Entry("td", "td"); }
      else if i == 3 { PlainDeclared("textarea"); assert d[i] == Entry("textarea", "textarea"); }
      else if i == 4 { PlainDeclared("tfoot"); assert d[i] == Entry("tfoot", "tfoot"); }
      else { PlainDeclared("th"); assert d[i] == Entry("th", "th"); }
    }
  }

  lemma TagsTheadToUDeclared()
    ensures AllDeclared(TagsTheadToU)
  {
    var d := TagsTheadToU;
    forall i | 0 <= i < |d|
      ensures Declared(d[i])
    {
      if i == 0 { PlainDeclared("thead"); assert d[i] == Entry("thead", "thead"); }
      else if i == 1 { PlainDeclared("time"); assert d[i] == Entry("time", "time"); }
      else if i == 2 { PlainDeclared("title"); assert d[i] == Entry("title", "title"); }
      else if i == 3 { PlainDeclared("tr"); assert d[i] == Entry("tr", "tr"); }
      else if i == 4 { VoidDeclared("track"); assert "track/" == "track" + "/"; assert d[i] == Entry("track", "track/"); }
      else { PlainDeclared("u"); assert d[i] == Entry("u", "u"); }
    }
  }

  lemma TagsUlToWbrDeclared()
    ensures AllDeclared(TagsUlToWbr)
  {
    var d := TagsUlToWbr;
    forall i | 0 <= i < |d|
      ensures Declared(d[i])
    {
      if i == 0 { PlainDeclared("ul"); assert d[i] == Entry("ul", "ul"); }
      else if i == 1 { PlainDeclared("var"); assert d[i] == Entry("var", "var"); }
      else if i == 2 { PlainDeclared("video"); assert d[i] == Entry("video", "video"); }
      else { PlainDeclared("wbr"); assert d[i] == Entry("wbr", "wbr"); }
    }
  }

  /** Every entry of the catalog follows the naming convention. */
  lemma CatalogDeclared()
    ensures forall i :: 0 <= i < |Catalog| ==> Declared(Catalog[i])
  {
    var done := TagsAToAside;
    TagsAToAsideDeclared();
    TagsAudioToBlockquoteDeclared();
    AllDeclaredAppend(done, TagsAudioToBlockquote);
    done := done + TagsAudioToBlockquote;
    TagsBodyToCiteDeclared();
    AllDeclaredAppend(done, TagsBodyToCite);
    done := done + TagsBodyToCite;
    TagsCodeToDelDeclared();
    AllDeclaredAppend(done, TagsCodeToDel);
    done := done + TagsCodeToDel;
    TagsDetailsToEmDeclared();
    AllDeclaredAppend(done, TagsDetailsToEm);
    done := done + TagsDetailsToEm;
    TagsEmbedToFormDeclared();
    AllDeclaredAppend(done, TagsEmbedToForm);
    done := done + TagsEmbedToForm;
    TagsH1ToH6Declared();
    AllDeclaredAppend(done, TagsH1ToH6);
    done := done + TagsH1ToH6;
    TagsHeadToIDeclared();
    AllDeclaredAppend(done, TagsHeadToI);
    done := done + TagsHeadToI;
    TagsIframeToKeygenDeclared();
    AllDeclaredAppend(done, TagsIframeToKeygen);
    done := done + TagsIframeToKeygen;
    TagsLabelToMarkDeclared();
    AllDeclaredAppend(done, TagsLabelToMark);
    done := done + TagsLabelToMark;
    TagsMenuToObjectDeclared();
    AllDeclaredAppend(done, TagsMenuToObject);
    done := done + TagsMenuToObject;
    TagsOlToParamDeclared();
    AllDeclaredAppend(done, TagsOlToParam);
    done := done + TagsOlToParam;
    TagsPreToRubyDeclared();
    AllDeclaredAppend(done, TagsPreToRuby);
    done := done + TagsPreToRuby;
    TagsSToSmallDeclared();
    AllDeclaredAppend(done, TagsSToSmall);
    done := done + TagsSToSmall;
    TagsSourceToSupDeclared();
    AllDeclaredAppend(done, TagsSourceToSup);
    done := done + TagsSourceToSup;
    TagsTableToThDeclared();
    AllDeclaredAppend(done, TagsTableToTh);
    done := done + TagsTableToTh;
    TagsTheadToUDeclared();
    AllDeclaredAppend(done, TagsTheadToU);
    done := done + TagsTheadToU;
    TagsUlToWbrDeclared();
    AllDeclaredAppend(done, TagsUlToWbr);
    done := done + TagsUlToWbr;
    assert done == Catalog;
  }

  /** The position of the first entry for `ident`, if any. */
  function Find(ident: string, entries: seq<Entry>): (r: Option<nat>)
    ensures r.Some? ==> r.value < |entries| && entries[r.value].ident == ident
    ensures r.None? <==> forall i :: 0 <= i < |entries| ==> entries[i].ident != ident
  {
    if |entries| == 0 then None
    else if entries[0].ident == ident then Some(0)
    else match Find(ident, entries[1..])
      case None => None
      case Some(k) => Some(k + 1)
  }

  /** `html.<ident>(**attrs)`: the catalogued constructor called with the
      attributes; an identifier the module does not define has no
      constructor. */
  function Make<C>(ident: string, attrs: Attrs<C>): (r: Option<Node<C>>)
    ensures r.None? <==> forall i :: 0 <= i < |Catalog| ==> Catalog[i].ident != ident
    ensures r.Some? ==> exists i :: 0 <= i < |Catalog| && Catalog[i].ident == ident
                                    && r.value == MakeTag(Some(Catalog[i].arg), attrs)
  {
    match Find(ident, Catalog)
    case None => None
    case Some(i) => Some(MakeTag(Some(Catalog[i].arg), attrs))
  }

  /** A conventionally declared entry builds a plain tag named after its
      identifier, self-closing exactly for void elements. */
  lemma MakeDeclared<C>(e: Entry, attrs: Attrs<C>)
    requires Declared(e)
    ensures MakeTag(Some(e.arg), attrs) == Element(Tag, Some(TagName(e.ident)), e.ident in VoidNames, attrs, [])
  {
    var n := TagName(e.ident);
    if e.ident in VoidNames {
      KemmeringLemmas.MakeTagSlashed<C>(n, attrs);
    } else {
      assert e.arg == n + "" == n;
    }
  }

  /** A catalogued constructor builds a plain tag named after the
      identifier, self-closing exactly for void elements, with the given
      attributes and no children. */
  lemma MakeNamed<C>(ident: string, attrs: Attrs<C>)
    requires exists i :: 0 <= i < |Catalog| && Catalog[i].ident == ident
    ensures Make(ident, attrs) == Some(Element(Tag, Some(TagName(ident)), ident in VoidNames, attrs, []))
  {
    CatalogDeclared();
    var i := Find(ident, Catalog).value;
    MakeDeclared(Catalog[i], attrs);
  }

  /** A void element without children streams as `<name attrs/>`; any
      other catalogued element, and a void one that was given children,
      streams its opening tag, its children's text and its closing tag. */
  lemma SerializeCatalogued<C>(ident: string, attrs: Attrs<C>, args: seq<Arg<C>>)
    requires exists i :: 0 <= i < |Catalog| && Catalog[i].ident == ident
    requires forall i :: 0 <= i < |args| ==> Concrete(Wrap(args[i]))
    ensures ident in VoidNames && |args| == 0 ==>
              Serialize(Make(ident, attrs).value) == Ok("<" + TagName(ident) + AttrsText(attrs) + "/>")
    ensures !(ident in VoidNames && |args| == 0) ==>
              Serialize(Call(Make(ident, attrs).value, args).value)
              == Ok("<" + TagName(ident) + AttrsText(attrs) + ">"
                    + Concat(KemmeringLemmas.Pieces(WrapAll(args))) + ("</" + TagName(ident) + ">"))
  {
    MakeNamed(ident, attrs);
    CataloguedName(ident);
    var name := TagName(ident);
    if ident in VoidNames && |args| == 0 {
      KemmeringLemmas.SerializeEmptyTag(name, attrs);
    } else {
      var n := Element(Tag, Some(name), ident in VoidNames, attrs, WrapAll(args));
      assert Call(Make(ident, attrs).value, args).value == n;
      KemmeringLemmas.SerializeNamed(n);
    }
  }

  /** A catalogued identifier names a non-empty tag. */
  lemma CataloguedName(ident: string)
    requires exists i :: 0 <= i < |Catalog| && Catalog[i].ident == ident
    ensures TagName(ident) != ""
  {
    CatalogDeclared();
    var i :| 0 <= i < |Catalog| && Catalog[i].ident == ident;
    assert Declared(Catalog[i]);
  }

  /** The entries the examples below use. */
  lemma ExampleEntries()
    ensures Entry("a", "a") in Catalog && Entry("area", "area/") in Catalog
    ensures Entry("del_", "del") in Catalog && Entry("wbr", "wbr") in Catalog
    ensures Entry("html", "html") in Catalog && Entry("head", "head") in Catalog
    ensures Entry("title", "title") in Catalog
  {
    assert Entry("a", "a") in TagsAToAside && Entry("area", "area/") in TagsAToAside;
    assert Entry("del_", "del") in TagsCodeToDel && Entry("wbr", "wbr") in TagsUlToWbr;
    assert Entry("html", "html") in TagsHeadToI && Entry("head", "head") in TagsHeadToI;
    assert Entry("title", "title") in TagsTheadToU;
  }

  /** The tag names of those entries, and which of them are void. */
  lemma ExampleNames()
    ensures TagName("a") == "a" && "a" !in VoidNames
    ensures TagName("area") == "area" && "area" in VoidNames
    ensures TagName("del_") == "del" && "del_" !in VoidNames
    ensures TagName("wbr") == "wbr" && "wbr" !in VoidNames
    ensures TagName("html") == "html" && "html" !in VoidNames
    ensures TagName("head") == "head" && "head" !in VoidNames
    ensures TagName("title") == "title" && "title" !in VoidNames
  {
  }

  /** `wbr(**attrs)`. */
  lemma MadeWbr<C>(attrs: Attrs<C>)
    ensures Make<C>("wbr", attrs) == Some(Element(Tag, Some("wbr"), false, attrs, []))
  {
    ExampleEntries();
    ExampleNames();
    MakeNamed<C>("wbr", attrs);
  }

  /** `del_(**attrs)`. */
  lemma MadeDel<C>(attrs: Attrs<C>)
    ensures Make<C>("del_", attrs) == Some(Element(Tag, Some("del"), false, attrs, []))
  {
    ExampleEntries();
    ExampleNames();
    MakeNamed<C>("del_", attrs);
  }

  /** `area(**attrs)`. */
  lemma MadeArea<C>(attrs: Attrs<C>)
    ensures Make<C>("area", attrs) == Some(Element(Tag, Some("area"), true, attrs, []))
  {
    ExampleEntries();
    ExampleNames();
    MakeNamed<C>("area", attrs);
  }

  /** `a(**attrs)`. */
  lemma MadeA<C>(attrs: Attrs<C>)
    ensures Make<C>("a", attrs) == Some(Element(Tag, Some("a"), false, attrs, []))
  {
    ExampleEntries();
    ExampleNames();
    MakeNamed<C>("a", attrs);
  }

  /** `html(**attrs)`. */
  lemma MadeHtml<C>(attrs: Attrs<C>)
    ensures Make<C>("html", attrs) == Some(Element(Tag, Some("html"), false, attrs, []))
  {
    ExampleEntries();
    ExampleNames();
    MakeNamed<C>("html", attrs);
  }

  /** `head(**attrs)`. */
  lemma MadeHead<C>(attrs: Attrs<C>)
    ensures Make<C>("head", attrs) == Some(Element(Tag, Some("head"), false, attrs, []))
  {
    ExampleEntries();
    ExampleNames();
    MakeNamed<C>("head", attrs);
  }

  /** `title(**attrs)`. */
  lemma MadeTitle<C>(attrs: Attrs<C>)
    ensures Make<C>("title", attrs) == Some(Element(Tag, Some("title"), false, attrs, []))
  {
    ExampleEntries();
    ExampleNames();
    MakeNamed<C>("title", attrs);
  }


  /** `wbr()('foo')` streams as `<wbr>foo</wbr>`. */
  lemma SerializeWbr<C>()
    ensures Serialize<C>(Call(Element(Tag, Some("wbr"), false, [], []), [Chars("foo")]).value) == Ok("<wbr>foo</wbr>")
  {
    KemmeringLemmas.SerializeTextCall<C>("wbr", [], "foo");
    assert AttrsText<C>([]) == "";
    SerializeWbrText();
  }

  lemma SerializeWbrText()
    ensures "<" + "wbr" + "" + ">" + "foo" + ("</" + "wbr" + ">") == "<wbr>foo</wbr>"
  {
  }

  /** `str(wbr()('foo'))`: `wbr` is not a void element here. */
  lemma WbrExample<C>()
    ensures Make<C>("wbr", []) == Some(Element(Tag, Some("wbr"), false, [], []))
    ensures Serialize<C>(Call(Element(Tag, Some("wbr"), false, [], []), [Chars("foo")]).value) == Ok("<wbr>foo</wbr>")
  {
    MadeWbr<C>([]);
    SerializeWbr<C>();
  }

  /** `del_()('foo')` streams as `<del>foo</del>`. */
  lemma SerializeDel<C>()
    ensures Serialize<C>(Call(Element(Tag, Some("del"), false, [], []), [Chars("foo")]).value) == Ok("<del>foo</del>")
  {
    KemmeringLemmas.SerializeTextCall<C>("del", [], "foo");
    assert AttrsText<C>([]) == "";
    SerializeDelText();
  }

  lemma SerializeDelText()
    ensures "<" + "del" + "" + ">" + "foo" + ("</" + "del" + ">") == "<del>foo</del>"
  {
  }

  /** `str(del_()('foo'))`: the identifier `del_` names the element `del`. */
  lemma DelExample<C>()
    ensures Make<C>("del_", []) == Some(Element(Tag, Some("del"), false, [], []))
    ensures Serialize<C>(Call(Element(Tag, Some("del"), false, [], []), [Chars("foo")]).value) == Ok("<del>foo</del>")
  {
    MadeDel<C>([]);
    SerializeDel<C>();
  }

  /** The attribute text ` shape="circle"`. */
  lemma ShapeAttribute<C>()
    ensures AttrsText<C>([("shape", Str("circle"))]) == " shape=\"circle\""
  {
    KemmeringLemmas.AttrPairsOne<C>("shape", Str("circle"));
    Attributes.RenderOne("shape", "circle");
    assert RStripUnderscores("shape") == "shape";
    ShapeAttributeText();
  }

  lemma ShapeAttributeText()
    ensures " " + "shape" + "=\"" + "circle" + "\"" == " shape=\"circle\""
  {
  }

  /** `area(shape='circle')` streams as one self-closing tag. */
  lemma SerializeArea<C>()
    ensures Serialize<C>(Element(Tag, Some("area"), true, [("shape", Str("circle"))], [])) == Ok("<area shape=\"circle\"/>")
  {
    ShapeAttribute<C>();
    KemmeringLemmas.SerializeEmptyTag<C>("area", [("shape", Str("circle"))]);
    SerializeAreaText();
  }

  lemma SerializeAreaText()
    ensures "<" + "area" + " shape=\"circle\"" + "/>" == "<area shape=\"circle\"/>"
  {
  }

  /** `str(area(shape='circle'))`: a void element. */
  lemma AreaExample<C>()
    ensures Make<C>("area", [("shape", Str("circle"))]) == Some(Element(Tag, Some("area"), true, [("shape", Str("circle"))], []))
    ensures Serialize<C>(Element(Tag, Some("area"), true, [("shape", Str("circle"))], [])) == Ok("<area shape=\"circle\"/>")
  {
    MadeArea<C>([("shape", Str("circle"))]);
    SerializeArea<C>();
  }

  /** The attribute text ` href="foo/bar"`. */
  lemma HrefAttribute<C>()
    ensures AttrsText<C>([("href", Str("foo/bar"))]) == " href=\"foo/bar\""
  {
    KemmeringLemmas.AttrPairsOne<C>("href", Str("foo/bar"));
    Attributes.RenderOne("href", "foo/bar");
    assert RStripUnderscores("href") == "href";
    HrefAttributeText();
  }

  lemma HrefAttributeText()
    ensures " " + "href" + "=\"" + "foo/bar" + "\"" == " href=\"foo/bar\""
  {
  }

  /** `a(href='foo/bar')('Howdy!')` streams its attribute and its text. */
  lemma SerializeAnchor<C>()
    ensures Serialize<C>(Call(Element(Tag, Some("a"), false, [("href", Str("foo/bar"))], []), [Chars("Howdy!")]).value)
         == Ok("<a href=\"foo/bar\">Howdy!</a>")
  {
    KemmeringLemmas.SerializeTextCall<C>("a", [("href", Str("foo/bar"))], "Howdy!");
    HrefAttribute<C>();
    SerializeAnchorText();
  }

  lemma SerializeAnchorText()
    ensures "<" + "a" + " href=\"foo/bar\"" + ">" + "Howdy!" + ("</" + "a" + ">") == "<a href=\"foo/bar\">Howdy!</a>"
  {
  }

  /** `str(a(href='foo/bar')('Howdy!'))`. */
  lemma AnchorExample<C>()
    ensures Make<C>("a", [("href", Str("foo/bar"))]) == Some(Element(Tag, Some("a"), false, [("href", Str("foo/bar"))], []))
    ensures Serialize<C>(Call(Element(Tag, Some("a"), false, [("href", Str("foo/bar"))], []), [Chars("Howdy!")]).value)
         == Ok("<a href=\"foo/bar\">Howdy!</a>")
  {
    MadeA<C>([("href", Str("foo/bar"))]);
    SerializeAnchor<C>();
  }

  /** `title()('foo')`. */
  lemma SerializeTitle<C>()
    ensures Serialize<C>(Element(Tag, Some("title"), false, [], [Text("foo")])) == Ok("<title>foo</title>")
  {
    assert AttrsText<C>([]) == "";
    KemmeringLemmas.SerializeOneChild<C>("title", [], Text("foo"), "foo");
    SerializeTitleText();
  }

  lemma SerializeTitleText()
    ensures "<" + "title" + "" + ">" + "foo" + ("</" + "title" + ">") == "<title>foo</title>"
  {
  }

  /** `head()(title()('foo'))`. */
  lemma SerializeHead<C>()
    ensures Serialize<C>(Element(Tag, Some("head"), false, [], [Element(Tag, Some("title"), false, [], [Text("foo")])]))
         == Ok("<head><title>foo</title></head>")
  {
    assert AttrsText<C>([]) == "";
    SerializeTitle<C>();
    KemmeringLemmas.SerializeOneChild<C>("head", [], Element(Tag, Some("title"), false, [], [Text("foo")]), "<title>foo</title>");
    SerializeHeadText();
  }

  lemma SerializeHeadText()
    ensures "<" + "head" + "" + ">" + "<title>foo</title>" + ("</" + "head" + ">") == "<head><title>foo</title></head>"
  {
  }

  /** `html()(head()(title()('foo')))`. */
  lemma SerializeHtmlTree<C>()
    ensures Serialize<C>(Element(Tag, Some("html"), false, [], [
              Element(Tag, Some("head"), false, [], [
                Element(Tag, Some("title"), false, [], [Text("foo")])])]))
         == Ok("<html>" + "<head><title>foo</title></head>" + "</html>")
  {
    var head: Node<C> := Element(Tag, Some("head"), false, [], [Element(Tag, Some("title"), false, [], [Text("foo")])]);
    assert AttrsText<C>([]) == "";
    SerializeHead<C>();
    KemmeringLemmas.SerializeOneChild<C>("html", [], head, "<head><title>foo</title></head>");
    assert "<" + "html" + "" + ">" == "<html>";
    assert "</" + "html" + ">" == "</html>";
  }

  /** The text of `doc(html()(head()(title()('foo'))))`. */
  lemma SerializeDocTree<C>()
    ensures Serialize(MakeDoc<C>([Child(Element(Tag, Some("html"), false, [], [
              Element(Tag, Some("head"), false, [], [
                Element(Tag, Some("title"), false, [], [Text("foo")])])]))]))
         == Ok("<!DOCTYPE html>\n\n" + ("<html>" + "<head><title>foo</title></head>" + "</html>"))
  {
    var html: Node<C> := Element(Tag, Some("html"), false, [], [
                           Element(Tag, Some("head"), false, [], [
                             Element(Tag, Some("title"), false, [], [Text("foo")])])]);
    SerializeHtmlTree<C>();
    SerializeDoc<C>([Child(html)]);
    SerializeOneWrapped<C>(html, "<html>" + "<head><title>foo</title></head>" + "</html>");
  }

  /** A wrapper of one node streams exactly as the node. */
  lemma SerializeOneWrapped<C>(n: Node<C>, text: string)
    requires Serialize(n) == Ok(text)
    ensures Serialize(MakeNoTag([Child(n)])) == Ok(text)
  {
    var kids := [n];
    assert MakeNoTag([Child(n)]).children == kids;
    assert kids[1..] == [];
    assert SerializeAll(kids) == Ok(text + "");
    assert "" + (text + "") + "" == text;
  }

  /** `str(doc(html()(head()(title()('foo')))))`. */
  lemma DocExample<C>()
    ensures Make<C>("html", []) == Some(Element(Tag, Some("html"), false, [], []))
    ensures Make<C>("head", []) == Some(Element(Tag, Some("head"), false, [], []))
    ensures Make<C>("title", []) == Some(Element(Tag, Some("title"), false, [], []))
    ensures Serialize(MakeDoc<C>([Child(Element(Tag, Some("html"), false, [], [
              Element(Tag, Some("head"), false, [], [
                Element(Tag, Some("title"), false, [], [Text("foo")])])]))]))
         == Ok("<!DOCTYPE html>\n\n" + ("<html>" + "<head><title>foo</title></head>" + "</html>"))
  {
    MadeHtml<C>([]);
    MadeHead<C>([]);
    MadeTitle<C>([]);
    SerializeDocTree<C>();
  }
}
