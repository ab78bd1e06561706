# kemmering in Dafny

A model of the markup-tree library `kemmering` and of its early predecessor
`kemmer`. Both packages build HTML/XML as trees of Python objects and turn
them into text. A tree is made of:

- tags (`tag('a', href='x')('child', other_tag)`);
- nameless wrappers (`notag`);
- HTML documents (`doc`);
- text leaves and style blocks.

The current package also has placeholders (`defer(f)`). The
`bind(tree, context)` rebuild replaces them by `f(context)`.

The model is a set of pure functions over immutable trees:

| file | module | models |
|---|---|---|
| `results.dfy` | `Results` | `Option` and `Result` |
| `strings.dfy` | `Strings` | `rstrip('_')`, `', '.join`, `''.join` and the single-quoted `repr` of a string |
| `attributes.dfy` | `Attributes` | the ` k="v"` attribute text, which both packages write the same way |
| `stylesheets.dfy` | `StyleSheets` | the ordered selector map of a `style` and its `kemmering.html` layout |
| `kemmering.dfy` | `Kemmering` | `tag`, `notag`, `text`, `defer`: construction, call, streaming, `repr`, `bind` |
| `kemmering_lemmas.dfy` | `KemmeringLemmas` | properties of streaming, `repr` and `bind`, and the two findings below |
| `html.dfy` | `Html` | `doc` and the 106 tag shortcuts of `kemmering/html.py` |
| `kemmer.dfy` | `Kemmer` | the early `tag` (`__init__`, `__call__`, `__iter__`, `render`, `_stream`, `__repr__`), `text` and `style` |
| `kemmer_lemmas.dfy` | `KemmerLemmas` | properties of the early package |
| `versions.dfy` | `Versions` | how the early tree maps into the current one; where the two agree and where they part |

The source appends children in place and returns the receiver. Here,
calling a node returns the extended node instead.

The context given to `bind` is an abstract type parameter `C`. A
placeholder holds its resolver as a Dafny function `C -> Node<C>`. An
attribute placeholder holds a resolver `C -> string`.

An element records its Python class (`tag`, `notag` or `doc`), because the
rebuild in `bind` depends on it. A name is `Option<string>`:

- `None` is Python's `None`;
- `Some("")` is the empty string.

In both cases the current serializer emits no tags for the element,
except when it is self-closing and childless: `tag('/')` keeps the empty
name with the self-closing flag and streams as `</>`. The early serializer
always emits the tags.

Exceptions are `Err` values:

- streaming an unbound placeholder gives `UnboundDefer`;
- `bind` on text or style gives `NotBindable` (there is no `_bind` method);
- rebuilding a `notag` or `doc` gives `RebuildFailed`;
- calling a non-element gives `NotCallable`.

Facts about the code that the model keeps:

- Text and attribute values are emitted without escaping.
- A placeholder's result is not bound again (`KemmeringLemmas.DeferNotRebound`).
- A nameless element with no children has the `repr` `notag`, without parentheses.

## Model

| member | source | states |
|---|---|---|
| Strings.RStripUnderscores | kemmering/__init__.py:60 | the stripped key is a prefix of the key, does not end in `_`, and only underscores were removed; a key not ending in `_` is kept |
| Strings.RStripUnique | kemmering/__init__.py:60 | any prefix that does not end in `_` and is followed only by underscores is the stripped key |
| Strings.RStripIdempotent | kemmering/__init__.py:60 | stripping twice is stripping once |
| Strings.JoinSnoc | kemmering/__init__.py:40-42 | joining one more item appends the separator and the item |
| Strings.ConcatAppend | kemmering/__init__.py:36 | `''.join` of two runs is the concatenation of each join |
| Strings.Quote | kemmering/__init__.py:41 | the repr of a string is the string between single quotes |
| Attributes.Render | kemmering/__init__.py:57-63 | the attribute text is empty exactly when there are no attributes, and otherwise starts with a space |
| Attributes.RenderSnoc | kemmering/__init__.py:59-61 | one more attribute appends a space and its item |
| Attributes.RenderOne | kemmering/__init__.py:59-61 | a single attribute renders as ` key="value"` with the key stripped |
| KemmeringLemmas.RenderTwoAttributes | tests/test_init.py:32-36 | `foo='bar', bar='baz'` renders as ` foo="bar" bar="baz"`, in the given order |
| Attributes.ReservedWordKey | tests/test_init.py:46-48 | `class_` and `class__` both render as `class` |
| StyleSheets.Assign | kemmering/html.py:33-35 | assigning a selector keeps its position if it is known and appends it otherwise; its properties become the new ones and every other selector is untouched |
| StyleSheets.UpdateSelectors | kemmering/html.py:33-35 | after a style call (`StyleSheets.Update`) the selectors are the old ones followed by the first occurrences of the new ones |
| StyleSheets.UpdateKeepsPositions | kemmering/html.py:33-35 | a style call (`StyleSheets.Update`) never moves or removes a selector that was already present |
| StyleSheets.UpdateLookup | kemmering/html.py:33-35 | after a style call (`StyleSheets.Update`) each selector has its last assigned properties, or its old ones if the call does not mention it |
| StyleSheets.New | kemmering/html.py:20-22 | a new style has distinct selectors, each with the properties last given to it |
| StyleSheets.NewOne | kemmering/html.py:20-22 | a style made from one pair holds exactly that selector with its properties |
| StyleSheets.NewSelectorsDistinct | kemmering/html.py:21 | adding first occurrences to distinct selectors keeps them distinct |
| StyleSheets.ReassignKeepsOrder | kemmering/html.py:33-35 | reassigning `a` after `b` keeps `a` first and replaces its properties |
| StyleSheets.RulesTextAppend | kemmering/html.py:26-30 | the text of the selector blocks of two runs is the concatenation of each run's text |
| StyleSheets.RenderHtml | kemmering/html.py:24-31 | an empty style streams as `\n<style>\n</style>\n` |
| StyleSheets.RenderHtmlSnoc | kemmering/html.py:24-31 | one more selector adds exactly its indented block before `</style>` |
| StyleSheets.RulesTextOne | kemmering/html.py:26-30 | one selector with one property is written as its header line, its property line and its closing brace |
| StyleSheets.RenderHtmlExample | tests/test_html.py:1-12 | `style(('a', {'b': 'c'}))` streams the indented one-block text |
| Kemmering.MakeTag | kemmering/__init__.py:9-15 | a non-empty name ending in `/` loses exactly that slash and makes the tag self-closing; any other name, including `None` and `''`, is kept and the tag is not self-closing; attributes are kept and there are no children |
| Kemmering.Call | kemmering/__init__.py:17-24 | calling an element keeps its class, name, flag and attributes and appends the arguments after the old children; calling anything else fails |
| Kemmering.MakeNoTag | kemmering/__init__.py:78-82 | `notag(*args)` is what its constructor does: `tag(None)` called with the arguments, with the class set to `notag` |
| Kemmering.AttrPairs | kemmering/__init__.py:57-61 | each attribute value is formatted with `%s`: a string as is, an unbound placeholder as its repr |
| Kemmering.Serialize | kemmering/__init__.py:56-75 | streaming succeeds exactly when no placeholder is reachable, and otherwise fails with the unbound-defer error |
| Kemmering.SerializeAll | kemmering/__init__.py:71-73 | the children stream successfully exactly when none contains a placeholder |
| Kemmering.KeywordItems | kemmering/__init__.py:40-42 | one `k=repr(v)` item per attribute, in order, key as written |
| Kemmering.ReprAll | kemmering/__init__.py:49-50 | one repr per child |
| Kemmering.Repr | kemmering/__init__.py:38-54 | an element with a truthy name, or a childless self-closing one, shows `tag(...)`; any other element shows `notag...`; with children the repr ends in `)` |
| Kemmering.BindAttrs | kemmering/__init__.py:31 | binding keeps every key at its position and leaves no placeholder: a string value is kept, and a placeholder becomes its resolver's result for the context |
| KemmeringLemmas.BindAttrsStatic | kemmering/__init__.py:31 | binding attributes that hold no placeholder gives them back unchanged |
| Kemmering.Rebind | kemmering/__init__.py:26-33 | the rebuild succeeds exactly when every reachable element is a plain `tag`; text and style are kept; a placeholder becomes its resolver's result; an element becomes a `tag` whose self-closing flag is recomputed from the stripped name, with bound attributes and children |
| Kemmering.RebindAll | kemmering/__init__.py:32 | the children are rebuilt pointwise and the first failure aborts |
| Kemmering.Bind | kemmering/__init__.py:91-92 | `bind` on text or style fails for lack of a bind method; on elements and placeholders it is the rebuild |
| Kemmering.RebindPreserving | kemmering/__init__.py:26-33 | the corrected rebuild keeps class, name and self-closing flag, binds every attribute and child, and never fails |
| Kemmering.RebindPreservingAll | kemmering/__init__.py:32 | the children are rebuilt pointwise by the corrected rebuild |
| KemmeringLemmas.Pieces | kemmering/__init__.py:71-73 | each concrete child's streamed text, in order |
| KemmeringLemmas.SerializeAllIsConcat | kemmering/__init__.py:71-73 | the children's text is the concatenation of each child's text |
| KemmeringLemmas.SerializeAllAppend | kemmering/__init__.py:71-73 | two runs of children stream successfully exactly when each does, and then to the concatenation |
| KemmeringLemmas.ConcreteAppend | kemmering/__init__.py:71-73 | two runs of children are placeholder-free exactly when each run is |
| KemmeringLemmas.SerializeAllCons | kemmering/__init__.py:71-73 | one more child in front puts its text in front of the others' text |
| KemmeringLemmas.SerializeAllAppendText | kemmering/__init__.py:71-73 | when both runs stream, the text of the joined run is the text of the first followed by that of the second |
| KemmeringLemmas.SerializeNamed | kemmering/__init__.py:69-75 | a named element that is not a childless self-closing one streams as open tag, children, close tag |
| KemmeringLemmas.SerializeWrapper | kemmering/__init__.py:78-82 | a `notag` streams as its children's text alone |
| KemmeringLemmas.SerializeWrapperDefer | kemmering/__init__.py:103-104 | a placeholder inside a wrapper makes streaming fail |
| KemmeringLemmas.SerializeCall | kemmering/__init__.py:17-24 | calling a named element inserts the new children's text before its close tag |
| KemmeringLemmas.SerializeMadeTag | kemmering/__init__.py:9-15 | a fresh slashed tag streams as `<stem attrs/>`; an unslashed one as open tag, arguments, close tag |
| KemmeringLemmas.MakeTagSlashed | kemmering/__init__.py:10-12 | `tag(stem + '/')` is the self-closing tag named `stem` |
| KemmeringLemmas.SerializeEmptyTag | kemmering/__init__.py:65-67 | a childless self-closing element streams as `<name attrs/>` |
| KemmeringLemmas.SerializeTextChildren | kemmering/__init__.py:85-88 | a text leaf streams as itself |
| KemmeringLemmas.SerializeHello | tests/test_init.py:2-4 | `tag('hello')` streams as `<hello></hello>` |
| KemmeringLemmas.SerializeHelloWorld | tests/test_init.py:12-14 | `tag('hello')('world')` streams as `<hello>world</hello>` |
| KemmeringLemmas.SerializeNested | tests/test_init.py:22-24 | `tag('a')(tag('b/'))` streams as `<a><b/></a>` |
| KemmeringLemmas.SerializeSlashed | kemmering/__init__.py:65-66 | any slashed name streams as `<stem attrs/>` |
| KemmeringLemmas.SerializeAttributeExample | tests/test_init.py:32-36 | `tag('a/', foo='bar', bar='baz')` streams with both attributes in order |
| KemmeringLemmas.SerializeReservedWordExample | tests/test_init.py:46-48 | `tag('a/', class_='foo')` streams as `<a class="foo"/>` |
| KemmeringLemmas.SerializeLazyAttribute | kemmering/__init__.py:106-109 | an unbound placeholder attribute is written as the placeholder's repr |
| KemmeringLemmas.RenderLazyHref | kemmering/__init__.py:59-61 | an unbound placeholder named `url` in `href` renders as ` href="defer(url)"` |
| KemmeringLemmas.ReprAllPointwise | kemmering/__init__.py:49 | the i-th child repr is the repr of the i-th child |
| KemmeringLemmas.ReprMadeTag | kemmering/__init__.py:38-52 | a fresh tag with a non-empty name shows `tag('name', k=v...)`; for a slashed name the slash is restored |
| KemmeringLemmas.ReprWithChildren | kemmering/__init__.py:49-52 | a named element with children is followed by its children's reprs in parentheses |
| KemmeringLemmas.ReprNoTag | kemmering/__init__.py:53-54 | a wrapper shows `notag`, with its children in parentheses only when it has some |
| KemmeringLemmas.ReprHello | tests/test_init.py:7-9 | `repr(tag('hello'))` is `tag('hello')` |
| KemmeringLemmas.ReprHelloWorld | tests/test_init.py:17-19 | `repr(tag('hello')('world'))` is `tag('hello')('world')` |
| KemmeringLemmas.ReprNested | tests/test_init.py:27-29 | `repr(tag('a')(tag('b/')))` is `tag('a')(tag('b/'))` |
| KemmeringLemmas.ReprAttributeExample | tests/test_init.py:51-53 | `repr(tag('a/', class_='foo'))` keeps the attribute |
| KemmeringLemmas.BindThenSerialize | kemmering/__init__.py:26-33 | if the tree is rebuildable and every placeholder resolves to a concrete tree, the bound tree streams |
| KemmeringLemmas.DeferNotRebound | kemmering/__init__.py:100-101 | a placeholder resolving to a placeholder is not bound again, so the result does not stream |
| KemmeringLemmas.StableRebuildable | kemmering/__init__.py:26-33 | a tree of plain, non-self-closing tags is rebuildable |
| KemmeringLemmas.RebindStable | kemmering/__init__.py:26-33 | on such trees the rebuild as written equals the corrected rebuild |
| KemmeringLemmas.RebindPreservingIdentity | kemmering/__init__.py:26-33 | the corrected rebuild of a placeholder-free tree is the tree itself |
| KemmeringLemmas.BindIdentity | kemmering/__init__.py:91-92 | binding a placeholder-free tree of plain tags gives back the same tree and the same text |
| KemmeringLemmas.RebindPreservingSerialize | kemmering/__init__.py:26-33 | the corrected rebuild of a placeholder-free tree streams the same text |
| KemmeringLemmas.SerializeBr | kemmering/__init__.py:65-66 | `tag('br/')` streams as `<br/>` |
| KemmeringLemmas.BindDropsSelfClosing | kemmering/__init__.py:33 | binding `tag('br/')` gives `tag('br')`, which streams as `<br></br>`; the corrected rebuild keeps `<br/>` |
| KemmeringLemmas.SerializeWrapped | kemmering/__init__.py:78-82 | `tag('a')(notag('x'))` streams as `<a>x</a>` |
| KemmeringLemmas.BindNoTagFails | kemmering/__init__.py:33 | binding `tag('a')(notag('x'))` fails; the corrected rebuild streams `<a>x</a>` |
| Html.MakeDoc | kemmering/html.py:45-47 | `doc(*args)` is built exactly like `notag(*args)`, only with the class `doc` |
| Html.SerializeDoc | kemmering/html.py:49-52 | a document streams exactly when the same `notag` does, and then as the doctype line followed by the wrapper's text |
| Html.SerializeDocDefer | kemmering/html.py:49-52 | a placeholder among a document's children makes streaming fail |
| Html.BindDocFails | kemmering/html.py:45-47 | binding a document always fails, because its rebuild passes `None` as a child |
| Html.CatalogDeclared | kemmering/html.py:60-165 | every shortcut passes its name with trailing underscores stripped, with a `/` exactly for the void elements |
| Html.Find | kemmering/html.py:60-165 | a found index holds the looked-up identifier, and nothing is found exactly when no entry has it |
| Html.Make | kemmering/html.py:60-165 | a shortcut exists exactly when the identifier is in the catalog, and it is the tag built from that entry's argument |
| Html.MakeDeclared | kemmering/html.py:60-165 | a well-formed entry builds the tag named after its identifier, self-closing exactly for void elements |
| Html.MakeNamed | kemmering/html.py:60-165 | every shortcut builds an attribute-carrying, childless tag named after its identifier, self-closing exactly for void elements |
| Html.SerializeCatalogued | kemmering/html.py:60-165 | a void shortcut without children streams as `<name attrs/>`; otherwise as open tag, children, close tag |
| Html.CataloguedName | kemmering/html.py:60-165 | every shortcut names a non-empty tag |
| Html.ExampleEntries | kemmering/html.py:60-165 | `a`, `area/`, `del`, `wbr`, `html`, `head` and `title` are catalogued under their identifiers |
| Html.ExampleNames | kemmering/html.py:60-165 | of these, only `area` is void; `del_` names `del` |
| Html.MadeWbr | kemmering/html.py:165 | `wbr()` is a plain, not self-closing `wbr` tag |
| Html.MadeDel | kemmering/html.py:83 | `del_()` is the `del` tag |
| Html.MadeArea | kemmering/html.py:63 | `area()` is the self-closing `area` tag |
| Html.MadeA | kemmering/html.py:60 | `a()` is the `a` tag |
| Html.MadeHtml | kemmering/html.py:106 | `html()` is the `html` tag |
| Html.MadeHead | kemmering/html.py:102 | `head()` is the `head` tag |
| Html.MadeTitle | kemmering/html.py:158 | `title()` is the `title` tag |
| KemmeringLemmas.SerializeOneChild | kemmering/__init__.py:69-75 | a named element with one child streams as open tag, the child's text, close tag |
| KemmeringLemmas.SerializeTextCall | kemmering/__init__.py:17-24 | calling an empty named tag with a string wraps the string in its tags |
| Html.SerializeWbr | tests/test_html.py:544-546 | `wbr()('foo')` streams as `<wbr>foo</wbr>` |
| Html.WbrExample | tests/test_html.py:544-546 | the `wbr` shortcut and its streamed text |
| Html.SerializeDel | tests/test_html.py:139-141 | `del_()('foo')` streams as `<del>foo</del>` |
| Html.DelExample | tests/test_html.py:139-141 | the `del_` shortcut and its streamed text |
| Html.ShapeAttribute | tests/test_html.py:39-41 | `shape='circle'` renders as ` shape="circle"` |
| Html.SerializeArea | tests/test_html.py:39-41 | `area(shape='circle')` streams as `<area shape="circle"/>` |
| Html.AreaExample | tests/test_html.py:39-41 | the `area` shortcut and its streamed text |
| Html.HrefAttribute | tests/test_html.py:24-26 | `href='foo/bar'` renders as ` href="foo/bar"` |
| Html.SerializeAnchor | tests/test_html.py:24-26 | `a(href='foo/bar')('Howdy!')` streams as `<a href="foo/bar">Howdy!</a>` |
| Html.AnchorExample | tests/test_html.py:24-26 | the `a` shortcut and its streamed text |
| Html.SerializeTitle | tests/test_html.py:16-21 | `title()('foo')` streams as `<title>foo</title>` |
| Html.SerializeHead | tests/test_html.py:16-21 | the `head` holding that title streams as `<head><title>foo</title></head>` |
| Html.SerializeHtmlTree | tests/test_html.py:16-21 | the `html` holding that head streams as `<html><head><title>foo</title></head></html>` |
| Html.SerializeDocTree | tests/test_html.py:16-21 | the document holding that tree streams with the doctype line first |
| Html.SerializeOneWrapped | kemmering/html.py:49-52 | a document with one child streams as the doctype line and the child's text |
| Html.DocExample | tests/test_html.py:16-21 | the shortcuts used by the document test and its streamed text |
| Kemmer.MakeTag | kemmer/__init__.py:7-13 | a name ending in `/` loses exactly that slash and makes the tag self-closing; otherwise the name is kept, the empty name included |
| Kemmer.Call | kemmer/__init__.py:15-22 | calling a tag keeps its name, flag and attributes and appends the arguments after the old children; text is not callable, and a style call is modelled by `StyleSheets.Update` instead |
| Kemmer.StyleText | kemmer/__init__.py:80-87 | an empty early style streams as `\n<style>\n\n</style>\n` |
| Kemmer.Stream | kemmer/__init__.py:48-65 | every tag's text, the empty name included, starts with `<` and ends with `>` |
| Kemmer.StreamAll | kemmer/__init__.py:62-64 | no children stream as nothing and one child as its own text; with `KemmerLemmas.StreamAllAppend` a run streams as the concatenation of its children |
| Kemmer.Render | kemmer/__init__.py:27-28 | `render()` of a childless self-closing tag is `<name attrs/>`; any other tag's text starts with its open tag and ends with its close tag |
| Kemmer.KeywordItems | kemmer/__init__.py:38-40 | one `k=repr(v)` item per attribute, in order |
| Kemmer.ReprAll | kemmer/__init__.py:44-45 | one repr per child, which `KemmerLemmas.ReprAllPointwise` pins to the i-th child's repr |
| Kemmer.Repr | kemmer/__init__.py:33-46 | every early tag's repr starts with `tag(`, the empty name included, and ends in `)` when it has children |
| KemmerLemmas.StreamAllAppend | kemmer/__init__.py:62-64 | streaming two runs of children is streaming each in turn |
| KemmerLemmas.StreamCall | kemmer/__init__.py:48-65 | calling a tag inserts the new children's text before its close tag |
| KemmerLemmas.StreamMadeTag | kemmer/__init__.py:57-65 | a fresh slashed tag streams as `<stem attrs/>`; any other fresh tag as an empty pair of tags |
| KemmerLemmas.IterCall | kemmer/__init__.py:24-25 | iterating a called tag yields the old children followed by the new ones |
| KemmerLemmas.ReprDropsAttributes | kemmer/__init__.py:34-35 | the early repr of a fresh self-closing tag shows only `tag('name/')`, whatever its attributes |
| KemmerLemmas.ReprAllPointwise | kemmer/__init__.py:44 | the i-th child repr is the repr of the i-th child |
| KemmerLemmas.ReprMadeTag | kemmer/__init__.py:37-46 | a fresh early tag without a trailing slash shows `tag('name', k='v'...)`, even for the empty name |
| KemmerLemmas.ReprWithChildren | kemmer/__init__.py:37-46 | a tag with children, self-closing or not, shows its name and attributes and then its children in parentheses |
| KemmerLemmas.StyleTextSnoc | kemmer/__init__.py:80-87 | one more selector adds exactly its unindented block before the blank line and `</style>` |
| KemmerLemmas.StyleTextExample | kemmer/__init__.py:80-87 | `style(('a', {'b': 'c'}))` streams the unindented one-block text |
| KemmerLemmas.StreamHelloWorld | kemmer/__init__.py:48-65 | `tag('hello')('world')` streams as `<hello>world</hello>` |
| KemmerLemmas.StreamEmptyName | kemmer/__init__.py:61-65 | `tag('')` streams as `<></>` |
| KemmerLemmas.ReprSelfClosingExample | kemmer/__init__.py:34-35 | `repr(tag('a/', class_='foo'))` is `tag('a/')` |
| Versions.StrAttrs | kemmer/__init__.py:12 | early attributes map to current ones with plain string values, in order |
| Versions.EmbedAll | kemmer/__init__.py:13 | children map to current children pointwise |
| Versions.EmbedArgs | kemmer/__init__.py:15 | call arguments map to current arguments pointwise |
| Versions.Embed | kemmer/__init__.py:4-22 | an early node's counterpart is an element exactly when the node is a tag; it has no placeholder and only plain `tag` elements, so it always streams and can be bound |
| Versions.EmbedArg | kemmer/__init__.py:16-20 | wrapping the counterpart of an argument gives the counterpart of the wrapped argument |
| Versions.AttrsTextAgrees | kemmer/__init__.py:49-55 | string attributes render to the same text in both packages |
| Versions.MakeTagAgrees | kemmer/__init__.py:7-13 | building a tag agrees with the current package for every name |
| Versions.CallAgrees | kemmer/__init__.py:15-22 | calling a tag agrees with the current package |
| Versions.SerializeEmbed | kemmer/__init__.py:48-65 | on trees without empty names or style blocks, the current serializer gives exactly the early text |
| Versions.SerializeAllEmbed | kemmer/__init__.py:62-64 | the same for a run of children |
| Versions.EmptyNameDiffers | kemmer/__init__.py:61-65 | an empty name streams as `<></>` in the early package and as nothing in the current one |
| Versions.ReprSelfClosingDiffers | kemmer/__init__.py:33-35 | the early repr of `tag('a/', class_='foo')` drops the attribute; the current one keeps it |

## Left out

- `pretty` (kemmering/html.py:55-57): a post-processing step that goes through an XML parser. It is outside this model.
- The `parent` back-reference that a call sets on each child: nothing in the modelled operations reads it.
- Python's `repr` of a string is modelled as the string between single quotes. Escaping inside the quotes and the switch to double quotes are not modelled.
- The `repr` of a style object includes a memory address. It is modelled as a fixed `<... object>` string.
- Attribute dicts and the style `OrderedDict` are modelled as sequences in insertion order. A keyword argument cannot repeat, so the attribute sequences are not forced to have distinct keys.
- Attribute and property values other than strings (numbers, `None`) are left out, and so is their `%s` formatting.
- A resolver returning a plain `str` is left out. Resolvers return nodes, and attribute resolvers return strings.
- Kemmering.Call: calling a `style` returns `None` after updating it in place (kemmering/html.py:33-35). The update is modelled as `StyleSheets.Update`. Kemmering.Call treats a style as not callable.
- Kemmer.Iter: iterating a text leaf (its characters) is not modelled. Iteration is defined for tags only.
- Kemmer.MakeTag: the early `tag(None)` raises on `None.endswith`. The early name is a plain string, so that failure is not modelled.
- Kemmer.Call: calling an early `style` updates its selector map in place and returns `None` (kemmer/__init__.py:89-91). The update is modelled as `StyleSheets.Update`, which both packages share. Kemmer.Call treats a style as not callable.
- Kemmering.Serialize: it models `''.join(node._stream())`, which fails on an unbound placeholder. `str()` of a placeholder on its own does not fail: `defer` has no `__str__`, so Python falls back to its repr, `defer(name)` (`Kemmering.Repr`).
- Shared children: the source appends children in place and returns the receiver, so a child added to a node after that node was placed in a tree also shows up in the tree. For example, `b = tag('b'); a = tag('a')(b); b('x')` makes `str(a)` equal `<a><b>x</b></a>`. Trees here are values and a call returns a new node, so this sharing is not modelled.
- A `None` attribute value is emitted by the code as `None`. The model holds only string values, so this case is not represented.

## Findings

| source | as written | input that shows it | evidently intended | confidence | as-written member | corrected member |
|---|---|---|---|---|---|---|
| kemmering/__init__.py:33 | the rebuild calls `tag(self.tag, ...)` with the already stripped name, so a self-closing tag loses its flag | `bind(tag('br/'), ctx)` streams as `<br></br>` instead of `<br/>` | binding keeps the self-closing flag | not executed | KemmeringLemmas.BindDropsSelfClosing | Kemmering.RebindPreserving |
| kemmering/__init__.py:33 | the rebuild calls `type(self)(self.tag, ...)`, which for `notag` and `doc` becomes `notag(None)` / `doc(None)` and appends `None` as a child, which fails | `bind(tag('a')(notag('x')), ctx)` fails | binding a tree that contains wrappers or documents succeeds and keeps them | not executed | KemmeringLemmas.BindNoTagFails | Kemmering.RebindPreserving |
