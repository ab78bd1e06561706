/** The `style` objects of both packages: an insertion-ordered map from a
    CSS selector to its property list, filled by calling the object with
    `(selector, properties)` pairs, and streamed as a `<style>` block.
    Both packages fill the map the same way; they differ only in layout
    (`Html` for the current package, `Kemmer` for the early one). */
module StyleSheets {
  import opened Results
  import opened Strings

  /** A selector's properties, in the iteration order of its dictionary. */
  type Properties = seq<(string, string)>

  /** The ordered selector map. */
  type Rules = seq<(string, Properties)>

  /** The selectors of `rules`, in order. */
  function Selectors(rules: Rules): (r: seq<string>)
    ensures |r| == |rules|
    ensures forall i :: 0 <= i < |rules| ==> r[i] == rules[i].0
  {
    if |rules| == 0 then [] else [rules[0].0] + Selectors(rules[1..])
  }

  /** No selector occurs twice (an ordered dictionary's keys). */
  predicate Distinct(xs: seq<string>) {
    forall i, j :: 0 <= i < j < |xs| ==> xs[i] != xs[j]
  }

  /** The properties stored for `sel`, if any. */
  function Lookup(rules: Rules, sel: string): (r: Option<Properties>)
    ensures r.None? <==> sel !in Selectors(rules)
  {
    if |rules| == 0 then None
    else if rules[0].0 == sel then Some(rules[0].1)
    else Lookup(rules[1..], sel)
  }

  /** `styles[sel] = props` on an ordered dictionary: a present selector
      keeps its position and gets the new properties, a new one goes last,
      and every other selector is left alone. */
  function Assign(rules: Rules, sel: string, props: Properties): (r: Rules)
    ensures Selectors(r) == if sel in Selectors(rules) then Selectors(rules) else Selectors(rules) + [sel]
    ensures Lookup(r, sel) == Some(props)
    ensures forall s :: s != sel ==> Lookup(r, s) == Lookup(rules, s)
  {
    if |rules| == 0 then [(sel, props)]
    else if rules[0].0 == sel then
      var r := [(sel, props)] + rules[1..];
      assert r[1..] == rules[1..];
      r
    else
      var tail := Assign(rules[1..], sel, props);
      var r := [rules[0]] + tail;
      assert r[1..] == tail;
      r
  }

  /** The properties last given for `sel` among `args`, if any. */
  function LastAssigned(args: Rules, sel: string): Option<Properties> {
    if |args| == 0 then None
    else match LastAssigned(args[1..], sel)
      case Some(p) => Some(p)
      case None => if args[0].0 == sel then Some(args[0].1) else None
  }

  /** The selectors of `args` not in `known`, each once, in the order of
      their first appearance. */
  function NewSelectors(known: seq<string>, args: Rules): seq<string>
    decreases |args|
  {
    if |args| == 0 then []
    else if args[0].0 in known then NewSelectors(known, args[1..])
    else [args[0].0] + NewSelectors(known + [args[0].0], args[1..])
  }

  /** What a lookup of `s` sees after assigning `args` onto `rules`: the
      last properties given for `s`, or its earlier ones if none was. */
  function After(rules: Rules, args: Rules, s: string): Option<Properties> {
    match LastAssigned(args, s)
    case Some(p) => Some(p)
    case None => Lookup(rules, s)
  }

  /** Calling a style object with `args`: each pair is assigned in
      argument order. */
  function Update(rules: Rules, args: Rules): Rules
    decreases |args|
  {
    if |args| == 0 then rules
    else Update(Assign(rules, args[0].0, args[0].1), args[1..])
  }

  /** Existing selectors keep their positions and new ones are appended
      in order of first appearance. */
  lemma {:induction false} UpdateSelectors(rules: Rules, args: Rules)
    ensures Selectors(Update(rules, args)) == Selectors(rules) + NewSelectors(Selectors(rules), args)
    decreases |args|
  {
    if |args| > 0 {
      var a := args[0].0;
      var next := Assign(rules, a, args[0].1);
      UpdateSelectors(next, args[1..]);
      var S := Selectors(rules);
      assert Update(rules, args) == Update(next, args[1..]);
      if a in S {
        assert Selectors(next) == S;
        assert NewSelectors(S, args) == NewSelectors(S, args[1..]);
      } else {
        assert Selectors(next) == S + [a];
        var N := NewSelectors(S + [a], args[1..]);
        assert NewSelectors(S, args) == [a] + N;
        assert (S + [a]) + N == S + ([a] + N);
      }
    }
  }

  /** Each selector ends up with the properties it was given last, and
      a selector not mentioned keeps what it had. */
  lemma {:induction false} UpdateLookup(rules: Rules, args: Rules, s: string)
    ensures Lookup(Update(rules, args), s) == After(rules, args, s)
    decreases |args|
  {
    if |args| > 0 {
      UpdateLookup(Assign(rules, args[0].0, args[0].1), args[1..], s);
    }
  }

  /** `style(*args)`: a fresh style object called with `args`. */
  function New(args: Rules): (r: Rules)
    ensures Distinct(Selectors(r))
    ensures forall s :: Lookup(r, s) == LastAssigned(args, s)
  {
    NewSelectorsDistinct([], args);
    UpdateSelectors([], args);
    forall s
      ensures Lookup(Update([], args), s) == LastAssigned(args, s)
    {
      UpdateLookup([], args, s);
    }
    Update([], args)
  }

  /** New selectors are distinct and avoid the known ones. */
  lemma {:induction false} NewSelectorsDistinct(known: seq<string>, args: Rules)
    requires Distinct(known)
    ensures Distinct(known + NewSelectors(known, args))
    decreases |args|
  {
    if |args| > 0 {
      if args[0].0 in known {
        NewSelectorsDistinct(known, args[1..]);
      } else {
        NewSelectorsDistinct(known + [args[0].0], args[1..]);
        assert known + NewSelectors(known, args)
            == (known + [args[0].0]) + NewSelectors(known + [args[0].0], args[1..]);
      }
    }
  }

  /** Updating never moves a selector that was already present. */
  lemma UpdateKeepsPositions(rules: Rules, args: Rules)
    ensures |Update(rules, args)| >= |rules|
    ensures forall i :: 0 <= i < |rules| ==> Update(rules, args)[i].0 == rules[i].0
  {
    var r := Update(rules, args);
    UpdateSelectors(rules, args);
    assert forall i :: 0 <= i < |rules| ==> Selectors(r)[i] == Selectors(rules)[i];
  }

  /** One `    key: value;` line per property, in order. */
  function PropertiesText(props: Properties): string {
    if |props| == 0 then ""
    else "    " + props[0].0 + ": " + props[0].1 + ";\n" + PropertiesText(props[1..])
  }

  /** One selector block; `indent` is the layout's prefix for the selector
      line and the closing brace. */
  function Block(indent: string, sel: string, props: Properties): string {
    indent + sel + " {\n" + PropertiesText(props) + indent + "}\n"
  }

  /** The blocks of every selector, in map order. */
  function RulesText(indent: string, rules: Rules): string {
    if |rules| == 0 then ""
    else Block(indent, rules[0].0, rules[0].1) + RulesText(indent, rules[1..])
  }

  /** The block text is built selector by selector. */
  lemma {:induction false} RulesTextAppend(indent: string, rules: Rules, more: Rules)
    ensures RulesText(indent, rules + more) == RulesText(indent, rules) + RulesText(indent, more)
  {
    if |rules| == 0 {
      assert rules + more == more;
    } else {
      assert (rules + more)[1..] == rules[1..] + more;
      RulesTextAppend(indent, rules[1..], more);
    }
  }

  /** The streaming of an HTML `style` object (current package): the block
      starts with a blank line, selectors are indented by two spaces,
      properties by four, and no blank line precedes the closing tag. */
  function RenderHtml(rules: Rules): (r: string)
    ensures |rules| == 0 ==> r == "\n<style>\n</style>\n"
  {
    "\n<style>\n" + RulesText("  ", rules) + "</style>\n"
  }

  /** Adding a selector to an HTML style adds exactly its block just
      before the closing tag. */
  lemma RenderHtmlSnoc(rules: Rules, sel: string, props: Properties)
    ensures RenderHtml(rules + [(sel, props)])
         == "\n<style>\n" + (RulesText("  ", rules) + Block("  ", sel, props)) + "</style>\n"
  {
    var one: Rules := [(sel, props)];
    RulesTextAppend("  ", rules, one);
    assert one[1..] == [];
    var b := Block("  ", sel, props);
    assert RulesText("  ", []) == "";
    assert b + "" == b;
    assert RulesText("  ", one) == b;
  }

  /** A style made from one pair holds exactly that selector. */
  lemma NewOne(sel: string, props: Properties)
    ensures New([(sel, props)]) == [(sel, props)]
  {
    assert Update([], [(sel, props)]) == Update([(sel, props)], []);
  }

  /** The text of a single selector with a single property. */
  lemma RulesTextOne(indent: string, sel: string, key: string, value: string)
    ensures RulesText(indent, [(sel, [(key, value)])])
         == indent + sel + " {\n" + ("    " + key + ": " + value + ";\n") + indent + "}\n"
  {
    var props: Properties := [(key, value)];
    var rules: Rules := [(sel, props)];
    assert props[1..] == [] && rules[1..] == [];
    var line := "    " + key + ": " + value + ";\n";
    assert PropertiesText(props) == line + "" == line;
    var b := Block(indent, sel, props);
    assert RulesText(indent, rules) == b + "" == b;
  }

  /** The one-selector example: `style(('a', {'b': 'c'}))`. */
  lemma RenderHtmlExample()
    ensures RenderHtml(New([("a", [("b", "c")])])) == "\n<style>\n  a {\n    b: c;\n  }\n</style>\n"
  {
    NewOne("a", [("b", "c")]);
    RulesTextOne("  ", "a", "b", "c");
    RenderHtmlExampleText();
  }

  lemma RenderHtmlExampleText()
    ensures "\n<style>\n" + ("  " + "a" + " {\n" + ("    " + "b" + ": " + "c" + ";\n") + "  " + "}\n") + "</style>\n"
         == "\n<style>\n  a {\n    b: c;\n  }\n</style>\n"
  {
  }

  /** Re-assigning a selector replaces its properties in place: the block
      order of the rendering is unchanged. */
  lemma ReassignKeepsOrder()
    ensures Update(New([("a", [("x", "1")]), ("b", [("y", "2")])]), [("a", [("z", "3")])])
         == [("a", [("z", "3")]), ("b", [("y", "2")])]
  {
    var r0 := New([("a", [("x", "1")]), ("b", [("y", "2")])]);
    assert Selectors(r0) == ["a", "b"];
    assert r0 == [("a", [("x", "1")]), ("b", [("y", "2")])] by {
      assert Lookup(r0, "a") == Some([("x", "1")]);
      assert Lookup(r0, "b") == Some([("y", "2")]);
    }
  }
}
