/** Rendering of a tag's attribute list, identical in both packages:
    nothing for an empty list, otherwise a space followed by the
    space-separated `key="value"` items, where the key loses all its
    trailing underscores (so `class_` renders as `class`). Values are
    emitted verbatim, without escaping. The list order is the iteration
    order of the keyword-argument dictionary. */
module Attributes {
  import opened Strings

  /** One `key="value"` item. */
  function Item(key: string, value: string): string {
    RStripUnderscores(key) + "=\"" + value + "\""
  }

  /** The items of `pairs`, in order. */
  function Items(pairs: seq<(string, string)>): (r: seq<string>)
    ensures |r| == |pairs|
    ensures forall i :: 0 <= i < |pairs| ==> r[i] == Item(pairs[i].0, pairs[i].1)
  {
    seq(|pairs|, i requires 0 <= i < |pairs| => Item(pairs[i].0, pairs[i].1))
  }

  /** The text inserted after the tag name. */
  function Render(pairs: seq<(string, string)>): (r: string)
    ensures |pairs| == 0 <==> r == ""
    ensures |pairs| > 0 ==> r[0] == ' '
  {
    if |pairs| == 0 then "" else " " + Join(" ", Items(pairs))
  }

  /** Rendering is built item by item: one more attribute adds exactly
      ` key="value"` at the end. */
  lemma RenderSnoc(pairs: seq<(string, string)>, key: string, value: string)
    ensures Render(pairs + [(key, value)]) == Render(pairs) + " " + Item(key, value)
  {
    if |pairs| == 0 {
      assert Items(pairs + [(key, value)]) == [Item(key, value)];
    } else {
      assert Items(pairs + [(key, value)]) == Items(pairs) + [Item(key, value)];
      JoinSnoc(" ", Items(pairs), Item(key, value));
    }
  }

  /** A single attribute renders as ` key="value"` with every trailing
      underscore of the key removed. */
  lemma RenderOne(key: string, value: string)
    ensures Render([(key, value)]) == " " + RStripUnderscores(key) + "=\"" + value + "\""
  {
    assert Items([(key, value)]) == [Item(key, value)];
  }

  /** The reserved-word convention: `class_` and `class__` both render as `class`. */
  lemma ReservedWordKey()
    ensures Render([("class_", "foo")]) == " class=\"foo\""
    ensures Render([("class__", "foo")]) == " class=\"foo\""
  {
    RenderOne("class_", "foo");
    RenderOne("class__", "foo");
    RStripUnique("class_", "class");
    RStripUnique("class__", "class");
  }
}
