/**
 * The recursive descent of the TEI parser over an element tree:
 * `parse_contents` decides how an element is visited and `transform` turns
 * one element into output text, calling back into `parse_contents` for the
 * children it needs. The document is an abstract tree of text nodes and
 * elements; its text is what BeautifulSoup's `.text` returns.
 */
module Transformer {
  import opened Strings
  import opened Wrappers
  import Tags
  import Util
  import Brackets

  type Attrs = map<string, string>

  /** A node of the document: a string, or an element with its name, attributes and children. */
  datatype Node = Text(s: string) | Elem(name: string, attrs: Attrs, children: seq<Node>)

  /** `.text`: every string below the node, in document order. */
  function TextOf(n: Node): string
    decreases n, 1
  {
    match n
    case Text(s) => s
    case Elem(_, _, _) => TextsFrom(n, 0)
  }

  function TextsFrom(n: Node, i: nat): string
    requires n.Elem? && i <= |n.children|
    decreases n, 0, |n.children| - i
  {
    if i == |n.children| then "" else TextOf(n.children[i]) + TextsFrom(n, i + 1)
  }

  /**
   * The conditions without which `parse_contents(n, parent_name=parent)`
   * raises an exception that nothing catches, checked on the nodes the walk
   * actually visits: `int()` on the numeric attributes of `gap` and
   * `space`, `rend` of `hi`, `place` of each `add` inside `subst` up to the
   * inline one, and the None `transform` returns for a `hi` whose nested
   * `hi` is empty but marked. A regularised or variant reading and a
   * deletion at the top level are not looked into, so anything may stand
   * there.
   */
  predicate Sound(n: Node, parent: string)
    requires n.Elem?
    decreases n, 4
  {
    if n.name == "reg" || parent == "reg" || n.name == "rdg" || (n.name == "del" && parent == "") then true
    else if n.children == [] || n.name in Whole then TransformSound(n)
    else ContentsSound(n)
  }

  /** The loop of `parse_contents` over the children: strings go to `transform`, elements are parsed. */
  predicate ContentsSound(n: Node)
    requires n.Elem?
    decreases n, 3
  {
    forall k | 0 <= k < |n.children| ::
      if n.children[k].Text? then TransformSound(n) else Sound(n.children[k], n.name)
  }

  /** What `transform` needs of an element and of the children it visits. */
  predicate TransformSound(n: Node)
    requires n.Elem?
    decreases n, 2
  {
    (n.name == "gap" ==> Tags.GapParses(n.attrs)) &&
    (n.name == "space" ==> Tags.SpaceParses(n.attrs)) &&
    (n.name == "supplied" ==> PartsSound(n, {""}, "")) &&
    (n.name == "expan" ==> PartsSound(n, {"ex"}, "")) &&
    (n.name == "add" ==> PartsSound(n, {}, "")) &&
    (n.name == "subst" ==> SubstSound(n, 0)) &&
    (n.name == "hi" ==> HiSound(n, 0, ""))
  }

  /** Every element child whose name is not in `skip` is parsed with that parent. */
  predicate PartsSound(n: Node, skip: set<string>, parent: string)
    requires n.Elem?
    decreases n, 1
  {
    forall k | 0 <= k < |n.children| ::
      n.children[k].Elem? && n.children[k].name !in skip ==> Sound(n.children[k], parent)
  }

  /** The loop over the children of `subst`, up to the inline `add` that ends it. */
  predicate SubstSound(n: Node, i: nat)
    requires n.Elem? && i <= |n.children|
    decreases n, 0, |n.children| - i
  {
    if i == |n.children| then true
    else
      var c := n.children[i];
      if c.Elem? && c.name == "add" then "place" in c.attrs && (c.attrs["place"] == "inline" || SubstSound(n, i + 1))
      else if c.Elem? && c.name == "del" then PartsSound(c, {}, "subst") && SubstSound(n, i + 1)
      else SubstSound(n, i + 1)
  }

  /**
   * The loop over the children of `hi`: both marks of a nested `hi` are
   * looked up, then its first child is transformed; a `gap` is rendered and
   * marked; when the loop runs out, the text is marked unless a nested empty
   * `hi` left a mark, where the source returns None.
   */
  predicate HiSound(n: Node, i: nat, childHi: string)
    requires n.Elem? && i <= |n.children|
    decreases n, 0, |n.children| - i
  {
    if i == |n.children| then childHi == "" && "rend" in n.attrs
    else
      var c := n.children[i];
      if c.Elem? && c.name == "hi" then
        "rend" in c.attrs && "rend" in n.attrs &&
        if c.children == [] then HiSound(n, i + 1, Tags.Hi(c.attrs, ""))
        else c.children[0].Text? || TransformSound(c.children[0])
      else if c.Elem? && c.name == "gap" then Tags.GapParses(c.attrs) && "rend" in n.attrs
      else HiSound(n, i + 1, childHi)
  }

  /** `convert_to_standardized_majuscule` of util.py, the one the parser imports. */
  function Conv(s: string): string {
    Util.ConvertToStandardizedMajuscule(s)
  }

  /** The elements `parse_contents` always hands to `transform` as a whole. */
  const Whole: set<string> := {"expan", "supplied", "subst", "add", "gap", "hi"}

  /** The element names `transform` knows; every other name gives nothing. */
  const Known: set<string> := {"lb", "gap", "space", "supplied", "unclear", "milestone", "expan", "ex", "add", "num",
                               "lem", "orig", "sic", "subst", "del", "g", "surplus", "abbr", "hi", "q"}

  /** The names whose element gives its own converted text. */
  const Verbatim: set<string> := {"lem", "orig", "sic", "surplus", "abbr", "q"}

  const UnderDot: char := '\U{0323}'

  /**
   * `parse_contents(sibling, parent_name=parent)`: a regularised reading, or
   * anything directly inside one, gives nothing; so do a variant reading and
   * a deletion at the top level; an element without children or of a kind
   * in `Whole` is transformed with its stripped text; any other element is
   * transformed once per string child, and its element children are parsed
   * in turn. Spaces are dropped from the result except from the output of a
   * `space` element without children.
   */
  function ParseContents(n: Node, parent: string): (r: string)
    requires n.Elem? && Sound(n, parent)
    ensures n.name != "space" ==> ' ' !in r
    decreases n, 4
  {
    if n.name == "reg" || parent == "reg" then ""
    else if n.name == "rdg" || (n.name == "del" && parent == "") then ""
    else if n.children == [] || n.name in Whole then
      var t := Transform(n, Strip(TextOf(n)), parent);
      if n.name == "space" then t else RemoveChar(t, ' ')
    else RemoveChar(ContentsFrom(n, parent, 0), ' ')
  }

  /** The loop of `parse_contents` over the children, from the i-th on. */
  function ContentsFrom(n: Node, parent: string, i: nat): string
    requires n.Elem? && ContentsSound(n) && i <= |n.children|
    decreases n, 3, |n.children| - i
  {
    if i == |n.children| then ""
    else
      var c := n.children[i];
      (match c
       case Text(s) => Transform(n, Strip(s), parent)
       case Elem(_, _, _) => ParseContents(c, n.name))
      + ContentsFrom(n, parent, i + 1)
  }

  /** `transform(n.name, n.attrs, text, n, parent)`. */
  function Transform(n: Node, rawText: string, parent: string): string
    requires n.Elem? && TransformSound(n)
    decreases n, 2
  {
    var tag, a, text := n.name, n.attrs, Conv(rawText);
    if tag == "lb" then "\n"
    else if tag == "gap" then Tags.Gap(a)
    else if tag == "space" then Tags.Space(a)
    else if tag == "supplied" then Tags.Supplied(SuppliedFrom(n, 0), a)
    else if tag == "unclear" then Tags.EachLetterMarked(text, [UnderDot])
    else if tag == "milestone" then Tags.Milestone(a)
    else if tag == "expan" then
      var (p, e) := ExpanFrom(n, 0);
      if p != "" then p else e
    else if tag == "ex" then ""
    else if tag == "add" then Tags.Add(AddFrom(n, 0), a)
    else if tag == "num" then (if "tick" in a then text + "'" else text)
    else if tag in Verbatim then text
    else if tag == "subst" then Brackets.RemoveDashGroups(SubstFrom(n, 0, ""))
    else if tag == "del" then (if parent == "subst" then text else "")
    else if tag == "g" then Tags.GType(a)
    else if tag == "hi" then HiFrom(n, text, 0, "")
    else ""
  }

  /** The text under `supplied`: element children parsed, string children converted. */
  function SuppliedFrom(n: Node, i: nat): string
    requires n.Elem? && PartsSound(n, {""}, "") && i <= |n.children|
    decreases n, 1, |n.children| - i
  {
    if i == |n.children| then ""
    else
      var c := n.children[i];
      (match c
       case Text(s) => Conv(Strip(s))
       case Elem(name, _, _) => if name != "" then ParseContents(c, "") else "")
      + SuppliedFrom(n, i + 1)
  }

  /**
   * The two texts under `expan`: the converted strings and parsed elements,
   * and the symbols of its `ex` children.
   */
  function ExpanFrom(n: Node, i: nat): (string, string)
    requires n.Elem? && PartsSound(n, {"ex"}, "") && i <= |n.children|
    decreases n, 1, |n.children| - i
  {
    if i == |n.children| then ("", "")
    else
      var c := n.children[i];
      var (p, e) := ExpanFrom(n, i + 1);
      match c
      case Text(s) => (Conv(s) + p, e)
      case Elem(name, _, _) =>
        if name == "ex" then (p, Tags.Ex(Conv(Strip(TextOf(c)))) + e)
        else (ParseContents(c, "") + p, e)
  }

  /** The text under `add`. */
  function AddFrom(n: Node, i: nat): string
    requires n.Elem? && PartsSound(n, {}, "") && i <= |n.children|
    decreases n, 1, |n.children| - i
  {
    if i == |n.children| then ""
    else
      var c := n.children[i];
      (match c
       case Text(s) => Conv(Strip(s))
       case Elem(_, _, _) => ParseContents(c, ""))
      + AddFrom(n, i + 1)
  }

  /**
   * The loop of `transform` over the children of `subst`: an inline `add`
   * replaces everything gathered so far and ends the loop; the contents of
   * each `del` are gathered.
   */
  function SubstFrom(n: Node, i: nat, acc: string): string
    requires n.Elem? && n.name == "subst" && i <= |n.children| && SubstSound(n, i)
    decreases n, 1, |n.children| - i
  {
    if i == |n.children| then acc
    else
      var c := n.children[i];
      if c.Elem? && c.name == "add" && c.attrs["place"] == "inline" then Conv(TextOf(c))
      else if c.Elem? && c.name == "del" then SubstFrom(n, i + 1, acc + DelFrom(c, 0))
      else SubstFrom(n, i + 1, acc)
  }

  /** The contents of a `del` inside `subst`. */
  function DelFrom(d: Node, j: nat): string
    requires d.Elem? && PartsSound(d, {}, "subst") && j <= |d.children|
    decreases d, 1, |d.children| - j
  {
    if j == |d.children| then ""
    else
      var c := d.children[j];
      (match c
       case Text(s) => Conv(Strip(s))
       case Elem(_, _, _) => ParseContents(c, "subst"))
      + DelFrom(d, j + 1)
  }

  /**
   * The loop of `transform` over the children of `hi`. A nested `hi` with
   * content gives that content, then the outer mark, then the inner one; a
   * `gap` child gives the gap with the mark; otherwise the mark goes on the
   * element's own text. When the only nested `hi` is empty but has a mark,
   * the source falls through and returns None, which its caller cannot add
   * to a string; `HiSound` rules that case out.
   */
  function HiFrom(n: Node, text: string, i: nat, childHi: string): string
    requires n.Elem? && n.name == "hi" && i <= |n.children| && HiSound(n, i, childHi)
    decreases n, 1, |n.children| - i
  {
    if i == |n.children| then Tags.Hi(n.attrs, text)
    else
      var c := n.children[i];
      if c.Elem? && c.name == "hi" then
        var inner, outer := Tags.Hi(c.attrs, ""), Tags.Hi(n.attrs, "");
        if c.children == [] then HiFrom(n, text, i + 1, inner)
        else
          var first := c.children[0];
          match first
          case Text(_) => Conv(TextOf(c)) + outer + inner
          case Elem(_, _, _) => Transform(first, TextOf(first), c.name) + outer + inner
      else if c.Elem? && c.name == "gap" then Tags.Hi(n.attrs, Tags.Gap(c.attrs))
      else HiFrom(n, text, i + 1, childHi)
  }

  // ---------------------------------------------------------------------------
  // Dispatch
  // ---------------------------------------------------------------------------

  /** The conversion deletes every space. */
  lemma ConvNoSpace(s: string)
    ensures ' ' !in Conv(s)
  {
    var r := Conv(s);
    assert ' ' in Util.StripClass;
    forall i | 0 <= i < |r|
      ensures r[i] != ' '
    {
    }
  }

  /** Spaces survive only in the output of a `space` element without children. */
  lemma ParseContentsSpaces(n: Node, parent: string)
    requires n.Elem? && Sound(n, parent)
    ensures ' ' in ParseContents(n, parent) ==> n.name == "space" && n.children == []
  {
    assert "space" !in Whole;
  }

  /** The `hi` branch of `transform`, unfolded (a helper for the lemmas below). */
  lemma TransformHi(n: Node, text: string, parent: string)
    requires n.Elem? && n.name == "hi" && TransformSound(n)
    ensures Transform(n, text, parent) == HiFrom(n, Conv(text), 0, "")
  {
    assert "hi" !in Verbatim;
    assert HiSound(n, 0, "");
  }

  /** The `expan` branch of `transform`, unfolded (a helper for `ExpanOfEx`). */
  lemma TransformExpan(n: Node, text: string, parent: string)
    requires n.Elem? && n.name == "expan" && TransformSound(n)
    ensures Transform(n, text, parent) == (if ExpanFrom(n, 0).0 != "" then ExpanFrom(n, 0).0 else ExpanFrom(n, 0).1)
  {
  }

  /**
   * A regularised reading, and every element directly inside one, gives
   * nothing, whatever it holds: its contents are never looked into.
   */
  lemma RegGivesNothing(n: Node, parent: string)
    requires n.Elem? && (n.name == "reg" || parent == "reg")
    ensures Sound(n, parent) && ParseContents(n, parent) == ""
  {
  }

  /** A variant reading, and a deletion at the top level, give nothing, whatever they hold. */
  lemma RdgGivesNothing(n: Node, parent: string)
    requires n.Elem? && (n.name == "rdg" || (n.name == "del" && parent == ""))
    ensures Sound(n, parent) && ParseContents(n, parent) == ""
  {
  }

  /** A line break starts a new line. */
  lemma LbIsNewline(n: Node, parent: string)
    requires n.Elem? && n.name == "lb" && n.children == [] && parent != "reg"
    ensures Sound(n, parent) && ParseContents(n, parent) == "\n"
  {
    assert ' ' !in "\n";
    RemoveCharAbsent("\n", ' ');
  }

  /** `transform` of an element it does not know, of `ex`, and of `del` outside `subst`. */
  predicate Silent(n: Node, parent: string)
    requires n.Elem?
  {
    n.name !in Known || n.name == "ex" || (n.name == "del" && parent != "subst")
  }

  lemma UnknownTransform(n: Node, text: string, parent: string)
    requires n.Elem? && n.name !in Known
    ensures TransformSound(n) && Transform(n, text, parent) == ""
  {
    var t := n.name;
    assert t != "lb" && t != "gap" && t != "space" && t != "supplied" && t != "unclear";
    assert t != "milestone" && t != "expan" && t != "ex" && t != "add" && t != "num";
    assert t !in Verbatim;
    assert t != "subst" && t != "del" && t != "g" && t != "hi";
  }

  lemma SilentTransform(n: Node, text: string, parent: string)
    requires n.Elem? && Silent(n, parent)
    ensures TransformSound(n) && Transform(n, text, parent) == ""
  {
    if n.name !in Known {
      UnknownTransform(n, text, parent);
    } else if n.name == "ex" {
    } else {
      assert n.name !in Verbatim;
    }
  }

  /** A silent element whose children are strings only gives nothing, whatever its strings. */
  lemma {:induction false} SilentContents(n: Node, parent: string, i: nat)
    requires n.Elem? && ContentsSound(n) && Silent(n, parent) && i <= |n.children|
    requires forall k | i <= k < |n.children| :: n.children[k].Text?
    ensures ContentsFrom(n, parent, i) == ""
    decreases |n.children| - i
  {
    if i < |n.children| {
      SilentTransform(n, Strip(n.children[i].s), parent);
      SilentContents(n, parent, i + 1);
    }
  }

  /**
   * An unknown element, `ex`, or a deletion that is not inside `subst`,
   * holding only strings, gives nothing.
   */
  lemma SilentGivesNothing(n: Node, parent: string)
    requires n.Elem? && Silent(n, parent)
    requires forall k | 0 <= k < |n.children| :: n.children[k].Text?
    ensures Sound(n, parent) && ParseContents(n, parent) == ""
  {
    SilentTransform(n, "", parent);
    if n.name == "reg" || parent == "reg" || n.name == "rdg" || (n.name == "del" && parent == "") {
    } else if n.children == [] || n.name in Whole {
      SilentTransform(n, Strip(TextOf(n)), parent);
    } else {
      assert ContentsSound(n);
      SilentContents(n, parent, 0);
    }
  }

  /** Restored text never shows: a `supplied` element gives brackets and dashes only. */
  lemma SuppliedShowsNoLetters(n: Node, parent: string)
    requires n.Elem? && Sound(n, parent) && n.name == "supplied"
    ensures forall i | 0 <= i < |ParseContents(n, parent)| :: ParseContents(n, parent)[i] in "[-]"
  {
    var r := ParseContents(n, parent);
    if !(parent == "reg") {
      var t := Transform(n, Strip(TextOf(n)), parent);
      assert forall i | 0 <= i < |t| :: t[i] in "[-]";
      assert r == RemoveChar(t, ' ');
      forall i | 0 <= i < |r|
        ensures r[i] in "[-]"
      {
        assert r[i] in r;
        assert r[i] in t;
      }
    }
  }

  /** The walk over children of `hi` none of which is a `hi` or a `gap` ends by marking the text. */
  lemma {:induction false} HiFromPlain(n: Node, text: string, i: nat)
    requires n.Elem? && n.name == "hi" && "rend" in n.attrs && i <= |n.children|
    requires forall k | i <= k < |n.children| :: !(n.children[k].Elem? && n.children[k].name in {"hi", "gap"})
    ensures HiSound(n, i, "") && HiFrom(n, text, i, "") == Tags.Hi(n.attrs, text)
    decreases |n.children| - i
  {
    if i < |n.children| {
      HiFromPlain(n, text, i + 1);
    }
  }

  /**
   * A `hi` without a `hi` or `gap` child marks its own converted text as its
   * `rend` says, so every letter of the text is kept (`Tags.HiKeepsText`).
   */
  lemma HiMarksText(n: Node, text: string, parent: string)
    requires n.Elem? && n.name == "hi" && "rend" in n.attrs
    requires forall k | 0 <= k < |n.children| :: !(n.children[k].Elem? && n.children[k].name in {"hi", "gap"})
    ensures TransformSound(n) && Transform(n, text, parent) == Tags.Hi(n.attrs, Conv(text))
  {
    HiFromPlain(n, Conv(text), 0);
    TransformHi(n, text, parent);
  }

  /** A `hi` holding a `hi` that holds a string: the string, then the outer mark, then the inner one. */
  lemma NestedHi(outer: Attrs, inner: Attrs, s: string, text: string, parent: string)
    requires "rend" in outer && "rend" in inner
    ensures var n := Elem("hi", outer, [Elem("hi", inner, [Text(s)])]);
      TransformSound(n) && Transform(n, text, parent) == Conv(s) + Tags.Hi(outer, "") + Tags.Hi(inner, "")
  {
    var c := Elem("hi", inner, [Text(s)]);
    var n := Elem("hi", outer, [c]);
    assert HiSound(n, 0, "");
    assert TextOf(c) == s by {
      assert TextsFrom(c, 1) == "";
      assert TextsFrom(c, 0) == TextOf(Text(s)) + TextsFrom(c, 1);
      assert s + "" == s;
    }
    TransformHi(n, text, parent);
  }

  /** A `hi` holding a `gap`: the gap marked as the rendering says. */
  lemma HiOverGap(a: Attrs, g: Attrs, text: string, parent: string)
    requires "rend" in a && Tags.GapParses(g)
    ensures var n := Elem("hi", a, [Elem("gap", g, [])]);
      TransformSound(n) && Transform(n, text, parent) == Tags.Hi(a, Tags.Gap(g))
  {
    var n := Elem("hi", a, [Elem("gap", g, [])]);
    assert HiSound(n, 0, "");
    TransformHi(n, text, parent);
  }

  /** An abbreviation whose expansion is written in `ex` only gives the expansion's symbol. */
  lemma ExpanOfEx(a: Attrs, e: Attrs, s: string, parent: string)
    ensures var n := Elem("expan", a, [Elem("ex", e, [Text(s)])]);
      TransformSound(n) && Transform(n, "", parent) == Tags.Ex(Conv(Strip(s)))
  {
    var x := Elem("ex", e, [Text(s)]);
    var n := Elem("expan", a, [x]);
    assert PartsSound(n, {"ex"}, "");
    assert TextOf(x) == s by {
      assert TextsFrom(x, 1) == "";
      assert TextsFrom(x, 0) == TextOf(Text(s)) + TextsFrom(x, 1);
      assert s + "" == s;
    }
    assert ExpanFrom(n, 1) == ("", "");
    TransformExpan(n, "", parent);
  }

  // ---------------------------------------------------------------------------
  // The walk over the siblings of a text block
  // ---------------------------------------------------------------------------

  /**
   * The siblings that follow the first `lb` of the element in document
   * order (`find_all('lb')[0].next_sibling` and onwards), or None when it
   * holds no `lb`.
   */
  function FirstLbSiblings(n: Node): Option<seq<Node>>
    decreases n, 1
  {
    match n
    case Text(_) => None
    case Elem(_, _, _) => LbFrom(n, 0)
  }

  function LbFrom(n: Node, i: nat): Option<seq<Node>>
    requires n.Elem? && i <= |n.children|
    decreases n, 0, |n.children| - i
  {
    if i == |n.children| then None
    else
      var c := n.children[i];
      if c.Elem? && c.name == "lb" then Some(n.children[i + 1..])
      else
        match FirstLbSiblings(c)
        case Some(sibs) => Some(sibs)
        case None => LbFrom(n, i + 1)
  }

  /** What the sibling loop needs of one sibling: an element is parsed at the top level. */
  predicate SiblingSound(n: Node) {
    n.Elem? ==> Sound(n, "")
  }

  /** What one sibling adds to the block's text: strings are stripped and converted, elements parsed. */
  function SiblingText(n: Node): string
    requires SiblingSound(n)
  {
    match n
    case Text(s) => if Strip(s) == "" then "" else Conv(Strip(s))
    case Elem(_, _, _) => ParseContents(n, "")
  }

  /** The text of a block: the texts of its siblings, one after the other. */
  function BlockText(sibs: seq<Node>): string
    requires forall k | 0 <= k < |sibs| :: SiblingSound(sibs[k])
  {
    if sibs == [] then "" else BlockText(sibs[..|sibs| - 1]) + SiblingText(sibs[|sibs| - 1])
  }

  /** The text of a block as a total function: nothing when a sibling is not well formed. */
  function BlockTextOf(sibs: seq<Node>): string {
    if forall k | 0 <= k < |sibs| :: SiblingSound(sibs[k]) then BlockText(sibs) else ""
  }

  /**
   * The sibling loop of a text block runs through: every element after its
   * first `lb` is one `parse_contents` handles without an exception.
   */
  predicate BlockSound(ab: Node) {
    FirstLbSiblings(ab).Some? ==> forall k | 0 <= k < |FirstLbSiblings(ab).value| :: SiblingSound(FirstLbSiblings(ab).value[k])
  }

  /** One more sibling through the loop. */
  lemma BlockTextStep(sibs: seq<Node>, i: nat)
    requires i < |sibs| && forall k | 0 <= k < |sibs| :: SiblingSound(sibs[k])
    ensures BlockText(sibs[..i + 1]) == BlockText(sibs[..i]) + SiblingText(sibs[i])
  {
    assert sibs[..i + 1][..i] == sibs[..i];
  }

  /** The sibling loop of `convert_to_d5`. */
  method WalkSiblings(sibs: seq<Node>) returns (text: string)
    requires forall k | 0 <= k < |sibs| :: SiblingSound(sibs[k])
    ensures text == BlockText(sibs)
  {
    text := "";
    var i := 0;
    while i < |sibs|
      invariant 0 <= i <= |sibs|
      invariant text == BlockText(sibs[..i])
    {
      var sibling := sibs[i];
      BlockTextStep(sibs, i);
      if sibling.Text? && Strip(sibling.s) == "" {
        i := i + 1;
        continue;
      }
      if sibling.Elem? {
        text := text + ParseContents(sibling, "");
      } else {
        text := text + Conv(Strip(sibling.s));
      }
      i := i + 1;
    }
    assert sibs[..i] == sibs;
  }

  /** Spaces in the text of a block come only from `space` elements without children. */
  lemma {:induction false} BlockSpaces(sibs: seq<Node>)
    requires forall k | 0 <= k < |sibs| :: SiblingSound(sibs[k])
    ensures ' ' in BlockText(sibs) ==> exists k | 0 <= k < |sibs| :: sibs[k].Elem? && sibs[k].name == "space" && sibs[k].children == []
  {
    if sibs != [] {
      var init, last := sibs[..|sibs| - 1], sibs[|sibs| - 1];
      BlockSpaces(init);
      if ' ' in BlockText(sibs) {
        if ' ' in BlockText(init) {
          var k :| 0 <= k < |init| && init[k].Elem? && init[k].name == "space" && init[k].children == [];
          assert sibs[k] == init[k];
        } else {
          assert ' ' in SiblingText(last);
          if last.Text? {
            ConvNoSpace(Strip(last.s));
          } else {
            ParseContentsSpaces(last, "");
          }
        }
      }
    }
  }
}
