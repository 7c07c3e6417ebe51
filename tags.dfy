/**
 * The per-tag rendering rules of the TEI parser: each EpiDoc element that
 * carries a fixed meaning (gap, space, supplied, milestone, ex, add, g, hi)
 * becomes a short run of characters of the output line.
 */
module Tags {
  import opened Strings

  /** The attributes of an element, by name. */
  type Attrs = map<string, string>

  /** The value under k, when there is one, is an integer literal. */
  predicate LiteralIfPresent(a: Attrs, k: string) {
    k in a ==> IsIntLiteral(a[k])
  }

  /**
   * `int(attr['atLeast']) + int(attr['atMost'])`: `atLeast` is read first, so
   * when it is present it must be an integer literal, and `atMost` then too
   * when present. A missing key raises the KeyError that gives the unknown
   * rendering.
   */
  predicate BoundsParse(a: Attrs) {
    "atLeast" in a ==> IsIntLiteral(a["atLeast"]) && LiteralIfPresent(a, "atMost")
  }

  /**
   * The values `gap` hands to `int()` on the branch it takes are integer
   * literals: a non-numeric value there raises ValueError, which nothing
   * catches. Values the branch does not read may be anything.
   */
  predicate GapParses(a: Attrs) {
    "unit" in a && a["unit"] != "line" && "reason" in a ==>
      if a["reason"] == "illegible" then
        (if "quantity" in a then IsIntLiteral(a["quantity"]) else BoundsParse(a))
      else if "quantity" in a then IsIntLiteral(a["quantity"])
      else "extent" in a || BoundsParse(a)
  }

  /** The same for `space`. */
  predicate SpaceParses(a: Attrs) {
    "unit" in a && a["unit"] != "line" ==>
      if "quantity" in a then IsIntLiteral(a["quantity"]) else BoundsParse(a)
  }

  /** `int()` of the value under k. */
  function Num(a: Attrs, k: string): int
    requires k in a && IsIntLiteral(a[k])
  {
    IntValue(a[k])
  }

  /**
   * `round((lo + hi) / 2)`: the nearest integer to the mean, ties going to
   * the even neighbour, as Python's `round` does.
   */
  function RoundedMean(lo: int, hi: int): (r: int)
    ensures -1 <= 2 * r - (lo + hi) <= 1
    ensures 2 * r != lo + hi ==> r % 2 == 0
  {
    var s := lo + hi;
    if s % 2 == 0 then s / 2
    else if (s / 2) % 2 == 0 then s / 2
    else s / 2 + 1
  }

  /** No other integer is as near to the mean and as even: the rounding is unique. */
  lemma RoundedMeanUnique(lo: int, hi: int, r: int)
    requires -1 <= 2 * r - (lo + hi) <= 1
    requires 2 * r != lo + hi ==> r % 2 == 0
    ensures r == RoundedMean(lo, hi)
  {
  }

  /** A run of n dashes, one per missing character. */
  function Dashes(n: int): (r: string)
    ensures |r| == (if n > 0 then n else 0)
    ensures forall i | 0 <= i < |r| :: r[i] == '-'
  {
    Repeat('-', n)
  }

  /** A bracketed run of n dashes. */
  function Bracketed(n: int): (r: string)
    ensures |r| == 2 + (if n > 0 then n else 0)
    ensures r[0] == '[' && r[|r| - 1] == ']'
  {
    "[" + Dashes(n) + "]"
  }

  /** The characters with which gap and supplied mark lost or illegible text. */
  predicate IsGapMark(c: char) {
    c == '[' || c == ']' || c == '-' || c == '?'
  }

  /**
   * `gap`: lines lost render as nothing, lost characters as a bracketed run
   * of dashes, illegible characters as bare dashes, and an unknown extent as
   * `[?]`. Every missing key that the source looks up gives `[?]`.
   */
  function Gap(a: Attrs): (r: string)
    requires GapParses(a)
    ensures forall i | 0 <= i < |r| :: IsGapMark(r[i])
    ensures "unit" !in a ==> r == "[?]"
    ensures "unit" in a && a["unit"] == "line" ==> r == ""
    ensures "unit" in a && a["unit"] != "line" && "reason" !in a ==> r == "[?]"
  {
    if "unit" !in a then "[?]"
    else if a["unit"] == "line" then ""
    else if "reason" !in a then "[?]"
    else if a["reason"] == "illegible" then
      if "quantity" in a then Dashes(Num(a, "quantity"))
      else if "atLeast" in a && "atMost" in a then Dashes(RoundedMean(Num(a, "atLeast"), Num(a, "atMost")))
      else "[?]"
    else if "quantity" in a then Bracketed(Num(a, "quantity"))
    else if "extent" in a then (if a["extent"] == "unknown" then "[?]" else "")
    else if "atLeast" in a then
      if "atMost" in a then Bracketed(RoundedMean(Num(a, "atLeast"), Num(a, "atMost"))) else "[?]"
    else "[?]"
  }

  /** A gap of characters with a known quantity: that many dashes, bracketed unless illegible. */
  lemma GapQuantity(a: Attrs)
    requires GapParses(a) && "unit" in a && a["unit"] != "line" && "reason" in a && "quantity" in a
    ensures var q := Num(a, "quantity");
      Count(Gap(a), '-') == (if q > 0 then q else 0) &&
      (a["reason"] == "illegible" <==> Gap(a) == Dashes(q)) &&
      (a["reason"] != "illegible" <==> Gap(a) == Bracketed(q))
  {
    var q := Num(a, "quantity");
    CountRepeat('-', '-', q);
    if a["reason"] == "illegible" {
      assert Gap(a) != Bracketed(q) by { assert Bracketed(q)[0] == '['; }
    } else {
      CountAppend("[", Dashes(q), '-');
      CountAppend("[" + Dashes(q), "]", '-');
      assert Gap(a) != Dashes(q) by { assert Gap(a)[0] == '['; }
    }
  }

  /** A gap bounded by atLeast and atMost: the rounded mean of the bounds, as dashes. */
  lemma GapBounds(a: Attrs)
    requires GapParses(a) && "unit" in a && a["unit"] != "line" && "reason" in a
    requires "quantity" !in a && "atLeast" in a && "atMost" in a
    requires a["reason"] == "illegible" || "extent" !in a
    ensures var m := RoundedMean(Num(a, "atLeast"), Num(a, "atMost"));
      Gap(a) == (if a["reason"] == "illegible" then Dashes(m) else Bracketed(m))
  {
  }

  /** An illegible gap with neither a quantity nor both bounds is unknown. */
  lemma GapIllegibleUnknown(a: Attrs)
    requires GapParses(a) && "unit" in a && a["unit"] != "line" && "reason" in a
    requires a["reason"] == "illegible" && "quantity" !in a && !("atLeast" in a && "atMost" in a)
    ensures Gap(a) == "[?]"
  {
  }

  /**
   * `space`: a vacat becomes that many spaces; an unknown extent, or a
   * missing `unit`, becomes ` ? `.
   */
  function Space(a: Attrs): (r: string)
    requires SpaceParses(a)
    ensures forall i | 0 <= i < |r| :: r[i] == ' ' || r[i] == '?'
    ensures "unit" !in a ==> r == " ? "
    ensures "unit" in a && a["unit"] == "line" ==> r == ""
    ensures "unit" in a && a["unit"] != "line" && "quantity" in a ==> r == Repeat(' ', Num(a, "quantity"))
  {
    if "unit" !in a then " ? "
    else if a["unit"] == "line" then ""
    else if "quantity" in a then Repeat(' ', Num(a, "quantity"))
    else if "atLeast" in a then
      if "atMost" in a then Repeat(' ', RoundedMean(Num(a, "atLeast"), Num(a, "atMost"))) else " ? "
    else if "extent" in a then " ? "
    else ""
  }

  /**
   * `supplied`: text restored by the editor is replaced by one dash per
   * character other than a space, in brackets; text the scribe omitted, or
   * nothing left after dropping spaces, gives nothing.
   */
  function Supplied(text: string, a: Attrs): (r: string)
    ensures forall i | 0 <= i < |r| :: r[i] == '[' || r[i] == '-' || r[i] == ']'
    ensures "reason" in a && a["reason"] == "omitted" ==> r == ""
    ensures r == "" || (|r| == |text| - Count(text, ' ') + 2 && r[0] == '[' && r[|r| - 1] == ']')
  {
    var kept := RemoveChar(text, ' ');
    if "reason" in a && a["reason"] == "omitted" then ""
    else if |kept| >= 1 then Bracketed(|kept|)
    else ""
  }

  /** None of the restored letters reaches the output. */
  lemma SuppliedHidesLetters(text: string, a: Attrs, c: char)
    requires c != '[' && c != '-' && c != ']'
    ensures c !in Supplied(text, a)
  {
  }

  /** Supplied text that is not omitted and not all spaces gives a bracketed dash per letter. */
  lemma SuppliedCount(text: string, a: Attrs)
    requires !("reason" in a && a["reason"] == "omitted")
    requires exists i | 0 <= i < |text| :: text[i] != ' '
    ensures Supplied(text, a) == Bracketed(|text| - Count(text, ' '))
  {
    var i :| 0 <= i < |text| && text[i] != ' ';
    var kept := RemoveChar(text, ' ');
    if kept == [] {
      RemovedOnlyChar(text, ' ', i);
    }
  }

  lemma {:induction false} RemovedOnlyChar(s: string, c: char, i: int)
    requires 0 <= i < |s| && s[i] != c
    ensures RemoveChar(s, c) != []
  {
    if i > 0 {
      RemovedOnlyChar(s[1..], c, i - 1);
    }
  }

  /** The milestone marks, each on a line of its own. */
  const MilestoneMap: map<string, string> := map[
      "paragraphos" := "\n\U{2E0F}",
      "horizontal-rule" := "\n\U{2015}",
      "diple-obelismene" := "\n\U{2E10}",
      "wavy-line" := "\n\U{223C}",
      "coronis" := "\n\U{2E0E}"
  ]

  /** `milestone`: a known `rend` starts a new line holding its mark; anything else gives nothing. */
  function Milestone(a: Attrs): (r: string)
    ensures r == "" || (|r| == 2 && r[0] == '\n')
    ensures r != "" <==> "rend" in a && a["rend"] in MilestoneMap
  {
    if "rend" in a && a["rend"] in MilestoneMap then MilestoneMap[a["rend"]] else ""
  }

  // The abbreviation table, written in parts of twelve entries.
  const ExMapPart0: map<string, string> := map[
      "ΕΤΟΥΣ" := "\U{10179}",
      "ΕΤΟΣ" := "\U{10179}",
      "ΕΤΩΝ" := "\U{10179}",
      "ΕΤΕΣΙ" := "\U{10179}",
      "ΑΡΟΥΡ" := "\U{10187}",
      "ΑΡΤΑΒ" := "\U{10186}",
      "ΧΟΙΝΙ" := "\U{E674}",
      "ΞΕΣΤΗ" := "\U{10185}",
      "ΞΕΣΤΟ" := "\U{10185}",
      "ΞΕΣΤΩ" := "\U{10185}",
      "ΛΙΤΡΑ" := "\U{10183}",
      "ΛΙΤΡΩ" := "\U{10183}"
  ]

  const ExMapPart1: map<string, string> := map[
      "ΟΥΓΚΙ" := "\U{10184}",
      "ΜΕΤΡΕ" := "\U{E63D}",
      "ΜΕΤΡΟ" := "\U{E63D}",
      "ΤΡΙΤΟ" := "\U{2C85}",
      "ΤΕΤΑΡ" := "\U{E606}",
      "ΔΡΑΧΜ" := "\U{1017B}",
      "ΟΒΟΛΟ" := "\U{1017C}",
      "ΔΙΩΒΟ" := "\U{1017D}",
      "ΤΡΙΩΒ" := "\U{1017E}",
      "ΤΕΤΡΩ" := "\U{1017F}",
      "ΠΕΝΤΩ" := "\U{10180}",
      "ΗΜΙΩΒ" := "\U{E675}"
  ]

  const ExMapPart2: map<string, string> := map[
      "ΗΜΙΟΒ" := "\U{E675}",
      "ΧΑΛΚΟ" := "\U{2CAC}",
      "ΔΙΧΑΛ" := "\U{2CAD}",
      "ΚΕΡΑΤ" := "\U{E67D}",
      "ΤΑΛΑΝ" := "\U{1017A}",
      "ΔΗΝΑΡ" := "\U{E6A3}",
      "ΝΟΜΙΣ" := "\U{E696}",
      "ΜΥΡΙΑ" := "\U{E616}",
      "ΠΥΡΟΥ" := "\U{E63E}",
      "ΠΥΡΩ" := "\U{E63E}",
      "ΠΥΡΩΙ" := "\U{E63E}",
      "ΠΥΡΟΝ" := "\U{E63E}"
  ]

  const ExMapPart3: map<string, string> := map[
      "ΠΥΡΟΣ" := "\U{E63E}",
      "ΓΙΝΟΝ" := "\U{E691}",
      "ΓΙΝΕΤ" := "\U{E691}",
      "ΓΙΓΝΟ" := "\U{E691}",
      "ΓΙΓΝΕ" := "\U{E691}",
      "ΛΟΙΠΩ" := "\U{E613}",
      "ΛΟΙΠΟ" := "\U{E613}",
      "ΗΜΙΣΥ" := "\U{10175}",
      "ΠΡΟΣ" := "\U{E688}",
      "ΓΡΑΜΜ" := "\U{E689}",
      "ΖΜΥΡΝ" := "\U{E68A}",
      "ΩΡΑ" := "\U{E68B}"
  ]

  const ExMapPart4: map<string, string> := map[
      "ΩΡΑΣ" := "\U{E68B}",
      "ΜΕΡΙΣ" := "\U{E68C}",
      "ΜΕΡΙΔ" := "\U{E68C}",
      "ΧΕΙΡΙ" := "\U{E68E}",
      "ΧΡΩ" := "\U{2CE9}",
      "ΑΥΤΟΣ" := "\U{E632}",
      "ΑΥΤΟΥ" := "\U{E632}",
      "ΑΥΤΩ" := "\U{E632}",
      "ΑΥΤΩΙ" := "\U{E632}",
      "ΑΥΤΟΝ" := "\U{E632}",
      "ΑΥΤΟΙ" := "\U{E632}",
      "ΑΥΤΩΝ" := "\U{E632}"
  ]

  const ExMapPart5: map<string, string> := map[
      "ΑΥΤΗ" := "\U{E632}",
      "ΑΥΤΗΣ" := "\U{E632}",
      "ΑΥΤΗΙ" := "\U{E632}",
      "ΑΥΤΗΝ" := "\U{E632}",
      "ΑΥΤΑΙ" := "\U{E632}",
      "ΑΥΤΑΣ" := "\U{E632}",
      "ΧΑΙΡΕ" := "\U{E687}",
      "ΥΠΕΡ" := "\U{E67A}",
      "ΟΜΟΥ" := "\U{E670}",
      "ΙΝΔΙΚ" := "\U{E698}",
      "ΔΙΜΟΙ" := "\U{E698}"
  ]

  /** The abbreviation symbols, keyed by the first five letters of the expansion. */
  const ExMap: map<string, string> := ExMapPart0 + ExMapPart1 + ExMapPart2 + ExMapPart3 + ExMapPart4 + ExMapPart5

  /** The symbol for an unknown abbreviation: U+2105. */
  const UnknownAbbreviation: char := '\U{2105}'

  /** Every abbreviation symbol is one character, and none is U+2105. */
  predicate SymbolEntries(m: map<string, string>) {
    forall k | k in m :: |m[k]| == 1 && m[k][0] != UnknownAbbreviation
  }

  lemma SymbolEntriesUnion(m1: map<string, string>, m2: map<string, string>)
    requires SymbolEntries(m1) && SymbolEntries(m2)
    ensures SymbolEntries(m1 + m2)
  {
  }

  lemma ExMapPart0Checked() ensures SymbolEntries(ExMapPart0) {}
  lemma ExMapPart1Checked() ensures SymbolEntries(ExMapPart1) {}
  lemma ExMapPart2Checked() ensures SymbolEntries(ExMapPart2) {}
  lemma ExMapPart3Checked() ensures SymbolEntries(ExMapPart3) {}
  lemma ExMapPart4Checked() ensures SymbolEntries(ExMapPart4) {}
  lemma ExMapPart5Checked() ensures SymbolEntries(ExMapPart5) {}

  lemma ExMapEntries()
    ensures SymbolEntries(ExMap)
  {
    ExMapPart0Checked();
    ExMapPart1Checked();
    ExMapPart2Checked();
    ExMapPart3Checked();
    ExMapPart4Checked();
    ExMapPart5Checked();
    SymbolEntriesUnion(ExMapPart0, ExMapPart1);
    SymbolEntriesUnion(ExMapPart0 + ExMapPart1, ExMapPart2);
    SymbolEntriesUnion(ExMapPart0 + ExMapPart1 + ExMapPart2, ExMapPart3);
    SymbolEntriesUnion(ExMapPart0 + ExMapPart1 + ExMapPart2 + ExMapPart3, ExMapPart4);
    SymbolEntriesUnion(ExMapPart0 + ExMapPart1 + ExMapPart2 + ExMapPart3 + ExMapPart4, ExMapPart5);
  }

  /** The first n characters of s, as Python's `s[0:n]`. */
  function Take(s: string, n: nat): (r: string)
    ensures |r| == if |s| < n then |s| else n
    ensures r == s[..|r|]
  {
    if |s| <= n then s else s[..n]
  }

  /**
   * `ex`: the first five letters of an expansion select a symbol; an
   * unknown expansion gives U+2105.
   */
  function Ex(text: string): (r: string)
    ensures |r| == 1
    ensures r == [UnknownAbbreviation] <==> Take(text, 5) !in ExMap
  {
    ExMapEntries();
    if Take(text, 5) in ExMap then ExMap[Take(text, 5)] else [UnknownAbbreviation]
  }

  /** Only the first five letters decide. */
  lemma ExPrefix(text: string)
    ensures Ex(text) == Ex(Take(text, 5))
  {
  }

  /** `add`'s arrows, one per placement. */
  const ArrowUp: char := '\U{2191}'
  const ArrowDown: char := '\U{2193}'
  const ArrowLeft: char := '\U{2190}'
  const ArrowRight: char := '\U{2192}'
  const ArrowMargin: char := '\U{2194}'
  const ArrowBottom: char := '\U{21A1}'
  const ArrowTop: char := '\U{219F}'

  /** Text to be placed on a new line before the current one, between `<` marks. */
  function Above(t: string): string { "<" + t + "<" }

  /** Text to be placed on a new line after the current one, between `>` marks. */
  function Below(t: string): string { ">" + t + ">" }

  /**
   * `add`: an addition above, left or between the lines goes to the line
   * before the current one, an addition below or right to the line after it
   * (each after an arrow); a single letter above stays inline; additions in
   * the margin, at the bottom or top leave only their arrow; any other place
   * keeps the text inline. Without `place` the source returns None, which
   * the model renders as nothing.
   */
  function Add(text: string, a: Attrs): (r: string)
    ensures "place" !in a ==> r == ""
    ensures "place" in a && a["place"] == "above" ==>
      r == (if |text| > 1 then [ArrowUp] + Above(text) else text)
    ensures "place" in a && a["place"] == "below" ==> r == [ArrowDown] + Below(text)
    ensures "place" in a && a["place"] == "left" ==> r == [ArrowLeft] + Above(text)
    ensures "place" in a && a["place"] == "right" ==> r == [ArrowRight] + Below(text)
    ensures "place" in a && a["place"] in {"margin", "bottom", "top"} ==> |r| == 1
    ensures "place" in a && a["place"] == "interlinear" ==> r == Above(text)
    ensures "place" in a && a["place"] !in AddPlaces ==> r == text
  {
    if "place" !in a then ""
    else
      var place := a["place"];
      if place == "above" then
        if |text| > 1 then [ArrowUp] + Above(text) else if |text| == 1 then text else ""
      else if place == "below" then [ArrowDown] + Below(text)
      else if place == "left" then [ArrowLeft] + Above(text)
      else if place == "right" then [ArrowRight] + Below(text)
      else if place == "margin" then [ArrowMargin]
      else if place == "bottom" then [ArrowBottom]
      else if place == "top" then [ArrowTop]
      else if place == "interlinear" then Above(text)
      else text
  }

  /** The placements `add` knows. */
  const AddPlaces: set<string> := {"above", "below", "left", "right", "margin", "bottom", "top", "interlinear"}

  // The table of `g` symbols, written in parts of twelve entries.
  const GTypeMapPart0: map<string, string> := map[
      "anti-sigma" := "\U{037B}",
      "antisigma" := "\U{037B}",
      "antisigma-periestigmene" := "\U{037D}",
      "apostrophe" := "\U{0027}",
      "asteriskos" := "*",
      "backslash" := "\U{FE68}",
      "backtick" := "\U{2E0C}",
      "brevis" := "\U{02D8}",
      "center-brace-closing" := "\U{23AC}",
      "check" := "\U{2044}",
      "chi-periestigmenon" := "\U{00B7}\U{03A7}\U{00B7}",
      "chirho" := "\U{2627}"
  ]

  const GTypeMapPart1: map<string, string> := map[
      "coronis" := "\U{2E0E}",
      "coronis-lower-half" := "\U{F0224}",
      "cross" := "\U{271D}",
      "dagger" := "\U{2020}",
      "dash" := "\U{2012}",
      "dicolon" := ":",
      "di-punctus" := "\U{205A}",
      "diastole" := "\U{02BC}",
      "diple" := "\U{FE65}",
      "diple-obelismene" := "\U{291A}",
      "diple-periestigmene" := "\U{2E16}",
      "dipunct" := "\U{205A}"
  ]

  const GTypeMapPart2: map<string, string> := map[
      "dot" := "\U{2E31}",
      "dotted-obelos" := "\U{2E13}",
      "double-horizontal-bar" := "\U{0305}\U{0332}",
      "double-slanting-stroke" := "//",
      "double-vertical-bar" := "\U{2016}",
      "downwards-ancora" := "\U{2E15}",
      "filled-circle" := "\U{29BF}",
      "filler" := "\U{07DF}",
      "hedera" := "\U{2766}",
      "high-puctus" := "\U{0387}",
      "high-punctus" := "\U{0387}",
      "high-puncuts" := "\U{0387}"
  ]

  const GTypeMapPart3: map<string, string> := map[
      "hight-punctus" := "\U{0387}",
      "hyphen" := "\U{2010}",
      "hypodiastole" := "\U{2E12}",
      "long-vertical-bar" := "|",
      "low-punctus" := "\U{FE52}",
      "lower-brace-closing" := "\U{23AD}",
      "lower-brace-opening" := "\U{23A9}",
      "middot" := "\U{00B7}",
      "middod" := "\U{00B7}",
      "obelos" := "\U{2015}",
      "obelos-periestigmenos" := "\U{2E13}",
      "parens-deletion-closing" := "\U{23AC}"
  ]

  const GTypeMapPart4: map<string, string> := map[
      "parens-deletion-opening" := "\U{23A8}",
      "parens-lower-closing" := "\U{23A0}",
      "parens-lower-opening" := "\U{239D}",
      "parens-middle-closing" := "\U{239F}",
      "parens-middle-opening" := "\U{239C}",
      "parens-upper-closing" := "\U{239E}",
      "parens-upper-opening" := "\U{239B}",
      "parens-punctuation-closing" := "\U{23AC}",
      "parens-punctuation-opening" := "\U{23A8}",
      "parent-punctuation-opening" := "\U{23A8}",
      "percent" := "%",
      "reverse-dotted-obelos" := "\U{00B7}\U{005C}\U{00B7}"
  ]

  const GTypeMapPart5: map<string, string> := map[
      "rho-cross" := "\U{2CE8}",
      "s-etous" := "\U{10179}",
      "short-vertical-bar" := "\U{E197}",
      "sinusoid-stroke" := "\U{E0E7}",
      "slanting-stroke" := "/",
      "slashed-N" := "\U{203E}",
      "stauros" := "\U{2020}",
      "swungdash" := "~",
      "tetrapunct" := "\U{2058}",
      "tilde" := "~",
      "tripunct" := "\U{22EE}",
      "upper-brace-closing" := "\U{23AB}"
  ]

  const GTypeMapPart6: map<string, string> := map[
      "upper-brace-opening" := "\U{23A7}",
      "upward-pointing-arrowhead" := "\U{2197}",
      "upwards-ancora" := "\U{2E15}",
      "x" := "N",
      "xs" := "NNN"
  ]

  /** The symbols of `g`, by `type`. */
  const GTypeMap: map<string, string> := GTypeMapPart0 + GTypeMapPart1 + GTypeMapPart2 + GTypeMapPart3 + GTypeMapPart4 + GTypeMapPart5 + GTypeMapPart6

  /** Every `g` symbol has one to three characters. */
  predicate GlyphEntries(m: map<string, string>) {
    forall k | k in m :: 1 <= |m[k]| <= 3
  }

  lemma GlyphEntriesUnion(m1: map<string, string>, m2: map<string, string>)
    requires GlyphEntries(m1) && GlyphEntries(m2)
    ensures GlyphEntries(m1 + m2)
  {
  }

  lemma GTypeMapPart0Checked() ensures GlyphEntries(GTypeMapPart0) {}
  lemma GTypeMapPart1Checked() ensures GlyphEntries(GTypeMapPart1) {}
  lemma GTypeMapPart2Checked() ensures GlyphEntries(GTypeMapPart2) {}
  lemma GTypeMapPart3Checked() ensures GlyphEntries(GTypeMapPart3) {}
  lemma GTypeMapPart4Checked() ensures GlyphEntries(GTypeMapPart4) {}
  lemma GTypeMapPart5Checked() ensures GlyphEntries(GTypeMapPart5) {}
  lemma GTypeMapPart6Checked() ensures GlyphEntries(GTypeMapPart6) {}

  lemma GTypeMapEntries()
    ensures GlyphEntries(GTypeMap)
  {
    GTypeMapPart0Checked();
    GTypeMapPart1Checked();
    GTypeMapPart2Checked();
    GTypeMapPart3Checked();
    GTypeMapPart4Checked();
    GTypeMapPart5Checked();
    GTypeMapPart6Checked();
    GlyphEntriesUnion(GTypeMapPart0, GTypeMapPart1);
    GlyphEntriesUnion(GTypeMapPart0 + GTypeMapPart1, GTypeMapPart2);
    GlyphEntriesUnion(GTypeMapPart0 + GTypeMapPart1 + GTypeMapPart2, GTypeMapPart3);
    GlyphEntriesUnion(GTypeMapPart0 + GTypeMapPart1 + GTypeMapPart2 + GTypeMapPart3, GTypeMapPart4);
    GlyphEntriesUnion(GTypeMapPart0 + GTypeMapPart1 + GTypeMapPart2 + GTypeMapPart3 + GTypeMapPart4, GTypeMapPart5);
    GlyphEntriesUnion(GTypeMapPart0 + GTypeMapPart1 + GTypeMapPart2 + GTypeMapPart3 + GTypeMapPart4 + GTypeMapPart5, GTypeMapPart6);
  }

  /** `g`: a known `type` gives its symbol (one to three characters); anything else gives nothing. */
  function GType(a: Attrs): (r: string)
    ensures |r| <= 3
    ensures r == "" <==> !("type" in a && a["type"] in GTypeMap)
  {
    GTypeMapEntries();
    if "type" in a && a["type"] in GTypeMap then GTypeMap[a["type"]] else ""
  }

  /**
   * The result of `add_char_to_each_letter`: every character of s followed
   * by the marks m.
   */
  function EachLetterMarked(s: string, m: string): (r: string)
    ensures |r| == |s| * (|m| + 1)
  {
    if s == [] then "" else [s[0]] + m + EachLetterMarked(s[1..], m)
  }

  lemma {:induction false} EachLetterMarkedAppend(s: string, c: char, m: string)
    ensures EachLetterMarked(s + [c], m) == EachLetterMarked(s, m) + [c] + m
  {
    if s != [] {
      assert (s + [c])[1..] == s[1..] + [c];
      EachLetterMarkedAppend(s[1..], c, m);
    }
  }

  /** Position by position: the i-th character sits at i * (|m| + 1), its marks right after it. */
  lemma {:induction false} EachLetterMarkedAt(s: string, m: string, i: int)
    requires 0 <= i < |s|
    ensures var k := |m| + 1;
      i * k + k <= |EachLetterMarked(s, m)| &&
      EachLetterMarked(s, m)[i * k] == s[i] &&
      EachLetterMarked(s, m)[i * k + 1 .. i * k + k] == m
  {
    var k := |m| + 1;
    var r := EachLetterMarked(s, m);
    assert r == [s[0]] + m + EachLetterMarked(s[1..], m);
    if i > 0 {
      EachLetterMarkedAt(s[1..], m, i - 1);
      assert (i - 1) * k + k == i * k;
    }
  }

  /** `add_char_to_each_letter`: appends the marks after every character of the input. */
  method AddCharToEachLetter(inputString: string, charToAdd: string) returns (result: string)
    ensures result == EachLetterMarked(inputString, charToAdd)
  {
    result := "";
    var i := 0;
    while i < |inputString|
      invariant 0 <= i <= |inputString|
      invariant result == EachLetterMarked(inputString[..i], charToAdd)
    {
      EachLetterMarkedAppend(inputString[..i], inputString[i], charToAdd);
      assert inputString[..i + 1] == inputString[..i] + [inputString[i]];
      result := result + [inputString[i]] + charToAdd;
      i := i + 1;
    }
    assert inputString[..i] == inputString;
  }

  /** The combining marks of `hi`, by `rend`, for the renderings that add one mark after the text. */
  const HiMarks: map<string, char> := map[
      "diaeresis" := '\U{0308}',
      "asper" := '\U{0314}',
      "acute" := '\U{0301}',
      "circumflex" := '\U{0342}',
      "grave" := '\U{0300}',
      "lenis" := '\U{0313}',
      "overdot" := '\U{0307}'
  ]

  const Underline: char := '\U{0332}'
  const Supraline: char := '\U{0305}'

  /** The marks that `hi` adds after every letter, by `rend`. */
  function LetterMarks(rend: string): (r: string)
  {
    if rend == "underlined" || rend == "underline" then [Underline]
    else if rend == "supraline" then [Supraline]
    else if rend == "supraline-underline" then [Supraline, Underline]
    else ""
  }

  /**
   * `hi`: a diacritic rendering appends its combining mark once after the
   * text; underline and supraline mark every letter; any other rendering
   * leaves the text as it is. The source reads `rend` unguarded.
   */
  function Hi(a: Attrs, text: string): (r: string)
    requires "rend" in a
    ensures a["rend"] in HiMarks ==> r == text + [HiMarks[a["rend"]]]
    ensures a["rend"] !in HiMarks && LetterMarks(a["rend"]) != "" ==>
      r == EachLetterMarked(text, LetterMarks(a["rend"])) && |r| == |text| * (|LetterMarks(a["rend"])| + 1)
    ensures a["rend"] !in HiMarks && LetterMarks(a["rend"]) == "" ==> r == text
  {
    var rend := a["rend"];
    if rend in HiMarks then text + [HiMarks[rend]]
    else if LetterMarks(rend) != "" then EachLetterMarked(text, LetterMarks(rend))
    else text
  }

  /** Every rendering keeps the text in front: `hi` only ever adds marks. */
  lemma HiKeepsText(a: Attrs, text: string, i: int)
    requires "rend" in a && 0 <= i < |text|
    ensures var r := Hi(a, text);
      var k := if a["rend"] !in HiMarks then |LetterMarks(a["rend"])| + 1 else 1;
      i * k < |r| && r[i * k] == text[i]
  {
    var rend := a["rend"];
    if rend !in HiMarks && LetterMarks(rend) != "" {
      EachLetterMarkedAt(text, LetterMarks(rend), i);
    } else if rend !in HiMarks {
      assert LetterMarks(rend) == "";
    }
  }
}
