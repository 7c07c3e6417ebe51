/**
 * The stateful part of `Formatter` (papyrser_core/format.py): the check of a
 * formatted line against the allowed characters and the two bracket shapes,
 * with its diagnostics in `error_log`, the automatic correction of Latin
 * letters typed for Greek ones, recorded in `changes`, and the collection of
 * the document languages in `langs`.
 *
 * The messages of the source are modelled as values of `Diagnostic` and
 * `Change` that carry the same data as the formatted strings.
 */
module Format {
  import opened Strings
  import Majuscule
  import PapyrserUtils
  import LineFormat

  type Attrs = map<string, string>

  // ---------------------------------------------------------------------------
  // The character classes of `validate_line`
  // ---------------------------------------------------------------------------

  // The groups of `special_chars`, as written in the source.
  const MilestoneChars: string := "\U{2E0F}\U{2015}\U{1F92}\U{223C}"
  const ExChars: string :=
    "\U{2C85}\U{2CAC}\U{2CAD}\U{E606}\U{E613}\U{E616}\U{E632}\U{E63D}\U{E63E}\U{E670}\U{E674}\U{E675}\U{E67A}\U{E67D}\U{E687}\U{E688}"
    + "\U{E689}\U{E68A}\U{E68B}\U{E68C}\U{E68E}\U{E691}\U{E696}\U{E698}\U{E6A3}\U{2CE9}\U{10175}\U{10179}\U{1017A}\U{1017B}\U{1017C}\U{1017D}"
    + "\U{1017E}\U{1017F}\U{10180}\U{10183}\U{10184}\U{10185}\U{10186}\U{10187}"
  const AddChars: string := "\U{2191}\U{2193}\U{2190}\U{2192}\U{2194}\U{21A1}\U{219F}\U{2105}"
  const GTypeChars: string :=
    "\U{037B}'*\U{FE68}\U{2E0C}\U{2044}\U{00B7}\U{03A7}\U{2627}\U{2E0E}\U{271D}\U{2020}\U{2012}\U{205A}\U{02BC}\U{FE65}"
    + "\U{291A}\U{2E31}\U{2E13}\U{2E15}\U{29BF}\U{07DF}\U{0387}\U{2010}\U{2E12}|\U{FE52}\U{2015}\U{23AC}\U{23A8}\U{23A0}\U{239D}"
    + "\U{239F}\U{239C}\U{239E}\U{239B}%\U{005C}\U{2CE8}\U{10179}\U{E197}\U{E0E7}/\U{203E}\U{2058}~\U{22EE}\U{2197}"
    + "N\U{037B}\U{02D8}\U{23AC}\U{F0224}:\U{0305}\U{0332}//\U{2016}\U{2766}\U{0387}\U{23AD}\U{23A9}\U{00B7}"
    + "\U{2E13}~\U{23AB}\U{23A7}\U{037D}\U{2E16}"
  const HiChars: string := "\U{0308}\U{0314}\U{0301}\U{0342}\U{0300}\U{0313}\U{0307}\U{0332}\U{0305}"
  const UnclearChar: string := "\U{0323}"
  const OtherValidChars: string := "\U{2CE8}\U{10177} "

  // The same groups by code point. Proofs about lines use these comparisons;
  // each one is shown below to hold exactly for the characters of its group.

  /** A character of MilestoneChars. */
  predicate InMilestoneChars(c: char) {
    c == '\U{1F92}' || c == '\U{2015}' || c == '\U{223C}' || c == '\U{2E0F}'
  }

  /** A character of ExChars. */
  predicate InExChars(c: char) {
    c == '\U{2C85}' || '\U{2CAC}' <= c <= '\U{2CAD}' || c == '\U{2CE9}' || c == '\U{E606}'
    || c == '\U{E613}' || c == '\U{E616}' || c == '\U{E632}' || '\U{E63D}' <= c <= '\U{E63E}'
    || c == '\U{E670}' || '\U{E674}' <= c <= '\U{E675}' || c == '\U{E67A}' || c == '\U{E67D}'
    || '\U{E687}' <= c <= '\U{E68C}' || c == '\U{E68E}' || c == '\U{E691}' || c == '\U{E696}'
    || c == '\U{E698}' || c == '\U{E6A3}' || c == '\U{10175}' || '\U{10179}' <= c <= '\U{10180}'
    || '\U{10183}' <= c <= '\U{10187}'
  }

  /** A character of AddChars. */
  predicate InAddChars(c: char) {
    c == '\U{2105}' || '\U{2190}' <= c <= '\U{2194}' || c == '\U{219F}' || c == '\U{21A1}'
  }

  /** A character of GTypeChars. */
  predicate InGTypeChars(c: char) {
    c == '%' || c == '\'' || c == '*' || c == '/'
    || c == ':' || c == 'N' || c == '\\' || c == '|'
    || c == '~' || c == '\U{00B7}' || c == '\U{02BC}' || c == '\U{02D8}'
    || c == '\U{0305}' || c == '\U{0332}' || c == '\U{037B}' || c == '\U{037D}'
    || c == '\U{0387}' || c == '\U{03A7}' || c == '\U{07DF}' || c == '\U{2010}'
    || c == '\U{2012}' || '\U{2015}' <= c <= '\U{2016}' || c == '\U{2020}' || c == '\U{203E}'
    || c == '\U{2044}' || c == '\U{2058}' || c == '\U{205A}' || c == '\U{2197}'
    || c == '\U{22EE}' || '\U{239B}' <= c <= '\U{23A0}' || '\U{23A7}' <= c <= '\U{23A9}' || '\U{23AB}' <= c <= '\U{23AD}'
    || c == '\U{2627}' || c == '\U{271D}' || c == '\U{2766}' || c == '\U{291A}'
    || c == '\U{29BF}' || c == '\U{2CE8}' || c == '\U{2E0C}' || c == '\U{2E0E}'
    || '\U{2E12}' <= c <= '\U{2E13}' || '\U{2E15}' <= c <= '\U{2E16}' || c == '\U{2E31}' || c == '\U{E0E7}'
    || c == '\U{E197}' || c == '\U{FE52}' || c == '\U{FE65}' || c == '\U{FE68}'
    || c == '\U{10179}' || c == '\U{F0224}'
  }

  /** A character of HiChars. */
  predicate InHiChars(c: char) {
    '\U{0300}' <= c <= '\U{0301}' || c == '\U{0305}' || '\U{0307}' <= c <= '\U{0308}' || '\U{0313}' <= c <= '\U{0314}'
    || c == '\U{0332}' || c == '\U{0342}'
  }

  /** A character of UnclearChar. */
  predicate InUnclearChar(c: char) {
    c == '\U{0323}'
  }

  /** A character of OtherValidChars. */
  predicate InOtherValidChars(c: char) {
    c == ' ' || c == '\U{2CE8}' || c == '\U{10177}'
  }

  /** A letter of `greek_output`: a Greek capital, or the capital stigma or digamma. */
  predicate GreekLetter(c: char) {
    '\U{0391}' <= c <= '\U{03A1}' || '\U{03A3}' <= c <= '\U{03A9}' || c == '\U{03DA}' || c == '\U{03DC}'
  }

  /**
   * A character of `special_chars` as the regular expression class reads it.
   * The backslash in GTypeChars escapes the character after it inside
   * `[...]`, so the backslash itself is not a member of the class.
   */
  predicate SpecialChar(c: char) {
    c != '\\'
    && (InMilestoneChars(c) || InExChars(c) || InAddChars(c) || InGTypeChars(c)
        || InHiChars(c) || InUnclearChar(c) || InOtherValidChars(c))
  }

  /** A member of `pattern_allowed_chars`. */
  predicate AllowedChar(c: char) {
    SpecialChar(c) || GreekLetter(c) || c == '[' || c == ']' || c == '-' || c == '?'
  }

  /**
   * The allowed characters as evidently intended: the milestone class also
   * holds U+2E10, the diple obelismene that `milestone` writes.
   */
  predicate AllowedCharIntended(c: char) {
    AllowedChar(c) || c == '\U{2E10}'
  }

  /** A member of the class repeated by `range_without_brackets`. */
  predicate PlainChar(c: char) {
    c == '-' || GreekLetter(c) || SpecialChar(c)
  }

  lemma MilestoneCharsExact(c: char)
    ensures InMilestoneChars(c) <==> c in MilestoneChars
  {
  }

  lemma ExCharsExact(c: char)
    ensures InExChars(c) <==> c in ExChars
  {
  }

  lemma AddCharsExact(c: char)
    ensures InAddChars(c) <==> c in AddChars
  {
  }

  lemma GTypeCharsExact(c: char)
    ensures InGTypeChars(c) <==> c in GTypeChars
  {
  }

  lemma HiCharsExact(c: char)
    ensures InHiChars(c) <==> c in HiChars
  {
  }

  lemma UnclearCharExact(c: char)
    ensures InUnclearChar(c) <==> c in UnclearChar
  {
  }

  lemma OtherValidCharsExact(c: char)
    ensures InOtherValidChars(c) <==> c in OtherValidChars
  {
  }

  lemma PartLetters0() ensures forall i | 0 <= i < |PapyrserUtils.GreekOutputPart0| :: GreekLetter(PapyrserUtils.GreekOutputPart0[i]) {}
  lemma PartLetters1() ensures forall i | 0 <= i < |PapyrserUtils.GreekOutputPart1| :: GreekLetter(PapyrserUtils.GreekOutputPart1[i]) {}
  lemma PartLetters2() ensures forall i | 0 <= i < |PapyrserUtils.GreekOutputPart2| :: GreekLetter(PapyrserUtils.GreekOutputPart2[i]) {}
  lemma PartLetters3() ensures forall i | 0 <= i < |PapyrserUtils.GreekOutputPart3| :: GreekLetter(PapyrserUtils.GreekOutputPart3[i]) {}
  lemma PartLetters4() ensures forall i | 0 <= i < |PapyrserUtils.GreekOutputPart4| :: GreekLetter(PapyrserUtils.GreekOutputPart4[i]) {}
  lemma PartLetters5() ensures forall i | 0 <= i < |PapyrserUtils.GreekOutputPart5| :: GreekLetter(PapyrserUtils.GreekOutputPart5[i]) {}
  lemma PartLetters6() ensures forall i | 0 <= i < |PapyrserUtils.GreekOutputPart6| :: GreekLetter(PapyrserUtils.GreekOutputPart6[i]) {}
  lemma PartLetters7() ensures forall i | 0 <= i < |PapyrserUtils.GreekOutputPart7| :: GreekLetter(PapyrserUtils.GreekOutputPart7[i]) {}
  lemma PartLetters8() ensures forall i | 0 <= i < |PapyrserUtils.GreekOutputPart8| :: GreekLetter(PapyrserUtils.GreekOutputPart8[i]) {}

  /** Every letter occurs in the first two pieces of `greek_output`. */
  lemma LettersInFirstParts(c: char)
    requires GreekLetter(c)
    ensures c in PapyrserUtils.GreekOutputPart0 + PapyrserUtils.GreekOutputPart1
  {
    var p0, p1 := PapyrserUtils.GreekOutputPart0, PapyrserUtils.GreekOutputPart1;
    ConcatMember(c, p0, p1);
    if c in "\U{0392}\U{0393}\U{03DA}\U{03DC}" {
      LettersInPart0(c);
    } else {
      LettersInPart1(c);
    }
  }

  lemma LettersInPart0(c: char)
    requires c in "\U{0392}\U{0393}\U{03DA}\U{03DC}"
    ensures c in PapyrserUtils.GreekOutputPart0
  {
    var p := PapyrserUtils.GreekOutputPart0;
    assert p[20] == '\U{03DC}' && p[21] == '\U{03DA}' && p[30] == '\U{0392}' && p[31] == '\U{0393}';
  }

  lemma LettersInPart1(c: char)
    requires GreekLetter(c) && c !in "\U{0392}\U{0393}\U{03DA}\U{03DC}"
    ensures c in PapyrserUtils.GreekOutputPart1
  {
    var p := PapyrserUtils.GreekOutputPart1;
    var letters := "\U{0391}\U{0394}\U{0395}\U{0396}\U{0397}\U{0398}\U{0399}\U{039A}\U{039B}\U{039C}\U{039D}"
      + "\U{039E}\U{039F}\U{03A0}\U{03A1}\U{03A3}\U{03A4}\U{03A5}\U{03A6}\U{03A7}\U{03A8}\U{03A9}";
    assert c in letters;
    assert forall i | 0 <= i < |letters| :: letters[i] in p;
  }

  lemma ConcatMember(c: char, a: string, b: string)
    ensures c in a + b <==> c in a || c in b
  {
    if c in a + b {
      var i :| 0 <= i < |a + b| && (a + b)[i] == c;
      if i >= |a| {
        assert b[i - |a|] == c;
      }
    }
    if c in b {
      var i :| 0 <= i < |b| && b[i] == c;
      assert (a + b)[|a| + i] == c;
    }
  }

  lemma PartLetters(c: char, p: string)
    requires c in p
    requires forall i | 0 <= i < |p| :: GreekLetter(p[i])
    ensures GreekLetter(c)
  {
  }

  /** `GreekLetter` holds exactly for the characters of `greek_output`. */
  lemma GreekLettersAreOutput(c: char)
    ensures GreekLetter(c) <==> c in PapyrserUtils.GreekOutput
  {
    var p0, p1, p2 := PapyrserUtils.GreekOutputPart0, PapyrserUtils.GreekOutputPart1, PapyrserUtils.GreekOutputPart2;
    var p3, p4, p5 := PapyrserUtils.GreekOutputPart3, PapyrserUtils.GreekOutputPart4, PapyrserUtils.GreekOutputPart5;
    var p6, p7, p8 := PapyrserUtils.GreekOutputPart6, PapyrserUtils.GreekOutputPart7, PapyrserUtils.GreekOutputPart8;
    ConcatMember(c, p0, p1);
    ConcatMember(c, p0 + p1, p2);
    ConcatMember(c, p0 + p1 + p2, p3);
    ConcatMember(c, p0 + p1 + p2 + p3, p4);
    ConcatMember(c, p0 + p1 + p2 + p3 + p4, p5);
    ConcatMember(c, p0 + p1 + p2 + p3 + p4 + p5, p6);
    ConcatMember(c, p0 + p1 + p2 + p3 + p4 + p5 + p6, p7);
    ConcatMember(c, p0 + p1 + p2 + p3 + p4 + p5 + p6 + p7, p8);
    if GreekLetter(c) {
      LettersInFirstParts(c);
    }
    if c in p0 { PartLetters0(); PartLetters(c, p0); }
    if c in p1 { PartLetters1(); PartLetters(c, p1); }
    if c in p2 { PartLetters2(); PartLetters(c, p2); }
    if c in p3 { PartLetters3(); PartLetters(c, p3); }
    if c in p4 { PartLetters4(); PartLetters(c, p4); }
    if c in p5 { PartLetters5(); PartLetters(c, p5); }
    if c in p6 { PartLetters6(); PartLetters(c, p6); }
    if c in p7 { PartLetters7(); PartLetters(c, p7); }
    if c in p8 { PartLetters8(); PartLetters(c, p8); }
  }

  /** The special characters in the source's own terms: membership of one of its strings, the backslash excepted. */
  lemma SpecialCharIsClass(c: char)
    ensures SpecialChar(c) <==>
              c != '\\'
              && (c in MilestoneChars || c in ExChars || c in AddChars || c in GTypeChars
                  || c in HiChars || c in UnclearChar || c in OtherValidChars)
  {
    MilestoneCharsExact(c);
    ExCharsExact(c);
    AddCharsExact(c);
    GTypeCharsExact(c);
    HiCharsExact(c);
    UnclearCharExact(c);
    OtherValidCharsExact(c);
  }

  /** `AllowedChar` is the class `[special_chars + greek_output + \[\]\-\?]`. */
  lemma AllowedCharIsClass(c: char)
    ensures AllowedChar(c) <==> SpecialChar(c) || c in PapyrserUtils.GreekOutput || c in "[]-?"
  {
    GreekLettersAreOutput(c);
  }

  /** `PlainChar` is the class `[\- + greek_output + special_chars]`. */
  lemma PlainCharIsClass(c: char)
    ensures PlainChar(c) <==> c == '-' || c in PapyrserUtils.GreekOutput || SpecialChar(c)
  {
    GreekLettersAreOutput(c);
  }

  /** The ASCII characters the class allows: `[`, `]`, `-`, `?`, the space and the ASCII glyph signs. */
  lemma AllowedAscii(c: char)
    requires c < '\U{007F}'
    ensures AllowedChar(c) <==> c in "[]-?'*|%/~N: "
    ensures PlainChar(c) <==> c in "-'*|%/~N: "
  {
  }
  // ---------------------------------------------------------------------------
  // The two line shapes
  // ---------------------------------------------------------------------------

  /** Every character of `t[lo..hi]` is in range_without_brackets. */
  predicate PlainIn(t: string, lo: int, hi: int)
    requires 0 <= lo <= hi <= |t|
  {
    forall m | lo <= m < hi :: PlainChar(t[m])
  }

  /** Every character of `t[lo..hi]` is in range_with_brackets. */
  predicate AllowedIn(t: string, lo: int, hi: int)
    requires 0 <= lo <= hi <= |t|
  {
    forall m | lo <= m < hi :: AllowedChar(t[m])
  }

  /** The leading `\]?` of both patterns can consume exactly `t[..i]`. */
  predicate OpensAt(t: string, i: int) {
    i == 0 || (i == 1 && |t| >= 1 && t[0] == ']')
  }

  /** The trailing `\[?` of both patterns can consume exactly `t[j..]`. */
  predicate ClosesAt(t: string, j: int) {
    j == |t| || (1 <= j == |t| - 1 && t[j] == '[')
  }

  /** `^\]?` range_without_brackets `\[?` covers all of t. */
  ghost predicate Pattern1Covers(t: string) {
    exists i, j | 0 <= i < j <= |t| && OpensAt(t, i) && ClosesAt(t, j) :: PlainIn(t, i, j)
  }

  /** `^\]?` range_without_brackets range_with_brackets range_without_brackets `\[?` covers all of t. */
  ghost predicate Pattern2Covers(t: string) {
    exists i, k, l, j | 0 <= i < k <= l < j <= |t| && OpensAt(t, i) && ClosesAt(t, j) ::
      PlainIn(t, i, k) && AllowedIn(t, k, l) && PlainIn(t, l, j)
  }

  /** `re.match` of a pattern ending in `$`: it covers the line, or the line without one final newline. */
  ghost predicate MatchesPattern1(line: string) {
    Pattern1Covers(line) || (|line| > 0 && line[|line| - 1] == '\n' && Pattern1Covers(line[..|line| - 1]))
  }

  ghost predicate MatchesPattern2(line: string) {
    Pattern2Covers(line) || (|line| > 0 && line[|line| - 1] == '\n' && Pattern2Covers(line[..|line| - 1]))
  }

  /** Where the text proper starts: after a leading `]`, if there is one. */
  function ShapeStart(t: string): (a: nat)
    ensures a <= |t| && OpensAt(t, a)
  {
    if |t| > 0 && t[0] == ']' then 1 else 0
  }

  /** Where the text proper ends: before a trailing `[` that is not the leading `]`. */
  function ShapeEnd(t: string): (b: nat)
    ensures ShapeStart(t) <= b <= |t|
    ensures ShapeStart(t) < b ==> ClosesAt(t, b)
  {
    if |t| > ShapeStart(t) && t[|t| - 1] == '[' then |t| - 1 else |t|
  }

  /**
   * The shape the two patterns accept, read off the text directly: after an
   * optional `]` at the front and an optional `[` at the back there is at
   * least one character, every character is allowed, and the first and the
   * last are neither brackets nor `?`.
   */
  predicate ShapeOk(t: string) {
    var a, b := ShapeStart(t), ShapeEnd(t);
    a < b && PlainChar(t[a]) && PlainChar(t[b - 1]) && AllowedIn(t, a, b)
  }

  predicate LineShapeOk(line: string) {
    ShapeOk(line) || (|line| > 0 && line[|line| - 1] == '\n' && ShapeOk(line[..|line| - 1]))
  }

  lemma MarkNotPlain(c: char)
    requires c in "[]?"
    ensures !PlainChar(c)
  {
    AllowedAscii(c);
  }

  lemma BracketsNotPlain()
    ensures !PlainChar('[') && !PlainChar(']') && !PlainChar('?')
  {
    MarkNotPlain('[');
    MarkNotPlain(']');
    MarkNotPlain('?');
  }

  /** A text of the shape is covered by one of the two patterns. */
  lemma ShapeOkCovered(t: string)
    requires ShapeOk(t)
    ensures Pattern1Covers(t) || Pattern2Covers(t)
  {
    var a, b := ShapeStart(t), ShapeEnd(t);
    if b - a == 1 {
      assert PlainIn(t, a, b);
    } else {
      assert PlainIn(t, a, a + 1) && AllowedIn(t, a + 1, b - 1) && PlainIn(t, b - 1, b);
    }
  }

  /**
   * The bounds of any parse are the ones `ShapeOk` reads off: a `]` at the
   * front cannot start range_without_brackets and a `[` at the back cannot
   * end it.
   */
  lemma ParseBounds(t: string, i: int, j: int)
    requires 0 <= i < j <= |t| && OpensAt(t, i) && ClosesAt(t, j)
    requires PlainChar(t[i]) && PlainChar(t[j - 1])
    ensures i == ShapeStart(t) && j == ShapeEnd(t)
  {
    BracketsNotPlain();
  }

  /** A text covered by the first pattern has the shape. */
  lemma Pattern1Shape(t: string)
    requires Pattern1Covers(t)
    ensures ShapeOk(t)
  {
    var i, j :| 0 <= i < j <= |t| && OpensAt(t, i) && ClosesAt(t, j) && PlainIn(t, i, j);
    ParseBounds(t, i, j);
  }

  /** A text covered by the second pattern has the shape. */
  lemma Pattern2Shape(t: string)
    requires Pattern2Covers(t)
    ensures ShapeOk(t)
  {
    var i, k, l, j :| 0 <= i < k <= l < j <= |t| && OpensAt(t, i) && ClosesAt(t, j)
      && PlainIn(t, i, k) && AllowedIn(t, k, l) && PlainIn(t, l, j);
    ParseBounds(t, i, j);
    assert forall m | i <= m < j :: AllowedChar(t[m]) by {
      forall m | i <= m < j
        ensures AllowedChar(t[m])
      {
        if m < k {
          assert PlainChar(t[m]);
        } else if m >= l {
          assert PlainChar(t[m]);
        }
      }
    }
  }

  /** The direct reading agrees with the two regular expressions on every text. */
  lemma ShapeOkIff(t: string)
    ensures ShapeOk(t) <==> Pattern1Covers(t) || Pattern2Covers(t)
  {
    if ShapeOk(t) {
      ShapeOkCovered(t);
    }
    if Pattern1Covers(t) {
      Pattern1Shape(t);
    }
    if Pattern2Covers(t) {
      Pattern2Shape(t);
    }
  }

  /** `LineShapeOk` is the test `re.match(valid_pattern1, line) or re.match(valid_pattern2, line)`. */
  lemma LineShapeOkIff(line: string)
    ensures LineShapeOk(line) <==> MatchesPattern1(line) || MatchesPattern2(line)
  {
    ShapeOkIff(line);
    if |line| > 0 {
      ShapeOkIff(line[..|line| - 1]);
    }
  }

  // ---------------------------------------------------------------------------
  // Forbidden characters and the correction of Latin look-alikes
  // ---------------------------------------------------------------------------

  /** The characters of s that `pattern_allowed_chars` rejects, in order and with repetitions. */
  function Forbidden(s: string): (r: string)
    ensures |r| <= |s|
    ensures forall c :: c in r <==> c in s && !AllowedChar(c)
  {
    if s == [] then ""
    else
      var last := s[|s| - 1];
      assert s == s[..|s| - 1] + [last];
      Forbidden(s[..|s| - 1]) + (if AllowedChar(last) then "" else [last])
  }

  /** Forbidden characters are collected line segment by line segment. */
  lemma {:induction false} ForbiddenAppend(a: string, b: string)
    ensures Forbidden(a + b) == Forbidden(a) + Forbidden(b)
    decreases |b|
  {
    if b != [] {
      var b', last := b[..|b| - 1], b[|b| - 1];
      assert (a + b)[..|a + b| - 1] == a + b';
      assert (a + b)[|a + b| - 1] == last;
      ForbiddenAppend(a, b');
      var x := if AllowedChar(last) then "" else [last];
      calc {
        Forbidden(a + b);
        Forbidden(a + b') + x;
        Forbidden(a) + Forbidden(b') + x;
        Forbidden(a) + (Forbidden(b') + x);
        Forbidden(a) + Forbidden(b);
      }
    } else {
      assert a + b == a;
    }
  }

  const LatinChars: string := "ABEHIKMNOPTXYZ"
  const GreekChars: string := "\U{0391}\U{0392}\U{0395}\U{0397}\U{0399}\U{039A}\U{039C}\U{039D}\U{039F}\U{03A1}\U{03A4}\U{03A7}\U{03A5}\U{0396}"

  /** The table of `str.maketrans(latin_chars, greek_chars)`. */
  const LookAlikes: Majuscule.Table := Majuscule.Table(LatinChars, GreekChars, {})

  /** The two tests a flagged character passes before it is corrected: `[A-Z]` and membership of `latin_chars`. */
  predicate LookAlike(c: char) {
    'A' <= c <= 'Z' && c in LatinChars
  }

  /** `c.translate(translation)`. */
  function Retyped(c: char): char {
    assert Majuscule.WellFormed(LookAlikes);
    Majuscule.TranslateChar(LookAlikes, c)
  }

  /** Every Latin look-alike is retyped as the Greek capital written the same way. */
  lemma RetypedGreek(c: char)
    requires LookAlike(c)
    ensures Retyped(c) in GreekChars && GreekLetter(Retyped(c))
    ensures !LookAlike(Retyped(c))
  {
    var g := Retyped(c);
    assert g in GreekChars;
  }

  /** The flagged characters of fs that are corrected, in order and with repetitions. */
  function Fixes(fs: string): (r: string)
    ensures |r| <= |fs|
    ensures forall c :: c in r <==> c in fs && LookAlike(c)
  {
    if fs == [] then ""
    else
      var last := fs[|fs| - 1];
      assert fs == fs[..|fs| - 1] + [last];
      Fixes(fs[..|fs| - 1]) + (if LookAlike(last) then [last] else "")
  }

  /** s after `line_text.replace(c, c.translate(...))` for every c of fx, in order. */
  function CorrectWith(s: string, fx: string): string {
    seq(|s|, i requires 0 <= i < |s| => if s[i] in fx then Retyped(s[i]) else s[i])
  }

  /** The line that `validate_line` arrives at after its corrections. */
  function Corrected(s: string): string {
    CorrectWith(s, Fixes(Forbidden(s)))
  }

  /** Flagged characters none of which is a look-alike give nothing to correct. */
  lemma {:induction false} NoLookAlikeNoFixes(fs: string)
    requires forall m | 0 <= m < |fs| :: !LookAlike(fs[m])
    ensures Fixes(fs) == []
  {
    if fs != [] {
      NoLookAlikeNoFixes(fs[..|fs| - 1]);
    }
  }

  /** One more replacement extends the corrected set by one letter. */
  lemma CorrectWithStep(s: string, fx: string, c: char)
    requires forall d | d in fx :: LookAlike(d)
    requires LookAlike(c)
    ensures ReplaceChar(CorrectWith(s, fx), c, Retyped(c)) == CorrectWith(s, fx + [c])
  {
    var u, v := ReplaceChar(CorrectWith(s, fx), c, Retyped(c)), CorrectWith(s, fx + [c]);
    forall i | 0 <= i < |s|
      ensures u[i] == v[i]
    {
      if s[i] in fx {
        RetypedGreek(s[i]);
      }
    }
  }

  /**
   * Correction changes exactly the characters that are forbidden and Latin
   * look-alikes, each into its Greek counterpart; all others stay as they are.
   */
  lemma CorrectedPointwise(s: string)
    ensures |Corrected(s)| == |s|
    ensures forall i | 0 <= i < |s| ::
      Corrected(s)[i] == if !AllowedChar(s[i]) && LookAlike(s[i]) then Retyped(s[i]) else s[i]
  {
  }

  /** After correction no forbidden look-alike is left, so the recursive call of `validate_line` corrects nothing. */
  lemma CorrectedClean(s: string)
    ensures Fixes(Forbidden(Corrected(s))) == []
  {
    var r := Corrected(s);
    CorrectedPointwise(s);
    forall i | 0 <= i < |r|
      ensures !(LookAlike(r[i]) && !AllowedChar(r[i]))
    {
      if !AllowedChar(s[i]) && LookAlike(s[i]) {
        RetypedGreek(s[i]);
      }
    }
    NoLookAlikeNoFixes(Forbidden(r));
  }

  /** Correcting a corrected line changes nothing. */
  lemma CorrectedIdempotent(s: string)
    ensures Corrected(Corrected(s)) == Corrected(s)
  {
    CorrectedClean(s);
  }

  /** The characters still forbidden after correction were forbidden before and are not look-alikes. */
  lemma CorrectedLeftovers(s: string)
    ensures forall c | c in Forbidden(Corrected(s)) :: c in Forbidden(s) && !LookAlike(c)
  {
    CorrectedClean(s);
    var r := Corrected(s);
    CorrectedPointwise(s);
    forall c | c in Forbidden(r)
      ensures c in Forbidden(s)
    {
      var i :| 0 <= i < |r| && r[i] == c;
      if !AllowedChar(s[i]) && LookAlike(s[i]) {
        RetypedGreek(s[i]);
      }
    }
  }

  /** Every character of a text of the shape is allowed, the brackets at its ends included. */
  lemma ShapeAllAllowed(t: string)
    requires ShapeOk(t)
    ensures forall m | 0 <= m < |t| :: AllowedChar(t[m])
  {
    BracketsAllowed();
    var a, b := ShapeStart(t), ShapeEnd(t);
    forall m | 0 <= m < |t|
      ensures AllowedChar(t[m])
    {
      if m < a {
        assert t[m] == ']';
      } else if m >= b {
        assert t[m] == '[';
      }
    }
  }

  lemma {:induction false} AllAllowedNoForbidden(t: string)
    requires forall m | 0 <= m < |t| :: AllowedChar(t[m])
    ensures Forbidden(t) == []
  {
    if t != [] {
      AllAllowedNoForbidden(t[..|t| - 1]);
    }
  }

  /** A line of the first or second shape has no forbidden character except possibly its final newline. */
  lemma ShapeForbidden(line: string)
    requires LineShapeOk(line)
    ensures forall c | c in Forbidden(line) :: c == '\n'
  {
    if ShapeOk(line) {
      ShapeAllAllowed(line);
      AllAllowedNoForbidden(line);
    } else {
      var t := line[..|line| - 1];
      ShapeAllAllowed(t);
      AllAllowedNoForbidden(t);
      assert line == t + ['\n'];
    }
  }

  lemma BracketsAllowed()
    ensures AllowedChar('[') && AllowedChar(']')
  {
    assert '[' in "[]-?" && ']' in "[]-?";
  }

  /** So a line of either shape is never corrected. */
  lemma ShapeNoFixes(line: string)
    requires LineShapeOk(line)
    ensures Fixes(Forbidden(line)) == []
  {
    ShapeForbidden(line);
    var fs := Forbidden(line);
    forall m | 0 <= m < |fs|
      ensures !LookAlike(fs[m])
    {
      assert fs[m] in fs;
    }
    NoLookAlikeNoFixes(fs);
  }

  // ---------------------------------------------------------------------------
  // Diagnostics and change records
  // ---------------------------------------------------------------------------

  /** The entries `validate_line` appends to `error_log`. */
  datatype Diagnostic =
    | InvalidGapHandling(line: string)
    | ForbiddenCharacters(chars: string, line: string)
    | ContainsEmptyBrackets

  /** The message `Changed "c" to "target" in line`. */
  datatype Change = Change(from: char, to: char, line: string)

  /** The entry about the shape of a line outside both patterns. */
  function ShapeDiagnostics(line: string): seq<Diagnostic> {
    if LineShapeOk(line) then []
    else if Forbidden(line) == [] then [InvalidGapHandling(line)]
    else [ForbiddenCharacters(Forbidden(line), line)]
  }

  /** The entry about an empty pair of brackets. */
  function BracketDiagnostics(line: string): seq<Diagnostic> {
    if ContainsSub(line, "[]") then [ContainsEmptyBrackets] else []
  }

  /** What one call of `validate_line` without a correction appends to `error_log`. */
  function Diagnose(line: string): seq<Diagnostic> {
    ShapeDiagnostics(line) + BracketDiagnostics(line)
  }

  /** Nothing is logged exactly when one of the two patterns matches and `[]` does not occur. */
  lemma DiagnoseNothing(line: string)
    ensures Diagnose(line) == [] <==> (MatchesPattern1(line) || MatchesPattern2(line)) && !ContainsSub(line, "[]")
  {
    LineShapeOkIff(line);
  }

  /**
   * A line outside both shapes gets exactly one entry about its shape: the
   * forbidden characters when there are any, and otherwise the gap handling.
   */
  lemma DiagnoseShape(line: string)
    requires !(MatchesPattern1(line) || MatchesPattern2(line))
    ensures |Diagnose(line)| >= 1
    ensures (exists c :: c in line && !AllowedChar(c)) ==> Diagnose(line)[0] == ForbiddenCharacters(Forbidden(line), line)
    ensures (forall c | c in line :: AllowedChar(c)) ==> Diagnose(line)[0] == InvalidGapHandling(line)
  {
    LineShapeOkIff(line);
    if Forbidden(line) == [] {
      assert forall c | c in line :: AllowedChar(c);
    } else {
      assert Forbidden(line)[0] in Forbidden(line);
    }
  }

  lemma FixesStep(fs: string, k: int)
    requires 0 <= k < |fs|
    ensures Fixes(fs[..k + 1]) == Fixes(fs[..k]) + if LookAlike(fs[k]) then [fs[k]] else []
  {
    assert fs[..k + 1][..k] == fs[..k];
  }

  /** One pass of the correction loop over a look-alike c keeps the line and the records in step with the letters corrected so far. */
  lemma CorrectionStep(s: string, fx: string, c: char)
    requires forall d | d in fx :: LookAlike(d)
    requires LookAlike(c)
    ensures Majuscule.TranslateChar(LookAlikes, c) == Retyped(c)
    ensures ReplaceChar(CorrectWith(s, fx), c, Retyped(c)) == CorrectWith(s, fx + [c])
    ensures ChangeLog(s, fx) + [Change(c, Retyped(c), CorrectWith(s, fx + [c]))] == ChangeLog(s, fx + [c])
  {
    CorrectWithStep(s, fx, c);
    ChangeLogStep(s, fx, c);
  }

  /** The messages of the correction loop for the corrected letters fx, in order. */
  function ChangeLog(s: string, fx: string): seq<Change> {
    seq(|fx|, k requires 0 <= k < |fx| => Change(fx[k], Retyped(fx[k]), CorrectWith(s, fx[..k + 1])))
  }

  lemma ChangeLogStep(s: string, fx: string, c: char)
    ensures ChangeLog(s, fx + [c]) == ChangeLog(s, fx) + [Change(c, Retyped(c), CorrectWith(s, fx + [c]))]
  {
    forall k | 0 <= k < |fx|
      ensures ChangeLog(s, fx + [c])[k] == ChangeLog(s, fx)[k]
    {
      assert (fx + [c])[..k + 1] == fx[..k + 1];
    }
    assert (fx + [c])[..|fx| + 1] == fx + [c];
  }

  /** One record per corrected letter, from the Latin letter to its Greek counterpart. */
  lemma ChangeLogRecords(s: string)
    ensures |ChangeLog(s, Fixes(Forbidden(s)))| == |Fixes(Forbidden(s))|
    ensures forall ch | ch in ChangeLog(s, Fixes(Forbidden(s))) ::
      ch.from in s && !AllowedChar(ch.from) && LookAlike(ch.from) && ch.to in GreekChars && ch.to == Retyped(ch.from)
  {
    var fx := Fixes(Forbidden(s));
    forall ch | ch in ChangeLog(s, fx)
      ensures ch.from in s && !AllowedChar(ch.from) && LookAlike(ch.from) && ch.to in GreekChars && ch.to == Retyped(ch.from)
    {
      var k :| 0 <= k < |fx| && ChangeLog(s, fx)[k] == ch;
      assert fx[k] in fx;
      RetypedGreek(fx[k]);
    }
  }

  // The two lines of the unit test of `validate_line`.

  const TypoLine: string := "ABEHIKMOPTXYZ"
  const TypoFixed: string := "\U{0391}\U{0392}\U{0395}\U{0397}\U{0399}\U{039A}\U{039C}\U{039F}\U{03A1}\U{03A4}\U{03A7}\U{03A5}\U{0396}"
  const DigitsHeadText: string := "\U{0391}\U{0392}\U{0393}\U{0394}\U{0395}\U{03A6}"
  const DigitsLine: string := DigitsHeadText + "093" + "[]"

  /** Each letter of the typo line is forbidden and a look-alike. */
  lemma TypoForbidden()
    ensures forall i | 0 <= i < |TypoLine| :: !AllowedChar(TypoLine[i]) && LookAlike(TypoLine[i])
  {
  }

  /** `latin_chars` holds no letter twice, so `str.maketrans` pairs the two strings position by position. */
  lemma LatinDistinct()
    ensures forall i, j | 0 <= i < j < |LatinChars| :: LatinChars[i] != LatinChars[j]
  {
  }

  lemma RetypedAt(k: nat)
    requires k < |LatinChars|
    ensures Retyped(LatinChars[k]) == GreekChars[k]
  {
    LatinDistinct();
    Majuscule.TranslatePositional(LookAlikes, k);
  }

  /** The typo line is `latin_chars` without the N, and its correction is `greek_chars` without the Greek N. */
  lemma TypoRetyped()
    ensures forall i | 0 <= i < |TypoLine| :: Retyped(TypoLine[i]) == TypoFixed[i]
  {
    forall i | 0 <= i < |TypoLine|
      ensures Retyped(TypoLine[i]) == TypoFixed[i]
    {
      var k := if i < 7 then i else i + 1;
      assert TypoLine[i] == LatinChars[k] && TypoFixed[i] == GreekChars[k];
      RetypedAt(k);
    }
  }

  /** In a Greek document, the typo line is corrected to the Greek letters written the same way. */
  lemma TypoLineCorrected()
    ensures Fixes(Forbidden(TypoLine)) != []
    ensures Corrected(TypoLine) == TypoFixed
  {
    TypoForbidden();
    TypoRetyped();
    CorrectedPointwise(TypoLine);
    assert TypoLine[0] in Forbidden(TypoLine);
    assert TypoLine[0] in Fixes(Forbidden(TypoLine));
  }

  /** The corrected typo line passes the check. */
  lemma TypoFixedClean()
    ensures Diagnose(TypoFixed) == []
  {
    var t := TypoFixed;
    assert forall i | 0 <= i < |t| :: GreekLetter(t[i]);
    assert ShapeStart(t) == 0 && ShapeEnd(t) == |t|;
    assert AllowedIn(t, 0, |t|);
    assert ShapeOk(t);
    assert !ContainsSub(t, "[]") by {
      forall i | 0 <= i <= |t|
        ensures !OccursAt(t, "[]", i)
      {
        if i + 2 <= |t| {
          assert t[i..i + 2][0] == t[i] != '[';
        }
      }
    }
  }

  lemma ForbiddenSnoc(s: string, k: int)
    requires 0 <= k < |s|
    ensures Forbidden(s[..k + 1]) == Forbidden(s[..k]) + if AllowedChar(s[k]) then "" else [s[k]]
  {
    assert s[..k + 1][..k] == s[..k];
  }

  /** The six Greek letters in front of the digits are all allowed. */
  lemma DigitsHead()
    ensures Forbidden(DigitsHeadText) == []
  {
    var p := DigitsHeadText;
    assert forall m | 0 <= m < |p| :: GreekLetter(p[m]);
    AllAllowedNoForbidden(p);
  }

  lemma DigitsMiddle()
    ensures Forbidden("093") == "093"
  {
    var d := "093";
    assert !AllowedChar(d[0]) && !AllowedChar(d[1]) && !AllowedChar(d[2]);
    assert d[..2][..1] == d[..1] && d[..1][..0] == [];
  }

  lemma DigitsTail()
    ensures Forbidden("[]") == []
  {
    BracketsAllowed();
    assert "[]"[..1] == "[" && "["[..0] == [];
  }

  /** The digits are the forbidden characters of the line. */
  lemma DigitsForbidden()
    ensures Forbidden(DigitsLine) == "093"
  {
    DigitsHead();
    DigitsMiddle();
    DigitsTail();
    ForbiddenAppend(DigitsHeadText, "093");
    ForbiddenAppend(DigitsHeadText + "093", "[]");
  }

  /** Digits are not look-alikes, so the line is not corrected. */
  lemma DigitsNotFixed()
    ensures Fixes("093") == []
  {
    var d := "093";
    assert !LookAlike(d[0]) && !LookAlike(d[1]) && !LookAlike(d[2]);
    assert d[..2][..1] == d[..1] && d[..1][..0] == [];
  }

  /** The line with digits and empty brackets gets two entries in the log. */
  lemma DigitsLineTwoEntries()
    ensures Diagnose(DigitsLine) == [ForbiddenCharacters("093", DigitsLine), ContainsEmptyBrackets]
  {
    DigitsForbidden();
    var s := DigitsLine;
    assert !ShapeOk(s) by {
      assert !AllowedChar(s[6]);
    }
    assert !LineShapeOk(s);
    assert OccursAt(s, "[]", 9);
  }

  // ---------------------------------------------------------------------------
  // Glyph signs put in capitals
  // ---------------------------------------------------------------------------

  /**
   * `str.upper` in `format_line` turns three glyph signs that
   * `validate_line` allows into characters it rejects: the antisigma and the
   * antisigma periestigmene of `gtype` and the Coptic gamma of `ex`.
   */
  lemma CapitalsLeaveAllowed()
    ensures forall c | c in "\U{037B}\U{037D}\U{2C85}" :: AllowedChar(c) && !AllowedChar(LineFormat.UpperChar(c))
  {
  }

  /** A letter followed by the antisigma of `<g type="antisigma"/>`. */
  const AntisigmaLine: string := "\U{0391}\U{037B}"

  /**
   * Every character of that line is allowed, yet the line `format_line`
   * returns for it is logged as holding a forbidden character, so the
   * document's TM number is skipped.
   */
  lemma AntisigmaLineRejected()
    ensures forall c | c in AntisigmaLine :: AllowedChar(c)
    ensures LineFormat.FormatLine(AntisigmaLine) == "\U{0391}\U{03FD}"
    ensures Diagnose(LineFormat.FormatLine(AntisigmaLine)) == [ForbiddenCharacters("\U{03FD}", "\U{0391}\U{03FD}")]
  {
    AntisigmaLineAllowed();
    AntisigmaLineFormatted();
    CapitalAntisigmaForbidden();
  }

  lemma AntisigmaLineAllowed()
    ensures forall c | c in AntisigmaLine :: AllowedChar(c)
  {
    assert AllowedChar('\U{0391}') && AllowedChar('\U{037B}');
    assert forall c | c in AntisigmaLine :: c == '\U{0391}' || c == '\U{037B}';
  }

  lemma AntisigmaLineFormatted()
    ensures LineFormat.FormatLine(AntisigmaLine) == "\U{0391}\U{03FD}"
  {
    AntisigmaLinePlain();
    AntisigmaLineUpper();
    LineFormat.PlainLineCapitalised(AntisigmaLine);
  }

  lemma AntisigmaLinePlain()
    ensures AntisigmaLine != [] && LineFormat.Pdi !in AntisigmaLine
    ensures !IsSpace(AntisigmaLine[0]) && !IsSpace(AntisigmaLine[|AntisigmaLine| - 1])
    ensures forall i | 0 <= i < |AntisigmaLine| :: AntisigmaLine[i] !in "[]-?" && AntisigmaLine[i] != '\U{2105}'
  {
  }

  lemma AntisigmaLineUpper()
    ensures LineFormat.Upper(AntisigmaLine) == "\U{0391}\U{03FD}"
  {
    var u := LineFormat.Upper(AntisigmaLine);
    assert u[0] == '\U{0391}' && u[1] == '\U{03FD}';
  }

  lemma CapitalAntisigmaForbidden()
    ensures Diagnose("\U{0391}\U{03FD}") == [ForbiddenCharacters("\U{03FD}", "\U{0391}\U{03FD}")]
  {
    var l := "\U{0391}\U{03FD}";
    assert l == [l[0]] + [l[1]];
    ForbiddenAppend([l[0]], [l[1]]);
    assert Forbidden(l) == "\U{03FD}";
    assert !ShapeOk(l) by {
      assert !AllowedChar(l[1]);
    }
    assert !LineShapeOk(l);
    assert !ContainsSub(l, "[]");
  }

  /** With the capitalisation as intended, every allowed character stays allowed. */
  lemma CapitalsStayAllowed(c: char)
    ensures AllowedChar(c) ==> AllowedChar(LineFormat.UpperKeepingSigns(c))
  {
    LineFormat.UpperChanges(c);
  }

  // ---------------------------------------------------------------------------
  // Languages
  // ---------------------------------------------------------------------------

  /** The `xml:lang` values other than `en` of the elements, in document order. */
  function LangValues(tags: seq<Attrs>): (r: seq<string>)
    ensures forall v :: v in r <==> v != "en" && exists i | 0 <= i < |tags| :: "xml:lang" in tags[i] && tags[i]["xml:lang"] == v
  {
    if tags == [] then []
    else
      var init, last := tags[..|tags| - 1], tags[|tags| - 1];
      assert forall i | 0 <= i < |init| :: init[i] == tags[i];
      LangValues(init) + (if "xml:lang" in last && last["xml:lang"] != "en" then [last["xml:lang"]] else [])
  }

  predicate NoDuplicates(s: seq<string>) {
    forall i, j | 0 <= i < j < |s| :: s[i] != s[j]
  }

  /** The loop of `validate_line` collecting the forbidden characters of a line. */
  method CollectForbidden(line: string) returns (forbidden: string)
    ensures forbidden == Forbidden(line)
  {
    forbidden := "";
    var i := 0;
    while i < |line|
      invariant 0 <= i <= |line|
      invariant forbidden == Forbidden(line[..i])
    {
      assert line[..i + 1][..i] == line[..i];
      if !AllowedChar(line[i]) {
        forbidden := forbidden + [line[i]];
      }
      i := i + 1;
    }
    assert line[..i] == line;
  }

  // ---------------------------------------------------------------------------
  // The formatter's state
  // ---------------------------------------------------------------------------

  class Formatter {
    var errorLog: seq<Diagnostic>
    var changes: seq<seq<Change>>
    var langs: seq<string>
    /** `format_line`, which reads none of the fields. */
    const formatLine: string -> string

    constructor ()
      ensures errorLog == [] && changes == [] && langs == []
      ensures formatLine == LineFormat.FormatLine
    {
      errorLog := [];
      changes := [];
      langs := [];
      formatLine := LineFormat.FormatLine;
    }

    /** Corrections are made only in a document whose one language is Greek. */
    predicate GreekOnly()
      reads this
    {
      |langs| == 1 && langs[0] == "grc"
    }

    /**
     * The correction loop of `validate_line` over the forbidden characters:
     * each Latin look-alike is replaced throughout the line by its Greek
     * counterpart, the log is cleared and a change record is kept.
     */
    method CorrectLookAlikes(lineText: string, forbidden: string) returns (line: string, fixes: seq<Change>)
      modifies this
      ensures line == CorrectWith(lineText, Fixes(forbidden))
      ensures fixes == ChangeLog(lineText, Fixes(forbidden))
      ensures errorLog == if Fixes(forbidden) == [] then old(errorLog) else []
      ensures langs == old(langs) && changes == old(changes)
    {
      line := lineText;
      fixes := [];
      assert line == CorrectWith(lineText, "");
      var k := 0;
      while k < |forbidden|
        invariant 0 <= k <= |forbidden|
        invariant line == CorrectWith(lineText, Fixes(forbidden[..k]))
        invariant fixes == ChangeLog(lineText, Fixes(forbidden[..k]))
        invariant errorLog == if Fixes(forbidden[..k]) == [] then old(errorLog) else []
        invariant langs == old(langs) && changes == old(changes)
      {
        var c := forbidden[k];
        FixesStep(forbidden, k);
        if 'A' <= c <= 'Z' {
          if c in LatinChars {
            errorLog := [];
            var target := Majuscule.TranslateChar(LookAlikes, c);
            CorrectionStep(lineText, Fixes(forbidden[..k]), c);
            line := ReplaceChar(line, c, target);
            fixes := fixes + [Change(c, target, line)];
          }
        }
        if !LookAlike(c) {
          assert Fixes(forbidden[..k + 1]) == Fixes(forbidden[..k]);
        }
        k := k + 1;
      }
      assert forbidden[..k] == forbidden;
    }

    /**
     * The first half of `validate_line`: a line outside both shapes gets its
     * entry in the log, and in a Greek document its Latin look-alikes are
     * corrected.
     */
    method CheckShape(lineText: string) returns (line: string, fixes: seq<Change>)
      modifies this
      ensures langs == old(langs) && changes == old(changes)
      ensures old(GreekOnly()) && Fixes(Forbidden(lineText)) != [] ==>
        line == Corrected(lineText) && errorLog == [] && fixes == ChangeLog(lineText, Fixes(Forbidden(lineText))) && fixes != []
      ensures !(old(GreekOnly()) && Fixes(Forbidden(lineText)) != []) ==>
        line == lineText && errorLog == old(errorLog) + ShapeDiagnostics(lineText) && fixes == []
    {
      line := lineText;
      fixes := [];
      if !LineShapeOk(line) {
        var forbidden := CollectForbidden(line);
        if forbidden == [] {
          errorLog := errorLog + [InvalidGapHandling(line)];
        } else {
          errorLog := errorLog + [ForbiddenCharacters(forbidden, line)];
          if |langs| == 1 && langs[0] == "grc" {
            line, fixes := CorrectLookAlikes(line, forbidden);
            if Fixes(forbidden) == [] {
              assert line == lineText by {
                assert forall j | 0 <= j < |lineText| :: line[j] == lineText[j];
              }
            }
          }
        }
      } else {
        ShapeNoFixes(line);
      }
    }

    /**
     * `validate_line`. A line of a Greek document with forbidden Latin
     * look-alikes is corrected: the log is cleared, one batch of change
     * records is added, and the corrected line is checked again. Any other
     * line is returned unchanged with its diagnostics appended to the log.
     */
    method ValidateLine(lineText: string) returns (r: string)
      modifies this
      ensures langs == old(langs)
      ensures old(GreekOnly()) && Fixes(Forbidden(lineText)) != [] ==>
        r == Corrected(lineText)
        && errorLog == Diagnose(r)
        && changes == old(changes) + [ChangeLog(lineText, Fixes(Forbidden(lineText)))]
      ensures !(old(GreekOnly()) && Fixes(Forbidden(lineText)) != []) ==>
        r == lineText && errorLog == old(errorLog) + Diagnose(lineText) && changes == old(changes)
      decreases |Fixes(Forbidden(lineText))|
    {
      var line, fixes := CheckShape(lineText);
      if fixes != [] {
        changes := changes + [fixes];
        CorrectedClean(lineText);
        r := ValidateLine(line);
        return;
      }
      if ContainsSub(line, "[]") {
        errorLog := errorLog + [ContainsEmptyBrackets];
      }
      r := line;
    }

    /**
     * `get_languages`: the `xml:lang` values other than `en` are added to
     * `langs`, and `langs` is then made free of duplicates.
     * The attributes of the elements of the document, in document order,
     * stand for `soup.find_all()`.
     */
    method GetLanguages(tags: seq<Attrs>)
      modifies this
      ensures forall v :: v in langs <==> v in old(langs) || v in LangValues(tags)
      ensures NoDuplicates(langs)
      ensures "en" in langs <==> "en" in old(langs)
      ensures errorLog == old(errorLog) && changes == old(changes)
    {
      var i := 0;
      while i < |tags|
        invariant 0 <= i <= |tags|
        invariant langs == old(langs) + LangValues(tags[..i])
        invariant errorLog == old(errorLog) && changes == old(changes)
      {
        assert tags[..i + 1][..i] == tags[..i];
        if "xml:lang" in tags[i] {
          if tags[i]["xml:lang"] != "en" {
            langs := langs + [tags[i]["xml:lang"]];
          }
        }
        i := i + 1;
      }
      assert tags[..i] == tags;
      var all := langs;
      var unique: seq<string> := [];
      var j := 0;
      while j < |all|
        invariant 0 <= j <= |all|
        invariant forall v :: v in unique <==> v in all[..j]
        invariant NoDuplicates(unique)
      {
        assert all[..j + 1] == all[..j] + [all[j]];
        if all[j] !in unique {
          unique := unique + [all[j]];
        }
        j := j + 1;
      }
      assert all[..j] == all;
      langs := unique;
    }
  }
}
