/**
 * The clean-up of one transcription line (`Formatter.format_line`): invisible
 * marks and vacats are removed from both ends, lines made of nothing but
 * brackets are dropped, groups of lost or unread letters at the ends and in
 * the middle are normalised, and the line is put in capitals.
 *
 * The rewrites that the source performs with regular expressions on the line
 * are performed here on the line's reading as tokens (see module Brackets).
 */
module LineFormat {
  import opened Strings
  import opened Brackets
  import Tags

  /** U+2069 POP DIRECTIONAL ISOLATE, which the transcriptions carry as an invisible mark. */
  const Pdi: char := '\U{2069}'

  /** `re.sub(r'^(?:\? )+', '', s)`: every leading `? ` (a vacat) is removed. */
  function DropLeadingMarks(s: string): (r: string)
    ensures |r| <= |s| && r == s[|s| - |r|..]
    ensures !StartsWith(r, "? ")
    ensures (|s| - |r|) % 2 == 0
    ensures forall i | 0 <= i < |s| - |r| :: s[i] == if i % 2 == 0 then '?' else ' '
    decreases |s|
  {
    if StartsWith(s, "? ") then
      var r := DropLeadingMarks(s[2..]);
      LeadingMarksStep(s, r);
      r
    else s
  }

  /** One leading `? ` in front of a run of them that `DropLeadingMarks` removed from the rest. */
  lemma LeadingMarksStep(s: string, r: string)
    requires StartsWith(s, "? ")
    requires |r| <= |s| - 2 && r == s[2..][|s| - 2 - |r|..] && (|s| - 2 - |r|) % 2 == 0
    requires forall i | 0 <= i < |s| - 2 - |r| :: s[2..][i] == if i % 2 == 0 then '?' else ' '
    ensures r == s[|s| - |r|..] && (|s| - |r|) % 2 == 0
    ensures forall i | 0 <= i < |s| - |r| :: s[i] == if i % 2 == 0 then '?' else ' '
  {
    assert s[..2] == "? ";
    assert s[0] == '?' && s[1] == ' ';
    forall i | 0 <= i < |s| - |r|
      ensures s[i] == if i % 2 == 0 then '?' else ' '
    {
      if i >= 2 {
        assert s[i] == s[2..][i - 2];
        assert (i - 2) % 2 == i % 2;
      }
    }
  }

  predicate EndsWith(s: string, p: string) {
    |p| <= |s| && s[|s| - |p|..] == p
  }

  /** `re.sub(r'(?: \?)+$', '', s)`: every trailing ` ?` is removed. */
  function DropTrailingMarks(s: string): (r: string)
    ensures |r| <= |s| && r == s[..|r|]
    ensures !EndsWith(r, " ?")
    ensures (|s| - |r|) % 2 == 0
    ensures forall i | |r| <= i < |s| :: s[i] == if (i - |r|) % 2 == 0 then ' ' else '?'
    decreases |s|
  {
    if EndsWith(s, " ?") then
      var r := DropTrailingMarks(s[..|s| - 2]);
      assert forall i | |r| <= i < |s| - 2 :: s[i] == s[..|s| - 2][i];
      r
    else s
  }

  /** The line with the invisible mark gone and vacats and white space trimmed from both ends. */
  function CleanLine(s: string): string {
    DropTrailingMarks(DropLeadingMarks(Strip(RemoveChar(s, Pdi))))
  }

  /**
   * `re.match(r'^[\[\]\-?]+$', s)`: one or more brackets, dashes and
   * question marks, optionally followed by a final newline, before which
   * Python's `$` also matches.
   */
  predicate GapOnly(s: string) {
    MarksOnly(if s != [] && s[|s| - 1] == '\n' then s[..|s| - 1] else s)
  }

  /** One or more brackets, dashes and question marks, and nothing else. */
  predicate MarksOnly(b: string) {
    b != [] && forall i | 0 <= i < |b| :: b[i] in "[]-?"
  }

  /** A line of marks that does not end in a newline passes the gap test. */
  lemma MarksGapOnly(x: string)
    requires x != [] && x[|x| - 1] != '\n' && forall d | d in x :: d in "[]-?"
    ensures GapOnly(x)
  {
    assert forall i | 0 <= i < |x| :: x[i] in x;
  }

  /** A line that neither starts with a mark nor ends in a newline fails the gap test. */
  lemma NotGapOnly(x: string)
    requires x != [] && x[|x| - 1] != '\n' && x[0] !in "[]-?"
    ensures !GapOnly(x)
  {
    assert !MarksOnly(x);
  }

  /** `re.sub(c + '+', c, s)`: every run of the character c becomes one c. */
  function CollapseCharRuns(s: string, c: char): (r: string)
    ensures RemoveChar(r, c) == RemoveChar(s, c)
    ensures c in r <==> c in s
    ensures forall i | 0 <= i < |r| - 1 :: !(r[i] == c && r[i + 1] == c)
    ensures r == [] <==> s == []
    ensures r != [] ==> r[0] == s[0]
    ensures forall d | d in r :: d in s
    decreases |s|
  {
    if s == [] then []
    else if |s| >= 2 && s[0] == c && s[1] == c then
      var r := CollapseCharRuns(s[1..], c);
      assert s == [s[0]] + s[1..];
      RemoveCharAppend([s[0]], s[1..], c);
      r
    else
      var rest := CollapseCharRuns(s[1..], c);
      assert s == [s[0]] + s[1..];
      RemoveCharAppend([s[0]], s[1..], c);
      RemoveCharAppend([s[0]], rest, c);
      [s[0]] + rest
  }

  lemma {:induction false} RemoveCharAppend(a: string, b: string, c: char)
    ensures RemoveChar(a + b, c) == RemoveChar(a, c) + RemoveChar(b, c)
  {
    if a == [] {
      assert a + b == b;
    } else {
      assert (a + b)[0] == a[0];
      assert (a + b)[1..] == a[1..] + b;
      RemoveCharAppend(a[1..], b, c);
    }
  }

  /**
   * The small letters among the signs the element renderers emit: the
   * reversed and the dotted reversed lunate sigma of `gtype` (antisigma,
   * antisigma periestigmene) and the Coptic gamma and khi of `ex`.
   */
  const GlyphSigns: string := "\U{037B}\U{037D}\U{2C85}\U{2CAD}"

  /**
   * `c.upper()` on the characters the lines carry: the Latin letters a-z,
   * the Greek small letters α-ω (final sigma becomes Σ), the small digamma,
   * stigma and lunate sigma, and the glyph signs above, which Unicode maps
   * to U+03FD, U+03FF, U+2C84 and U+2CAC. Every other character is its own
   * capital here.
   */
  function UpperChar(c: char): (u: char)
  {
    if 'a' <= c <= 'z' then (c as int - 32) as char
    else if c == '\U{03C2}' then '\U{03A3}'
    else if '\U{03B1}' <= c <= '\U{03C9}' then (c as int - 32) as char
    else if c == '\U{03DD}' then '\U{03DC}'
    else if c == '\U{03DB}' then '\U{03DA}'
    else if c == '\U{03F2}' then '\U{03F9}'
    else if c == '\U{037B}' then '\U{03FD}'
    else if c == '\U{037D}' then '\U{03FF}'
    else if c == '\U{2C85}' then '\U{2C84}'
    else if c == '\U{2CAD}' then '\U{2CAC}'
    else c
  }

  /**
   * The capitalisation as evidently intended: the letters of the
   * transcription are put in capitals, and the glyph signs stay as the
   * renderers wrote them, which is how `validate_line` lists them.
   */
  function UpperKeepingSigns(c: char): char {
    if c in GlyphSigns then c else UpperChar(c)
  }

  /** `s.upper()`, character by character. */
  function Upper(s: string): (r: string)
    ensures |r| == |s| && forall i | 0 <= i < |s| :: r[i] == UpperChar(s[i])
  {
    if s == [] then [] else [UpperChar(s[0])] + Upper(s[1..])
  }

  /** A capital stays a capital: putting a line in capitals twice changes nothing more. */
  lemma UpperIdempotent(s: string)
    ensures Upper(Upper(s)) == Upper(s)
  {
  }

  /** Only letters change case: the bracket marks, digits and signs stay, and no small Latin letter is left. */
  lemma UpperChanges(c: char)
    ensures UpperChar(c) != c ==> ('a' <= c <= 'z' || '\U{03B1}' <= c <= '\U{03C9}' || c in "\U{03DD}\U{03DB}\U{03F2}" || c in GlyphSigns)
    ensures !('a' <= UpperChar(c) <= 'z')
  {
  }

  /**
   * The group rewrites of `format_line` on the tokens of the line, in the
   * source's order, with the merge of dash groups as intended
   * (`MergeDashRuns`): each run of dash groups becomes one group.
   */
  function FormatTokens(ts: seq<Token>): seq<Token>
    requires Valid(ts)
  {
    var a := CollapseLeading(ts);
    ValidCollapseLeading(ts);
    var b := CollapseTrailing(a);
    ValidCollapseTrailing(a);
    CollapseUnknownRuns(AbsorbIntoUnknown(MergeDashRuns(b)))
  }

  lemma ValidCollapseLeading(ts: seq<Token>)
    requires Valid(ts)
    ensures Valid(CollapseLeading(ts))
  {
    var r := CollapseLeading(ts);
    var k := LeadingGroups(ts);
    if k > 0 {
      forall i | 1 <= i < |r| ensures r[i] == ts[k + i - 1] {
        assert r[i] == r[1..][i - 1];
      }
    }
  }

  lemma ValidCollapseTrailing(ts: seq<Token>)
    requires Valid(ts)
    ensures Valid(CollapseTrailing(ts))
  {
  }

  /**
   * The group rewrites of `format_line` on a cleaned line, as written: the
   * groups at the two ends are collapsed, the runs of dash groups are merged
   * by the replace loop (`MergeAsWritten`), and the line that loop leaves is
   * read again for the absorbing into unknown groups and the collapse of
   * runs of them.
   */
  function Rewritten(t: string): string {
    var b := CollapseTrailing(CollapseLeading(Tokenize(Replace(t, "[]", ""))));
    Render(CollapseUnknownRuns(AbsorbIntoUnknown(Tokenize(MergeAsWritten(Render(b))))))
  }

  /** The same rewrites with the merge of dash groups as intended. */
  function RewrittenCorrected(t: string): string {
    Render(FormatTokens(Tokenize(Replace(t, "[]", ""))))
  }

  /** The last two steps of `format_line`: each run of the unknown-abbreviation sign becomes one, and the line goes into capitals. */
  function Finish(h: string): string {
    Upper(CollapseCharRuns(h, Tags.UnknownAbbreviation))
  }

  /** A cleaned line made of brackets, dashes and question marks only, where every dash belongs to a dash group. */
  predicate Dropped(t: string) {
    GapOnly(t) && '-' !in RemoveDashGroups(t)
  }

  /**
   * `Formatter.format_line`, as written. Lines made of brackets, dashes and
   * question marks only are dropped unless a dash stands outside every dash
   * group. Every character of the result is a bracket, a dash, a question
   * mark or the capital of a character of the line other than the invisible
   * mark: formatting rearranges the marks of lost and unread letters and
   * never invents a letter.
   */
  function FormatLine(s: string): (r: string)
    ensures forall d | d in r :: d in "[]-?" || exists c | c in s && c != Pdi :: d == UpperChar(c)
  {
    var t := CleanLine(s);
    if Dropped(t) then ""
    else
      RewrittenFrom(t);
      FinishFrom(s, Rewritten(t));
      Finish(Rewritten(t))
  }

  /**
   * `format_line` with the merge of dash groups as intended
   * (`Brackets.MergeCorrected`) and every other step as written. It keeps
   * the same promise about where the characters of its result come from.
   */
  function FormatLineCorrected(s: string): (r: string)
    ensures forall d | d in r :: d in "[]-?" || exists c | c in s && c != Pdi :: d == UpperChar(c)
  {
    var t := CleanLine(s);
    if Dropped(t) then ""
    else
      RewrittenCorrectedFrom(t);
      FinishFrom(s, RewrittenCorrected(t));
      Finish(RewrittenCorrected(t))
  }

  // ---------------------------------------------------------------------
  // Lines that are dropped.

  /** A line that starts and ends with a mark other than white space or a question mark is left as it is by the clean-up. */
  lemma CleanKeeps(x: string)
    requires x != [] && Pdi !in x
    requires !IsSpace(x[0]) && !IsSpace(x[|x| - 1]) && x[0] != '?' && x[|x| - 1] != '?'
    ensures CleanLine(x) == x
  {
    RemoveCharAbsent(x, Pdi);
    StripKeeps(x);
    assert DropLeadingMarks(x) == x;
    assert !EndsWith(x, " ?");
  }

  /**
   * The clean-up is not idempotent: a vacat followed by two blanks leaves a
   * blank at the front, which only a second clean-up would strip.
   */
  lemma CleanLeavesBlank()
    ensures CleanLine("?  \U{0391}") == " \U{0391}"
    ensures CleanLine(" \U{0391}") == "\U{0391}"
  {
    VacatThenBlank('\U{0391}');
    BlankThenLetter('\U{0391}');
  }

  lemma VacatThenBlank(x: char)
    requires !IsSpace(x) && x != '?' && x != Pdi
    ensures CleanLine(['?', ' ', ' ', x]) == [' ', x]
  {
    VacatThenBlankStripped(x);
    VacatThenBlankLeading(x);
    var u := [' ', x];
    assert u[|u| - 2..] != " ?";
    assert !EndsWith(u, " ?");
  }

  lemma VacatThenBlankStripped(x: char)
    requires !IsSpace(x) && x != Pdi
    ensures Strip(RemoveChar(['?', ' ', ' ', x], Pdi)) == ['?', ' ', ' ', x]
  {
    var s := ['?', ' ', ' ', x];
    assert Pdi !in s;
    RemoveCharAbsent(s, Pdi);
    assert !IsSpace('?');
    StripKeeps(s);
  }

  lemma VacatThenBlankLeading(x: char)
    requires x != '?'
    ensures DropLeadingMarks(['?', ' ', ' ', x]) == [' ', x]
  {
    var s := ['?', ' ', ' ', x];
    assert s[..2] == "? " && s[2..] == [' ', x];
    assert StartsWith(s, "? ");
    var u := [' ', x];
    assert u[..2][0] != '?';
    assert !StartsWith(u, "? ");
  }

  lemma BlankThenLetter(x: char)
    requires !IsSpace(x) && x != '?' && x != Pdi
    ensures CleanLine([' ', x]) == [x]
  {
    var u := [' ', x];
    RemoveCharAbsent(u, Pdi);
    assert TrimStart(u) == [x];
    assert TrimEnd([x]) == [x];
    assert !StartsWith([x], "? ") && !EndsWith([x], " ?");
  }

  lemma {:induction false} DropDashGroupsOfGroups(ts: seq<Token>)
    requires forall i | 0 <= i < |ts| :: IsGroup(ts[i])
    ensures forall i | 0 <= i < |DropDashGroups(ts)| :: DropDashGroups(ts)[i].Unknown?
  {
    if ts != [] {
      DropDashGroupsOfGroups(ts[1..]);
      var r := DropDashGroups(ts);
      var h := if ts[0].Dash? then [] else [ts[0]];
      assert r == h + DropDashGroups(ts[1..]);
      forall i | 0 <= i < |r| ensures r[i].Unknown? {
        if i >= |h| {
          assert r[i] == DropDashGroups(ts[1..])[i - |h|];
        }
      }
    }
  }

  lemma DroppedLine(s: string)
    requires Dropped(CleanLine(s))
    ensures FormatLine(s) == ""
  {
  }

  /** A line made of gap and unknown groups only is dropped. */
  lemma GroupsOnlyDropped(ts: seq<Token>)
    requires ts != [] && Valid(ts) && forall i | 0 <= i < |ts| :: IsGroup(ts[i])
    ensures FormatLine(Render(ts)) == ""
  {
    GroupsOnlyClean(ts);
    GroupsOnlyGapOnly(ts);
    DroppedLine(Render(ts));
  }

  lemma GroupsOnlyClean(ts: seq<Token>)
    requires ts != [] && forall i | 0 <= i < |ts| :: IsGroup(ts[i])
    ensures CleanLine(Render(ts)) == Render(ts)
  {
    RenderGroups(ts);
    GroupsNoPdi(ts);
    CleanKeepsBracketed(Render(ts));
  }

  lemma GroupsNoPdi(ts: seq<Token>)
    requires ts != [] && forall i | 0 <= i < |ts| :: IsGroup(ts[i])
    ensures Pdi !in Render(ts)
  {
    RenderGroups(ts);
  }

  lemma CleanKeepsBracketed(x: string)
    requires x != [] && x[0] == '[' && x[|x| - 1] == ']' && Pdi !in x
    ensures CleanLine(x) == x
  {
    BracketsNotSpace();
    CleanKeeps(x);
  }

  lemma BracketsNotSpace()
    ensures !IsSpace('[') && !IsSpace(']')
  {
  }

  lemma GroupsOnlyGapOnly(ts: seq<Token>)
    requires ts != [] && Valid(ts) && forall i | 0 <= i < |ts| :: IsGroup(ts[i])
    ensures Dropped(Render(ts))
  {
    var x := Render(ts);
    RenderGroups(ts);
    MarksGapOnly(x);
    assert Readable(ts);
    TokenizeRender(ts);
    var u := DropDashGroups(ts);
    DropDashGroupsOfGroups(ts);
    if '-' in Render(u) {
      RenderDashFrom(u);
      assert false;
    }
  }

  /** A line that, once cleaned, is made of brackets and question marks only (no dash) is dropped. */
  lemma BracketsOnlyDropped(s: string)
    requires GapOnly(CleanLine(s)) && '-' !in CleanLine(s)
    ensures FormatLine(s) == ""
  {
    var t := CleanLine(s);
    var ts := Tokenize(t);
    var u := DropDashGroups(ts);
    if '-' in Render(u) {
      RenderDashFrom(u);
      CharTokensNonDash(ts);
      CharTokensMember(u, Char('-'));
      CharTokensMember(ts, Char('-'));
      TokenizeCharsFrom(t);
      assert false;
    }
    assert Dropped(t);
    DroppedLine(s);
  }

  /** A line holding only the invisible mark is dropped. */
  lemma EmptyLineDropped()
    ensures FormatLine([Pdi]) == ""
  {
    assert RemoveChar([Pdi], Pdi) == [];
    assert Strip([]) == [];
    assert CleanLine([Pdi]) == [];
    assert Replace([], "[]", "") == [];
    assert Tokenize([]) == [];
    assert CollapseTrailing(CollapseLeading([])) == [];
    assert MergeAsWritten("") == "";
    assert Rewritten([]) == [];
    assert Finish([]) == [];
  }

  /** `[]` is dropped. */
  lemma EmptyBracketsDropped()
    ensures FormatLine("[]") == ""
  {
    PairDropped("[]");
  }

  lemma PairDropped(x: string)
    requires |x| == 2 && x[0] == '[' && x[1] == ']'
    ensures FormatLine(x) == ""
  {
    PairClean(x);
    BracketsOnlyDropped(x);
  }

  lemma PairClean(x: string)
    requires |x| == 2 && x[0] == '[' && x[1] == ']'
    ensures GapOnly(CleanLine(x)) && '-' !in CleanLine(x)
  {
    assert Pdi !in x;
    CleanKeepsBracketed(x);
    PairGapOnly(x);
  }

  lemma PairGapOnly(x: string)
    requires |x| == 2 && x[0] == '[' && x[1] == ']'
    ensures GapOnly(x) && '-' !in x
  {
    assert x[1] != '\n';
    assert MarksOnly(x);
  }

  /**
   * A gap before a final newline is dropped too, as `$` matches there:
   * `[-]` + newline + ` ?` cleans to `[-]` + newline and formats to nothing.
   */
  lemma GapBeforeNewlineDropped()
    ensures FormatLine("[-]\n ?") == ""
  {
    NewlineGapCleaned();
    NewlineGapIsDropped();
    DroppedLine("[-]\n ?");
  }

  /** Cleaning `[-]\n ?` takes off the trailing unknown mark and keeps the newline. */
  lemma NewlineGapCleaned()
    ensures CleanLine("[-]\n ?") == "[-]\n"
  {
    NewlineGapStripped();
    NewlineGapLeading();
    NewlineGapTrailing();
  }

  lemma NewlineGapLeading()
    ensures DropLeadingMarks("[-]\n ?") == "[-]\n ?"
  {
    var s := "[-]\n ?";
    assert s[0] == '[';
    assert !StartsWith(s, "? ");
  }

  lemma NewlineGapStripped()
    ensures Strip(RemoveChar("[-]\n ?", Pdi)) == "[-]\n ?"
  {
    var s := "[-]\n ?";
    assert Pdi !in s;
    RemoveCharAbsent(s, Pdi);
    assert !IsSpace(s[0]) && !IsSpace(s[|s| - 1]);
    StripKeeps(s);
  }

  lemma NewlineGapTrailing()
    ensures DropTrailingMarks("[-]\n ?") == "[-]\n"
  {
    var s := "[-]\n ?";
    assert s[|s| - 2..] == " ?" && s[..|s| - 2] == "[-]\n";
    var t := "[-]\n";
    assert t[|t| - 2..] != " ?";
    assert DropTrailingMarks(t) == t;
  }

  /** `[-]` followed by a newline counts as a line of gap marks whose only dash is in a dash group. */
  lemma NewlineGapIsDropped()
    ensures Dropped("[-]\n")
  {
    var t := "[-]\n";
    assert GapOnly(t) by {
      assert t[..|t| - 1] == "[-]";
      assert MarksOnly("[-]");
    }
    assert t == DashGroup(1) + "\n";
    TokenizeDashGroup(1, "\n");
    TokenizeCharFront('\n', "");
    assert Tokenize(t) == [Dash(1), Char('\n')];
    assert DropDashGroups([Dash(1), Char('\n')]) == [Char('\n')];
  }

  /** `[------]` is dropped. */
  lemma FullGapDropped()
    ensures FormatLine("[------]") == ""
  {
    assert Render([Dash(6)]) == "[------]";
    GroupsOnlyDropped([Dash(6)]);
  }

  /**
   * After the rewrites no two gap groups stand side by side, no gap group
   * stands beside an unknown group and no two unknown groups stand side by
   * side.
   */
  lemma FormatTokensSettled(ts: seq<Token>)
    requires Valid(ts)
    ensures Settled(FormatTokens(ts))
  {
    var a := CollapseLeading(ts);
    ValidCollapseLeading(ts);
    var b := CollapseTrailing(a);
    ValidCollapseTrailing(a);
    var m := MergeDashRuns(b);
    AbsorbKeepsNoAdjacentDashes(m);
    AbsorbLeavesNoDashBeside(m);
    CollapseUnknownSettles(AbsorbIntoUnknown(m));
  }

  // ---------------------------------------------------------------------
  // Where the characters of a formatted line come from.

  lemma SliceMembers(a: string, x: int, y: int)
    requires 0 <= x <= y <= |a|
    ensures forall d | d in a[x..y] :: d in a
  {
    forall d | d in a[x..y] ensures d in a {
      var i :| 0 <= i < y - x && a[x..y][i] == d;
      assert a[x + i] == d;
    }
  }

  lemma CleanLineFrom(s: string)
    ensures forall d | d in CleanLine(s) :: d in s && d != Pdi
  {
    var a := RemoveChar(s, Pdi);
    var b := Strip(a);
    var x, y :| 0 <= x <= y <= |a| && b == a[x..y];
    SliceMembers(a, x, y);
    var c := DropLeadingMarks(b);
    SliceMembers(b, |b| - |c|, |b|);
    var t := DropTrailingMarks(c);
    SliceMembers(c, 0, |t|);
    assert t == CleanLine(s);
  }

  lemma CollapseLeadingFrom(ts: seq<Token>)
    ensures forall t | t in CollapseLeading(ts) && t.Char? :: t in ts || t == Char(']')
  {
    var r := CollapseLeading(ts);
    var k := LeadingGroups(ts);
    forall t | t in r && t.Char? ensures t in ts || t == Char(']') {
      var j :| 0 <= j < |r| && r[j] == t;
      if k > 0 && j > 0 {
        assert r[j] == r[1..][j - 1] == ts[k + j - 1];
      }
    }
  }

  lemma CollapseTrailingFrom(ts: seq<Token>)
    ensures forall t | t in CollapseTrailing(ts) && t.Char? :: t in ts || t == Char('[')
  {
    var r := CollapseTrailing(ts);
    var e := if |ts| > 0 && ts[|ts| - 1] == Char('\n') then ts[..|ts| - 1] else ts;
    var k := TrailingGroups(e);
    forall t | t in r && t.Char? ensures t in ts || t == Char('[') {
      var i :| 0 <= i < |r| && r[i] == t;
      if i < |e| - k {
        assert r[i] == e[i] == ts[i];
      } else if i > |e| - k || k == 0 {
        assert e != ts && i == |r| - 1;
      }
    }
  }

  /** Absorbing and collapsing unknown groups keep the character tokens as they are. */
  lemma AbsorbCollapseFrom(x: seq<Token>)
    ensures forall t | t in CollapseUnknownRuns(AbsorbIntoUnknown(x)) && t.Char? :: t in x
  {
    var a := AbsorbIntoUnknown(x);
    var r := CollapseUnknownRuns(a);
    AbsorbKeepsNonDash(x);
    CharTokensNonDash(a);
    CharTokensNonDash(x);
    CharTokensNonUnknown(a);
    CharTokensNonUnknown(r);
    assert CharTokens(r) == CharTokens(x);
    forall t | t in r && t.Char? ensures t in x {
      CharTokensMember(r, t);
      CharTokensMember(x, t);
    }
  }

  /** Merging and absorbing dash groups and collapsing unknown groups keep the character tokens as they are. */
  lemma GroupRewritesFrom(b: seq<Token>)
    requires Valid(b)
    ensures forall t | t in CollapseUnknownRuns(AbsorbIntoUnknown(MergeDashRuns(b))) && t.Char? :: t in b
  {
    var m := MergeDashRuns(b);
    AbsorbCollapseFrom(m);
    CharTokensUnmerged(m);
    CharTokensUnmerged(b);
    forall t | t in CollapseUnknownRuns(AbsorbIntoUnknown(m)) && t.Char? ensures t in b {
      CharTokensMember(m, t);
      CharTokensMember(b, t);
    }
  }

  /** Apart from a `]` at the front and a `[` at the end, every character token left by the rewrites was in the line. */
  lemma FormatTokensFrom(ts: seq<Token>)
    requires Valid(ts)
    ensures forall t | t in FormatTokens(ts) && t.Char? :: t in ts || t.c in "[]"
  {
    var a := CollapseLeading(ts);
    ValidCollapseLeading(ts);
    CollapseLeadingFrom(ts);
    var b := CollapseTrailing(a);
    ValidCollapseTrailing(a);
    CollapseTrailingFrom(a);
    GroupRewritesFrom(b);
  }

  /** The group rewrites as written bring in no character other than the group marks. */
  lemma RewrittenFrom(t: string)
    ensures forall d | d in Rewritten(t) :: d in "[]-?" || d in t
  {
    var e := Replace(t, "[]", "");
    ReplaceFrom(t, "[]", "");
    var ts := Tokenize(e);
    TokenizeCharsFrom(e);
    var a := CollapseLeading(ts);
    CollapseLeadingFrom(ts);
    var b := CollapseTrailing(a);
    CollapseTrailingFrom(a);
    RenderFrom(b);
    var m := MergeAsWritten(Render(b));
    ReplaceRunsFrom(Render(b), DashRunTexts(Tokenize(Render(b))));
    var x := Tokenize(m);
    TokenizeCharsFrom(m);
    var r := CollapseUnknownRuns(AbsorbIntoUnknown(x));
    AbsorbCollapseFrom(x);
    RenderFrom(r);
    forall d | d in Render(r) && d !in "[]-?" ensures d in t {
      assert Char(d) in r;
      assert d in m;
      assert Char(d) in b;
      assert Char(d) in ts;
    }
  }

  /** So do the group rewrites with the merge as intended. */
  lemma RewrittenCorrectedFrom(t: string)
    ensures forall d | d in RewrittenCorrected(t) :: d in "[]-?" || d in t
  {
    var e := Replace(t, "[]", "");
    ReplaceFrom(t, "[]", "");
    var ts := Tokenize(e);
    TokenizeCharsFrom(e);
    var f := FormatTokens(ts);
    FormatTokensFrom(ts);
    RenderFrom(f);
    forall d | d in Render(f) && d !in "[]-?" ensures d in t {
      assert Char(d) in f;
      assert Char(d) in ts;
    }
  }

  lemma UpperFrom(h: string)
    ensures forall d | d in Upper(h) :: exists x | x in h :: d == UpperChar(x)
  {
    var r := Upper(h);
    forall d | d in r ensures exists x | x in h :: d == UpperChar(x) {
      var i :| 0 <= i < |r| && r[i] == d;
      assert d == UpperChar(h[i]);
    }
  }

  lemma UpperOfFrom(h: string, t: string)
    requires forall x | x in h :: x in "[]-?" || x in t
    ensures forall d | d in Upper(h) :: d in "[]-?" || exists c | c in t :: d == UpperChar(c)
  {
    UpperFrom(h);
    forall d | d in Upper(h) ensures d in "[]-?" || exists c | c in t :: d == UpperChar(c) {
      var x :| x in h && d == UpperChar(x);
      if x in "[]-?" {
        MarksUpper(x);
      } else {
        assert x in t;
      }
    }
  }

  lemma MarksUpper(x: char)
    requires x in "[]-?"
    ensures UpperChar(x) == x
  {
    assert x == '[' || x == ']' || x == '-' || x == '?';
  }

  /** The last two steps keep the marks and put the other characters of a cleaned line into capitals. */
  lemma FinishFrom(s: string, h: string)
    requires forall x | x in h :: x in "[]-?" || x in CleanLine(s)
    ensures forall d | d in Finish(h) :: d in "[]-?" || exists c | c in s && c != Pdi :: d == UpperChar(c)
  {
    var t := CleanLine(s);
    CleanLineFrom(s);
    UpperOfFrom(CollapseCharRuns(h, Tags.UnknownAbbreviation), t);
    forall d | d in Finish(h) && d !in "[]-?" ensures exists c | c in s && c != Pdi :: d == UpperChar(c) {
      var c :| c in t && d == UpperChar(c);
      assert c in s && c != Pdi;
    }
  }

  lemma CapitalsClean(r: string, s: string)
    requires forall d | d in r :: d in "[]-?" || exists c | c in s && c != Pdi :: d == UpperChar(c)
    ensures Pdi !in r
    ensures forall d | d in r :: !('a' <= d <= 'z')
  {
    forall d | d in r ensures d != Pdi && !('a' <= d <= 'z') {
      if d !in "[]-?" {
        var c :| c in s && c != Pdi && d == UpperChar(c);
        UpperChanges(c);
      }
    }
  }

  /** A formatted line holds neither the invisible mark nor a small Latin letter. */
  lemma FormatLineClean(s: string)
    ensures Pdi !in FormatLine(s)
    ensures forall d | d in FormatLine(s) :: !('a' <= d <= 'z')
  {
    CapitalsClean(FormatLine(s), s);
  }

  lemma UpperKeepsSingleSign(h: string, c: char)
    requires forall i | 0 <= i < |h| - 1 :: !(h[i] == c && h[i + 1] == c)
    requires forall x :: UpperChar(x) == c ==> x == c
    ensures forall i | 0 <= i < |Upper(h)| - 1 :: !(Upper(h)[i] == c && Upper(h)[i + 1] == c)
  {
  }

  lemma OnlyAbbreviationSignCapitalizesToIt(x: char)
    ensures UpperChar(x) == Tags.UnknownAbbreviation ==> x == Tags.UnknownAbbreviation
  {
    UpperChanges(x);
  }

  lemma FinishSingleSign(h: string)
    ensures forall i | 0 <= i < |Finish(h)| - 1 ::
      !(Finish(h)[i] == Tags.UnknownAbbreviation && Finish(h)[i + 1] == Tags.UnknownAbbreviation)
  {
    forall x ensures UpperChar(x) == Tags.UnknownAbbreviation ==> x == Tags.UnknownAbbreviation {
      OnlyAbbreviationSignCapitalizesToIt(x);
    }
    UpperKeepsSingleSign(CollapseCharRuns(h, Tags.UnknownAbbreviation), Tags.UnknownAbbreviation);
  }

  /** A formatted line never holds the sign for an unresolved abbreviation twice in a row. */
  lemma FormatLineSingleAbbreviationSign(s: string)
    ensures forall i | 0 <= i < |FormatLine(s)| - 1 ::
      !(FormatLine(s)[i] == Tags.UnknownAbbreviation && FormatLine(s)[i + 1] == Tags.UnknownAbbreviation)
  {
    var t := CleanLine(s);
    if !Dropped(t) {
      FinishSingleSign(Rewritten(t));
    }
  }

  /**
   * A line without group marks and without the unknown-abbreviation sign,
   * starting and ending with a visible character, is only put in capitals.
   */
  lemma PlainLineCapitalised(s: string)
    requires s != [] && Pdi !in s && !IsSpace(s[0]) && !IsSpace(s[|s| - 1])
    requires forall i | 0 <= i < |s| :: s[i] !in "[]-?" && s[i] != Tags.UnknownAbbreviation
    ensures FormatLine(s) == Upper(s)
  {
    PlainKept(s);
    assert '[' !in s by {
      assert forall i | 0 <= i < |s| :: s[i] != '[';
    }
    PlainRewritten(s);
    PlainFinished(s);
  }

  lemma PlainKept(s: string)
    requires s != [] && Pdi !in s && !IsSpace(s[0]) && !IsSpace(s[|s| - 1])
    requires forall i | 0 <= i < |s| :: s[i] !in "[]-?"
    ensures CleanLine(s) == s && !Dropped(s)
  {
    CleanKeeps(s);
    assert s[|s| - 1] != '\n' && s[0] !in "[]-?";
    NotGapOnly(s);
  }

  /** A line without `[` that ends in a visible character comes through the group rewrites as written unchanged. */
  lemma PlainRewritten(s: string)
    requires s != [] && !IsSpace(s[|s| - 1]) && '[' !in s
    ensures Rewritten(s) == s
  {
    PlainNoEmptyPair(s);
    ReplaceAbsent(s, "[]", "");
    TokenizeNoBracket(s);
    var ts := Chars(s);
    PlainTokens(ts, s);
    EndsKept(ts);
    RenderChars(s);
    DashRunsWithoutDashes(ts);
    AbsorbWithoutDashes(ts);
    UnknownRunsWithoutUnknowns(ts);
  }

  lemma PlainNoEmptyPair(s: string)
    requires '[' !in s
    ensures !ContainsSub(s, "[]")
  {
    forall i | 0 <= i <= |s| - 2 ensures !OccursAt(s, "[]", i) {
      assert s[i..i + 2][0] == s[i];
    }
  }

  /** The tokens of a plain line are characters other than marks, and its last one is no newline. */
  lemma PlainTokens(ts: seq<Token>, s: string)
    requires |ts| == |s| && forall i | 0 <= i < |ts| :: ts[i] == Char(s[i])
    requires s != [] && !IsSpace(s[|s| - 1])
    ensures ts != [] && !IsGroup(ts[0]) && !IsGroup(ts[|ts| - 1]) && ts[|ts| - 1] != Char('\n')
    ensures forall i | 0 <= i < |ts| :: !ts[i].Dash? && !ts[i].Unknown?
  {
    assert s[|s| - 1] != '\n';
  }

  /** The same for the group rewrites with the merge as intended. */
  lemma PlainRewrittenCorrected(s: string)
    requires s != [] && !IsSpace(s[|s| - 1]) && '[' !in s
    ensures RewrittenCorrected(s) == s
  {
    PlainNoEmptyPair(s);
    ReplaceAbsent(s, "[]", "");
    TokenizeNoBracket(s);
    var ts := Chars(s);
    PlainTokens(ts, s);
    EndsKept(ts);
    RenderChars(s);
    MergeWithoutDashes(ts);
    AbsorbWithoutDashes(ts);
    UnknownRunsWithoutUnknowns(ts);
  }

  // ---------------------------------------------------------------------
  // Lines of gap marks that are kept.

  /**
   * A line of bare dashes, the rendering of illegible letters, passes the
   * gap test but keeps a dash outside every dash group, so `format_line`
   * returns it unchanged, as written and with the merge as intended.
   */
  lemma BareDashesKept(s: string)
    requires s != [] && forall i | 0 <= i < |s| :: s[i] == '-'
    ensures FormatLine(s) == s && FormatLineCorrected(s) == s
  {
    BareDashesClean(s);
    BareDashesNotDropped(s);
    assert '[' !in s && s[|s| - 1] == '-';
    PlainRewritten(s);
    PlainRewrittenCorrected(s);
    BareDashesFinished(s);
  }

  lemma BareDashesClean(s: string)
    requires s != [] && forall i | 0 <= i < |s| :: s[i] == '-'
    ensures CleanLine(s) == s
  {
    assert Pdi !in s && s[0] == '-' && s[|s| - 1] == '-';
    CleanKeeps(s);
  }

  lemma BareDashesNotDropped(s: string)
    requires s != [] && forall i | 0 <= i < |s| :: s[i] == '-'
    ensures GapOnly(s) && !Dropped(s)
  {
    assert s[|s| - 1] != '\n';
    assert MarksOnly(s);
    assert '[' !in s;
    TokenizeNoBracket(s);
    var ts := Chars(s);
    assert forall i | 0 <= i < |ts| :: !ts[i].Dash?;
    DropDashesWithoutDashes(ts);
    RenderChars(s);
    assert RemoveDashGroups(s) == s;
    assert s[0] in s;
  }

  lemma {:induction false} DropDashesWithoutDashes(ts: seq<Token>)
    requires forall i | 0 <= i < |ts| :: !ts[i].Dash?
    ensures DropDashGroups(ts) == ts
  {
    if ts != [] {
      DropDashesWithoutDashes(ts[1..]);
    }
  }

  lemma BareDashesFinished(s: string)
    requires forall i | 0 <= i < |s| :: s[i] == '-'
    ensures Finish(s) == s
  {
    assert Tags.UnknownAbbreviation !in s;
    PlainFinished(s);
    assert Upper(s) == s;
  }

  /** A token sequence that neither starts nor ends with a group, nor ends in a newline, keeps its ends. */
  lemma EndsKept(ts: seq<Token>)
    requires ts != [] && !IsGroup(ts[0]) && !IsGroup(ts[|ts| - 1]) && ts[|ts| - 1] != Char('\n')
    ensures CollapseTrailing(CollapseLeading(ts)) == ts
  {
    assert LeadingGroups(ts) == 0;
    assert TrailingGroups(ts) == 0;
  }

  lemma PlainFinished(s: string)
    requires Tags.UnknownAbbreviation !in s
    ensures Finish(s) == Upper(s)
  {
    RemoveCharAbsent(s, Tags.UnknownAbbreviation);
    RemoveCharAbsent(CollapseCharRuns(s, Tags.UnknownAbbreviation), Tags.UnknownAbbreviation);
  }

  // ---------------------------------------------------------------------
  // The group rewrites on sample lines, read as tokens.

  /** `Α[---][----]Β`: two adjacent lost stretches become one of seven letters. */
  lemma CombineSample()
    ensures FormatTokens([Char('\U{0391}'), Dash(3), Dash(4), Char('\U{0392}')])
         == [Char('\U{0391}'), Dash(7), Char('\U{0392}')]
  {
    var a, b := Char('\U{0391}'), Char('\U{0392}');
    var ts := [a, Dash(3), Dash(4), b];
    assert LeadingGroups(ts) == 0 && TrailingGroups(ts) == 0;
    assert CollapseTrailing(CollapseLeading(ts)) == ts;
    CombineSampleMerged();
    var m := [a, Dash(7), b];
    assert m[1..] == [Dash(7), b] && m[2..] == [b];
    AbsorbWithoutDashes([b]);
    assert LeadingDashGroups(m[1..]) == 1;
    assert AbsorbIntoUnknown(m[1..]) == [Dash(7)] + AbsorbIntoUnknown([b]);
    assert AbsorbIntoUnknown(m) == m;
    assert CollapseUnknownRuns([b]) == [b];
    assert CollapseUnknownRuns(m[1..]) == m[1..];
  }

  lemma CombineSampleMerged()
    ensures MergeDashRuns([Char('\U{0391}'), Dash(3), Dash(4), Char('\U{0392}')])
         == [Char('\U{0391}'), Dash(7), Char('\U{0392}')]
  {
    var a, b := Char('\U{0391}'), Char('\U{0392}');
    var ts := [a, Dash(3), Dash(4), b];
    var run := ts[1..];
    assert run == [Dash(3), Dash(4), b] && run[1..] == [Dash(4), b] && run[2..] == [b];
    assert run[1..][1..] == run[2..];
    assert LeadingDashGroups(run[2..]) == 0;
    assert LeadingDashGroups(run[1..]) == 1;
    assert LeadingDashGroups(run) == 2;
    var two := run[..2];
    assert two == [Dash(3), Dash(4)] && two[1..] == [Dash(4)] && two[1..][1..] == [];
    assert DashTotal(two[1..][1..]) == 0;
    assert DashTotal(two[1..]) == 4;
    assert DashTotal(two) == 7;
    MergeWithoutDashes([b]);
    assert MergeDashRuns(run) == [Dash(7), b];
  }

  /** `Α[---][--][?]Β`: lost stretches beside an unknown stretch are absorbed into it. */
  lemma AbsorbSample()
    ensures FormatTokens([Char('\U{0391}'), Dash(3), Dash(2), Unknown, Char('\U{0392}')])
         == [Char('\U{0391}'), Unknown, Char('\U{0392}')]
  {
    var a, b := Char('\U{0391}'), Char('\U{0392}');
    var ts := [a, Dash(3), Dash(2), Unknown, b];
    assert LeadingGroups(ts) == 0 && TrailingGroups(ts) == 0;
    assert CollapseTrailing(CollapseLeading(ts)) == ts;
    AbsorbSampleMerged();
    AbsorbSampleAbsorbed();
    assert CollapseUnknownRuns([b]) == [b];
    var u := [Unknown, b];
    assert u[1..] == [b] && LeadingUnknowns(u) == 1;
    assert CollapseUnknownRuns(u) == u;
  }

  /** The merge step of the sample: the two dash groups become one of five. */
  lemma AbsorbSampleMerged()
    ensures MergeDashRuns([Char('\U{0391}'), Dash(3), Dash(2), Unknown, Char('\U{0392}')])
         == [Char('\U{0391}'), Dash(5), Unknown, Char('\U{0392}')]
  {
    var a, b := Char('\U{0391}'), Char('\U{0392}');
    var ts := [a, Dash(3), Dash(2), Unknown, b];
    var run := ts[1..];
    assert run == [Dash(3), Dash(2), Unknown, b] && run[1..] == [Dash(2), Unknown, b] && run[2..] == [Unknown, b];
    assert run[1..][1..] == run[2..];
    assert LeadingDashGroups(run[2..]) == 0;
    assert LeadingDashGroups(run[1..]) == 1;
    assert LeadingDashGroups(run) == 2;
    var two := run[..2];
    assert two == [Dash(3), Dash(2)] && two[1..] == [Dash(2)] && two[1..][1..] == [];
    assert DashTotal(two[1..]) == 2;
    assert DashTotal(two) == 5;
    MergeWithoutDashes([Unknown, b]);
    assert MergeDashRuns(run) == [Dash(5), Unknown, b];
  }

  /** The absorbing step of the sample: the group of five disappears into the unknown one. */
  lemma AbsorbSampleAbsorbed()
    ensures AbsorbIntoUnknown([Char('\U{0391}'), Dash(5), Unknown, Char('\U{0392}')])
         == [Char('\U{0391}'), Unknown, Char('\U{0392}')]
  {
    var a, b := Char('\U{0391}'), Char('\U{0392}');
    var m := [a, Dash(5), Unknown, b];
    var u := [Unknown, b];
    assert m[1..] == [Dash(5)] + u && m[1..][2..] == [b] && u[1..] == [b];
    assert LeadingDashGroups([b]) == 0;
    assert LeadingDashGroups(m[1..]) == 1;
    AbsorbWithoutDashes([b]);
    assert AbsorbIntoUnknown(m[1..]) == u;
    assert LeadingDashGroups(m) == 0;
  }

  /** A line without lost stretches is left alone by the merge of dash groups. */
  lemma {:induction false} MergeWithoutDashes(ts: seq<Token>)
    requires forall i | 0 <= i < |ts| :: !ts[i].Dash?
    ensures MergeDashRuns(ts) == ts
  {
    if ts != [] {
      MergeWithoutDashes(ts[1..]);
    }
  }

  /** A line without lost stretches holds no run of them for the merge loop to find. */
  lemma {:induction false} DashRunsWithoutDashes(ts: seq<Token>)
    requires forall i | 0 <= i < |ts| :: !ts[i].Dash?
    ensures DashRunTexts(ts) == []
  {
    if ts != [] {
      DashRunsWithoutDashes(ts[1..]);
    }
  }

  /** A line without unknown stretches is left alone by the collapse of their runs. */
  lemma {:induction false} UnknownRunsWithoutUnknowns(ts: seq<Token>)
    requires forall i | 0 <= i < |ts| :: !ts[i].Unknown?
    ensures CollapseUnknownRuns(ts) == ts
  {
    if ts != [] {
      UnknownRunsWithoutUnknowns(ts[1..]);
    }
  }

  /** A line without lost stretches is left alone by the absorbing into unknown stretches. */
  lemma {:induction false} AbsorbWithoutDashes(ts: seq<Token>)
    requires forall i | 0 <= i < |ts| :: !ts[i].Dash?
    ensures AbsorbIntoUnknown(ts) == ts
  {
    if ts != [] {
      assert LeadingDashGroups(ts) == 0;
      assert LeadingDashGroups(ts[1..]) == 0 by {
        if |ts| > 1 { assert ts[1..][0] == ts[1]; }
      }
      AbsorbWithoutDashes(ts[1..]);
    }
  }

  /** `Α[?][?]Β`: a run of unknown stretches becomes one. */
  lemma UnknownRunSample()
    ensures FormatTokens([Char('\U{0391}'), Unknown, Unknown, Char('\U{0392}')])
         == [Char('\U{0391}'), Unknown, Char('\U{0392}')]
  {
    var a, b := Char('\U{0391}'), Char('\U{0392}');
    var ts := [a, Unknown, Unknown, b];
    assert LeadingGroups(ts) == 0 && TrailingGroups(ts) == 0;
    assert CollapseTrailing(CollapseLeading(ts)) == ts;
    MergeWithoutDashes(ts);
    AbsorbWithoutDashes(ts);
    assert ts[1..] == [Unknown, Unknown, b] && ts[1..][2..] == [b];
    assert LeadingUnknowns([b]) == 0;
    assert LeadingUnknowns([Unknown, Unknown, b]) == 2;
    assert CollapseUnknownRuns([b]) == [b];
    assert CollapseUnknownRuns([Unknown, Unknown, b]) == [Unknown, b];
  }

  /**
   * `format_line` itself on a line such as `Α[?][?]Β`: the run of unknown
   * stretches between two letters becomes one, and the letters go into
   * capitals.
   */
  lemma UnknownRunLine(x: char, y: char)
    requires PlainEnd(x) && PlainEnd(y)
    ensures FormatLine([x] + "[?][?]" + [y]) == [UpperChar(x)] + "[?]" + [UpperChar(y)]
  {
    UnknownRunLineKept(x, y);
    UnknownRunLineRewritten(x, y);
    UnknownRunLineFinished(x, y);
  }

  /** A character that is neither a group mark, white space, the invisible mark nor the unknown-abbreviation sign. */
  predicate PlainEnd(c: char) {
    c !in "[]-?" && !IsSpace(c) && c != Pdi && c != Tags.UnknownAbbreviation
  }

  lemma UnknownRunLineKept(x: char, y: char)
    requires PlainEnd(x) && PlainEnd(y)
    ensures CleanLine([x] + "[?][?]" + [y]) == [x] + "[?][?]" + [y]
    ensures !Dropped([x] + "[?][?]" + [y])
  {
    var s := [x] + "[?][?]" + [y];
    assert s[0] == x && s[|s| - 1] == y;
    assert Pdi !in s by {
      assert Pdi !in "[?][?]";
    }
    CleanKeeps(s);
    assert s[|s| - 1] != '\n';
    NotGapOnly(s);
  }

  lemma UnknownRunLineRewritten(x: char, y: char)
    requires PlainEnd(x) && PlainEnd(y)
    ensures Rewritten([x] + "[?][?]" + [y]) == [x] + "[?]" + [y]
  {
    var a, b := Char(x), Char(y);
    var ts := [a, Unknown, Unknown, b];
    var s := [x] + "[?][?]" + [y];
    UnknownRunRendered(a, b);
    assert Render([a, Unknown, b]) == [x] + "[?]" + [y];
    UnknownRunLineNoEmptyPair(s);
    ReplaceAbsent(s, "[]", "");
    assert Readable(ts);
    TokenizeRender(ts);
    assert CollapseTrailing(CollapseLeading(ts)) == ts by {
      assert LeadingGroups(ts) == 0 && TrailingGroups(ts) == 0;
    }
    DashRunsWithoutDashes(ts);
    assert MergeAsWritten(s) == s;
    MergeWithoutDashes(ts);
    AbsorbWithoutDashes(ts);
    UnknownRunCollapsed(a, b);
  }

  /** Two unknown groups between two characters collapse into one. */
  lemma UnknownRunCollapsed(a: Token, b: Token)
    requires a.Char? && b.Char?
    ensures CollapseUnknownRuns([a, Unknown, Unknown, b]) == [a, Unknown, b]
  {
    var ts := [a, Unknown, Unknown, b];
    assert ts[1..] == [Unknown, Unknown, b] && ts[1..][2..] == [b];
    assert LeadingUnknowns([b]) == 0;
    assert LeadingUnknowns([Unknown, Unknown, b]) == 2;
    assert CollapseUnknownRuns([b]) == [b];
    assert CollapseUnknownRuns([Unknown, Unknown, b]) == [Unknown, b];
  }

  lemma UnknownRunRendered(a: Token, b: Token)
    requires a.Char? && b.Char?
    ensures Render([a, Unknown, Unknown, b]) == [a.c] + "[?][?]" + [b.c]
    ensures Render([a, Unknown, b]) == [a.c] + "[?]" + [b.c]
  {
    assert Render([b]) == [b.c];
    var ts := [a, Unknown, Unknown, b];
    assert ts[1..] == [Unknown, Unknown, b] && ts[1..][1..] == [Unknown, b] && ts[1..][1..][1..] == [b];
    assert Render([Unknown, b]) == "[?]" + [b.c];
    assert Render([Unknown, Unknown, b]) == "[?][?]" + [b.c];
    var us := [a, Unknown, b];
    assert us[1..] == [Unknown, b];
  }

  lemma UnknownRunLineNoEmptyPair(s: string)
    requires |s| == 8 && s[1..7] == "[?][?]"
    ensures !ContainsSub(s, "[]")
  {
    assert forall k | 1 <= k < 7 :: s[k] == s[1..7][k - 1];
    forall i | 0 <= i <= |s| - 2 ensures !OccursAt(s, "[]", i) {
      assert s[i..i + 2][0] == s[i] && s[i..i + 2][1] == s[i + 1];
    }
  }

  lemma UnknownRunLineFinished(x: char, y: char)
    requires PlainEnd(x) && PlainEnd(y)
    ensures Finish([x] + "[?]" + [y]) == [UpperChar(x)] + "[?]" + [UpperChar(y)]
  {
    var h := [x] + "[?]" + [y];
    assert Tags.UnknownAbbreviation !in h;
    PlainFinished(h);
    var u := Upper(h);
    assert u[1] == '[' && u[2] == '?' && u[3] == ']';
  }

  /** `[?][----]Α[?][--]`: the groups at the ends become the break marks `]` and `[`. */
  lemma EdgeGroupsSample()
    ensures FormatTokens([Unknown, Dash(4), Char('\U{0391}'), Unknown, Dash(2)])
         == [Char(']'), Char('\U{0391}'), Char('[')]
  {
    var a := Char('\U{0391}');
    EdgeLeading(a);
    EdgeTrailing(a);
    EdgeSettled(a);
  }

  lemma EdgeLeading(a: Token)
    requires a == Char('\U{0391}')
    ensures CollapseLeading([Unknown, Dash(4), a, Unknown, Dash(2)]) == [Char(']'), a, Unknown, Dash(2)]
  {
    var ts := [Unknown, Dash(4), a, Unknown, Dash(2)];
    assert ts[1..] == [Dash(4), a, Unknown, Dash(2)] && ts[2..] == [a, Unknown, Dash(2)];
    assert LeadingGroups(ts[2..]) == 0;
    assert LeadingGroups(ts[1..]) == 1;
    assert LeadingGroups(ts) == 2;
  }

  lemma EdgeTrailing(a: Token)
    requires a == Char('\U{0391}')
    ensures CollapseTrailing([Char(']'), a, Unknown, Dash(2)]) == [Char(']'), a, Char('[')]
  {
    var l := [Char(']'), a, Unknown, Dash(2)];
    assert l[..3] == [Char(']'), a, Unknown] && l[..2] == [Char(']'), a];
    assert TrailingGroups(l[..2]) == 0;
    assert TrailingGroups(l[..3]) == 1;
    assert TrailingGroups(l) == 2;
  }

  lemma EdgeSettled(a: Token)
    requires a == Char('\U{0391}')
    ensures CollapseUnknownRuns(AbsorbIntoUnknown(MergeDashRuns([Char(']'), a, Char('[')]))) == [Char(']'), a, Char('[')]
  {
    var m := [Char(']'), a, Char('[')];
    MergeWithoutDashes(m);
    AbsorbWithoutDashes(m);
    assert m[1..] == [a, Char('[')] && m[1..][1..] == [Char('[')];
    assert CollapseUnknownRuns([Char('[')]) == [Char('[')];
    assert CollapseUnknownRuns([a, Char('[')]) == [a, Char('[')];
  }
}
