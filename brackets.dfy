/**
 * The bracket groups of a formatted line. The regular expressions with which
 * `format_line` rewrites gaps all match runs of two kinds of group: a lost
 * stretch `[-…-]` (one or more dashes between square brackets) and an
 * unknown stretch `[?]`. A line is read left to right as a sequence of
 * tokens: a group wherever one starts, any other character on its own. No
 * group can start inside another one (inside `[--]` and `[?]` there is no
 * `[`), so every position at which those expressions can match is a token
 * boundary, and each rewrite is a function on the token sequence.
 */
module Brackets {
  import opened Strings

  datatype Token = Dash(n: nat) | Unknown | Char(c: char)

  /** A lost stretch or an unknown stretch. */
  predicate IsGroup(t: Token) {
    t.Dash? || t.Unknown?
  }

  /** Tokens as `Tokenize` produces them: every dash group holds at least one dash. */
  predicate Valid(ts: seq<Token>) {
    forall i | 0 <= i < |ts| :: ts[i].Dash? ==> ts[i].n >= 1
  }

  /** `[` followed by n dashes and `]`. */
  function DashGroup(n: nat): (r: string)
    ensures |r| == n + 2 && r[0] == '[' && r[n + 1] == ']'
    ensures forall i | 1 <= i <= n :: r[i] == '-'
  {
    "[" + Repeat('-', n) + "]"
  }

  function Text(t: Token): string {
    match t
    case Dash(n) => DashGroup(n)
    case Unknown => "[?]"
    case Char(c) => [c]
  }

  /** The line a token sequence stands for. */
  function Render(ts: seq<Token>): string {
    if ts == [] then "" else Text(ts[0]) + Render(ts[1..])
  }

  lemma {:induction false} RenderAppend(a: seq<Token>, b: seq<Token>)
    ensures Render(a + b) == Render(a) + Render(b)
  {
    if a == [] {
      assert a + b == b;
    } else {
      assert (a + b)[0] == a[0];
      assert (a + b)[1..] == a[1..] + b;
      RenderAppend(a[1..], b);
    }
  }

  /** The number of dashes s starts with. */
  function LeadingDashes(s: string): (k: nat)
    ensures k <= |s|
    ensures forall i | 0 <= i < k :: s[i] == '-'
    ensures k < |s| ==> s[k] != '-'
  {
    if s == [] || s[0] != '-' then 0 else 1 + LeadingDashes(s[1..])
  }

  /** The number of dashes of the dash group s starts with, or 0 when it starts with none. */
  function GroupAt(s: string): (k: nat)
    ensures k > 0 ==> k + 2 <= |s| && s[..k + 2] == DashGroup(k)
  {
    if |s| > 0 && s[0] == '[' then
      var k := LeadingDashes(s[1..]);
      if k > 0 && k + 1 < |s| && s[k + 1] == ']' then
        assert s[..k + 2] == DashGroup(k);
        k
      else 0
    else 0
  }

  /** The reading of a line as groups and single characters, left to right. */
  function Tokenize(s: string): (ts: seq<Token>)
    ensures Valid(ts)
    decreases |s|
  {
    if s == [] then []
    else if GroupAt(s) > 0 then [Dash(GroupAt(s))] + Tokenize(s[GroupAt(s) + 2..])
    else if |s| >= 3 && s[..3] == "[?]" then [Unknown] + Tokenize(s[3..])
    else [Char(s[0])] + Tokenize(s[1..])
  }

  /** Reading a line as tokens loses nothing: rendering the tokens gives the line back. */
  lemma {:induction false} RenderTokenize(s: string)
    ensures Render(Tokenize(s)) == s
    decreases |s|
  {
    if s != [] {
      var k := GroupAt(s);
      if k > 0 {
        RenderTokenize(s[k + 2..]);
        RenderCons(Dash(k), Tokenize(s[k + 2..]), s, k + 2);
      } else if |s| >= 3 && s[..3] == "[?]" {
        RenderTokenize(s[3..]);
        RenderCons(Unknown, Tokenize(s[3..]), s, 3);
      } else {
        RenderTokenize(s[1..]);
        assert s[..1] == [s[0]];
        RenderCons(Char(s[0]), Tokenize(s[1..]), s, 1);
      }
    }
  }

  /** A token standing for the first j characters, followed by tokens rendering the rest. */
  lemma RenderCons(t: Token, ts: seq<Token>, s: string, j: nat)
    requires j <= |s| && Text(t) == s[..j] && Render(ts) == s[j..]
    ensures Render([t] + ts) == s
  {
    assert ([t] + ts)[0] == t && ([t] + ts)[1..] == ts;
    assert s == s[..j] + s[j..];
  }

  /** Every character token read from a line holds a character of that line. */
  lemma {:induction false} TokenizeCharsFrom(s: string)
    ensures forall t | t in Tokenize(s) && t.Char? :: t.c in s
    decreases |s|
  {
    if s != [] {
      var k := GroupAt(s);
      var j := if k > 0 then k + 2 else if |s| >= 3 && s[..3] == "[?]" then 3 else 1;
      var rest := s[j..];
      TokenizeCharsFrom(rest);
      forall d | d in rest ensures d in s {
        SuffixMember(s, j, d);
      }
    }
  }

  lemma SuffixMember(s: string, j: nat, d: char)
    requires j <= |s| && d in s[j..]
    ensures d in s
  {
    var i :| 0 <= i < |s[j..]| && s[j..][i] == d;
    assert s[j + i] == d;
  }

  /** Every character of a rendering is a group mark or the character of a character token. */
  lemma {:induction false} RenderFrom(ts: seq<Token>)
    ensures forall d | d in Render(ts) :: d in "[]-?" || Char(d) in ts
  {
    if ts != [] {
      RenderFrom(ts[1..]);
      var head := Text(ts[0]);
      assert Render(ts) == head + Render(ts[1..]);
      forall d | d in head ensures d in "[]-?" || Char(d) in ts {
        match ts[0]
        case Dash(n) =>
          var i :| 0 <= i < |head| && head[i] == d;
          assert d == '[' || d == ']' || d == '-';
        case Unknown =>
        case Char(c) =>
      }
    }
  }

  /** A dash in a rendering comes from a dash group or from a dash standing alone. */
  lemma {:induction false} RenderDashFrom(ts: seq<Token>)
    requires '-' in Render(ts)
    ensures Char('-') in ts || exists i | 0 <= i < |ts| :: ts[i].Dash?
  {
    if ts != [] {
      assert Render(ts) == Text(ts[0]) + Render(ts[1..]);
      if !ts[0].Dash? && ts[0] != Char('-') {
        assert '-' !in Text(ts[0]);
        RenderDashFrom(ts[1..]);
        if Char('-') !in ts[1..] {
          var i :| 0 <= i < |ts[1..]| && ts[1..][i].Dash?;
          assert ts[i + 1].Dash?;
        }
      }
    }
  }

  /** A rendering of groups only starts with `[`, ends with `]` and holds nothing but brackets, dashes and question marks. */
  lemma {:induction false} RenderGroups(ts: seq<Token>)
    requires ts != [] && forall i | 0 <= i < |ts| :: IsGroup(ts[i])
    ensures Render(ts) != [] && Render(ts)[0] == '[' && Render(ts)[|Render(ts)| - 1] == ']'
    ensures forall d | d in Render(ts) :: d in "[]-?"
  {
    var head := Text(ts[0]);
    assert Render(ts) == head + Render(ts[1..]);
    assert head[0] == '[' && head[|head| - 1] == ']';
    forall d | d in head ensures d in "[]-?" {
      var i :| 0 <= i < |head| && head[i] == d;
    }
    if ts[1..] != [] {
      RenderGroups(ts[1..]);
    }
  }

  /** A line that holds no `[` is read as its characters. */
  lemma {:induction false} TokenizeNoBracket(s: string)
    requires '[' !in s
    ensures Tokenize(s) == Chars(s)
    decreases |s|
  {
    if s != [] {
      assert s[0] != '[' && s == [s[0]] + s[1..];
      TokenizeNoBracket(s[1..]);
      TokenizeCharFront(s[0], s[1..]);
    }
  }

  /** Each character as a token of its own. */
  function Chars(s: string): (ts: seq<Token>)
    ensures |ts| == |s|
    ensures forall i | 0 <= i < |ts| :: ts[i] == Char(s[i])
  {
    if s == [] then [] else [Char(s[0])] + Chars(s[1..])
  }

  lemma {:induction false} RenderChars(s: string)
    ensures Render(Chars(s)) == s
  {
    if s != [] {
      RenderChars(s[1..]);
    }
  }

  /** A dash group at the front is read as one token. */
  lemma TokenizeDashGroup(n: nat, rest: string)
    requires n >= 1
    ensures Tokenize(DashGroup(n) + rest) == [Dash(n)] + Tokenize(rest)
  {
    var s := DashGroup(n) + rest;
    assert s[1..][n] == ']';
    assert LeadingDashes(s[1..]) == n;
    assert GroupAt(s) == n;
    assert s[n + 2..] == rest;
  }

  /** An unknown group at the front is read as one token. */
  lemma TokenizeUnknown(rest: string)
    ensures Tokenize("[?]" + rest) == [Unknown] + Tokenize(rest)
  {
    var s := "[?]" + rest;
    assert s[1] == '?';
    assert GroupAt(s) == 0;
    assert s[..3] == "[?]";
    assert s[3..] == rest;
  }

  /** A character other than `[` at the front is read as itself. */
  lemma TokenizeCharFront(c: char, rest: string)
    requires c != '['
    ensures Tokenize([c] + rest) == [Char(c)] + Tokenize(rest)
  {
    var s := [c] + rest;
    assert s[0] == c;
    assert GroupAt(s) == 0;
    assert |s| >= 3 ==> s[..3][0] == c && s[..3] != "[?]";
    assert s[1..] == rest;
  }

  /** Token sequences that reading gives back unchanged: no single `[` that could start a group. */
  predicate Readable(ts: seq<Token>) {
    Valid(ts) && forall i | 0 <= i < |ts| :: ts[i].Char? ==> ts[i].c != '['
  }

  /** Reading the rendering of a readable token sequence gives the sequence back. */
  lemma {:induction false} TokenizeRender(ts: seq<Token>)
    requires Readable(ts)
    ensures Tokenize(Render(ts)) == ts
  {
    if ts != [] {
      assert Readable(ts[1..]);
      TokenizeRender(ts[1..]);
      match ts[0]
      case Dash(n) => TokenizeDashGroup(n, Render(ts[1..]));
      case Unknown => TokenizeUnknown(Render(ts[1..]));
      case Char(c) => TokenizeCharFront(c, Render(ts[1..]));
    }
  }

  // ---------------------------------------------------------------------
  // Runs of tokens.

  /** The number of dash groups ts starts with. */
  function LeadingDashGroups(ts: seq<Token>): (k: nat)
    ensures k <= |ts|
    ensures forall i | 0 <= i < k :: ts[i].Dash?
    ensures k < |ts| ==> !ts[k].Dash?
  {
    if ts == [] || !ts[0].Dash? then 0 else 1 + LeadingDashGroups(ts[1..])
  }

  /** The number of groups of either kind ts starts with. */
  function LeadingGroups(ts: seq<Token>): (k: nat)
    ensures k <= |ts|
    ensures forall i | 0 <= i < k :: IsGroup(ts[i])
    ensures k < |ts| ==> !IsGroup(ts[k])
  {
    if ts == [] || !IsGroup(ts[0]) then 0 else 1 + LeadingGroups(ts[1..])
  }

  /** The number of groups of either kind ts ends with. */
  function TrailingGroups(ts: seq<Token>): (k: nat)
    ensures k <= |ts|
    ensures forall i | |ts| - k <= i < |ts| :: IsGroup(ts[i])
    ensures k < |ts| ==> !IsGroup(ts[|ts| - k - 1])
  {
    if ts == [] || !IsGroup(ts[|ts| - 1]) then 0 else 1 + TrailingGroups(ts[..|ts| - 1])
  }

  /** The number of unknown groups ts starts with. */
  function LeadingUnknowns(ts: seq<Token>): (k: nat)
    ensures k <= |ts|
    ensures forall i | 0 <= i < k :: ts[i].Unknown?
    ensures k < |ts| ==> !ts[k].Unknown?
  {
    if ts == [] || !ts[0].Unknown? then 0 else 1 + LeadingUnknowns(ts[1..])
  }

  /** The dashes of all dash groups of ts. */
  function DashTotal(ts: seq<Token>): nat {
    if ts == [] then 0 else (if ts[0].Dash? then ts[0].n else 0) + DashTotal(ts[1..])
  }

  lemma {:induction false} DashTotalAppend(a: seq<Token>, b: seq<Token>)
    ensures DashTotal(a + b) == DashTotal(a) + DashTotal(b)
  {
    if a == [] {
      assert a + b == b;
    } else {
      assert (a + b)[0] == a[0];
      assert (a + b)[1..] == a[1..] + b;
      DashTotalAppend(a[1..], b);
    }
  }

  /** The tokens other than dash groups, in order. */
  function NonDash(ts: seq<Token>): seq<Token> {
    if ts == [] then [] else (if ts[0].Dash? then [] else [ts[0]]) + NonDash(ts[1..])
  }

  /** The tokens other than unknown groups, in order. */
  function NonUnknown(ts: seq<Token>): seq<Token> {
    if ts == [] then [] else (if ts[0].Unknown? then [] else [ts[0]]) + NonUnknown(ts[1..])
  }

  /** The characters outside all groups, in order. */
  function CharTokens(ts: seq<Token>): seq<Token> {
    if ts == [] then [] else (if ts[0].Char? then [ts[0]] else []) + CharTokens(ts[1..])
  }

  lemma {:induction false} CharTokensAppend(a: seq<Token>, b: seq<Token>)
    ensures CharTokens(a + b) == CharTokens(a) + CharTokens(b)
  {
    if a == [] {
      assert a + b == b;
    } else {
      assert (a + b)[0] == a[0];
      assert (a + b)[1..] == a[1..] + b;
      CharTokensAppend(a[1..], b);
    }
  }

  /** A character token occurs in ts exactly when it occurs among its character tokens. */
  lemma {:induction false} CharTokensMember(ts: seq<Token>, t: Token)
    requires t.Char?
    ensures t in ts <==> t in CharTokens(ts)
  {
    if ts != [] {
      CharTokensMember(ts[1..], t);
      assert ts == [ts[0]] + ts[1..];
    }
  }

  lemma {:induction false} CharTokensUnmerged(ts: seq<Token>)
    ensures CharTokens(Unmerged(ts)) == CharTokens(ts)
  {
    if ts != [] {
      CharTokensUnmerged(ts[1..]);
      var head := if ts[0].Dash? then SingleDashes(ts[0].n) else [ts[0]];
      CharTokensAppend(head, Unmerged(ts[1..]));
      if ts[0].Dash? {
        CharTokensOfDashes(head);
      }
    }
  }

  lemma {:induction false} CharTokensOfDashes(ts: seq<Token>)
    requires forall i | 0 <= i < |ts| :: ts[i].Dash?
    ensures CharTokens(ts) == []
  {
    if ts != [] {
      CharTokensOfDashes(ts[1..]);
    }
  }

  lemma {:induction false} CharTokensNonDash(ts: seq<Token>)
    ensures CharTokens(NonDash(ts)) == CharTokens(ts)
  {
    if ts != [] {
      CharTokensNonDash(ts[1..]);
      CharTokensAppend(if ts[0].Dash? then [] else [ts[0]], NonDash(ts[1..]));
    }
  }

  lemma {:induction false} CharTokensNonUnknown(ts: seq<Token>)
    ensures CharTokens(NonUnknown(ts)) == CharTokens(ts)
  {
    if ts != [] {
      CharTokensNonUnknown(ts[1..]);
      CharTokensAppend(if ts[0].Unknown? then [] else [ts[0]], NonUnknown(ts[1..]));
    }
  }

  lemma {:induction false} NonDashAppend(a: seq<Token>, b: seq<Token>)
    ensures NonDash(a + b) == NonDash(a) + NonDash(b)
  {
    if a == [] {
      assert a + b == b;
    } else {
      assert (a + b)[0] == a[0];
      assert (a + b)[1..] == a[1..] + b;
      NonDashAppend(a[1..], b);
    }
  }

  lemma {:induction false} NonDashOfDashes(ts: seq<Token>)
    requires forall i | 0 <= i < |ts| :: ts[i].Dash?
    ensures NonDash(ts) == []
  {
    if ts != [] {
      NonDashOfDashes(ts[1..]);
    }
  }

  lemma {:induction false} NonUnknownOfUnknowns(ts: seq<Token>)
    requires forall i | 0 <= i < |ts| :: ts[i].Unknown?
    ensures NonUnknown(ts) == []
  {
    if ts != [] {
      NonUnknownOfUnknowns(ts[1..]);
    }
  }

  lemma {:induction false} NonUnknownAppend(a: seq<Token>, b: seq<Token>)
    ensures NonUnknown(a + b) == NonUnknown(a) + NonUnknown(b)
  {
    if a == [] {
      assert a + b == b;
    } else {
      assert (a + b)[0] == a[0];
      assert (a + b)[1..] == a[1..] + b;
      NonUnknownAppend(a[1..], b);
    }
  }

  // ---------------------------------------------------------------------
  // The rewrites.

  /**
   * `re.sub(r'\[-+]', '', s)`: every dash group is dropped; everything else
   * stays in order.
   */
  function DropDashGroups(ts: seq<Token>): (r: seq<Token>)
    ensures forall i | 0 <= i < |r| :: !r[i].Dash?
    ensures r == NonDash(ts)
  {
    if ts == [] then [] else (if ts[0].Dash? then [] else [ts[0]]) + DropDashGroups(ts[1..])
  }

  /** The same rewrite on the line. */
  function RemoveDashGroups(s: string): string {
    Render(DropDashGroups(Tokenize(s)))
  }

  /**
   * `re.sub(r'^(?:\[-+]|\[\?])+', ']', s)`: a run of groups at the start of
   * the line becomes a single `]`.
   */
  function CollapseLeading(ts: seq<Token>): (r: seq<Token>)
    ensures LeadingGroups(ts) == 0 ==> r == ts
    ensures LeadingGroups(ts) > 0 ==> |r| >= 1 && r[0] == Char(']') && r[1..] == ts[LeadingGroups(ts)..]
  {
    var k := LeadingGroups(ts);
    if k == 0 then ts else [Char(']')] + ts[k..]
  }

  /** The run of groups at the end of ts becomes a single `[`. */
  function CollapseTrailingAtEnd(ts: seq<Token>): (r: seq<Token>)
    ensures TrailingGroups(ts) == 0 ==> r == ts
    ensures TrailingGroups(ts) > 0 ==> r == ts[..|ts| - TrailingGroups(ts)] + [Char('[')]
  {
    var k := TrailingGroups(ts);
    if k == 0 then ts else ts[..|ts| - k] + [Char('[')]
  }

  /**
   * `re.sub(r'(?:\[-+]|\[\?])+$', '[', s)`: a run of groups at the end of the
   * line, or just before a final newline (where Python's `$` also matches),
   * becomes a single `[`.
   */
  function CollapseTrailing(ts: seq<Token>): (r: seq<Token>)
    ensures |ts| > 0 && ts[|ts| - 1] == Char('\n') ==>
      r == CollapseTrailingAtEnd(ts[..|ts| - 1]) + [Char('\n')]
    ensures !(|ts| > 0 && ts[|ts| - 1] == Char('\n')) ==> r == CollapseTrailingAtEnd(ts)
  {
    if |ts| > 0 && ts[|ts| - 1] == Char('\n') then CollapseTrailingAtEnd(ts[..|ts| - 1]) + [Char('\n')]
    else CollapseTrailingAtEnd(ts)
  }

  /** Dash groups each holding a single dash, n of them: a lost stretch counted letter by letter. */
  function SingleDashes(n: nat): (r: seq<Token>)
    ensures |r| == n && forall i | 0 <= i < n :: r[i] == Dash(1)
  {
    if n == 0 then [] else [Dash(1)] + SingleDashes(n - 1)
  }

  lemma {:induction false} SingleDashesAdd(a: nat, b: nat)
    ensures SingleDashes(a + b) == SingleDashes(a) + SingleDashes(b)
  {
    if a > 0 {
      SingleDashesAdd(a - 1, b);
      assert SingleDashes(a + b) == [Dash(1)] + SingleDashes(a - 1 + b);
    }
  }

  /** The tokens with every dash group split into groups of one dash. */
  function Unmerged(ts: seq<Token>): seq<Token> {
    if ts == [] then []
    else (if ts[0].Dash? then SingleDashes(ts[0].n) else [ts[0]]) + Unmerged(ts[1..])
  }

  lemma {:induction false} UnmergedAppend(a: seq<Token>, b: seq<Token>)
    ensures Unmerged(a + b) == Unmerged(a) + Unmerged(b)
  {
    if a == [] {
      assert a + b == b;
    } else {
      assert (a + b)[0] == a[0];
      assert (a + b)[1..] == a[1..] + b;
      UnmergedAppend(a[1..], b);
    }
  }

  /** A run of dash groups splits into as many single dashes as it holds. */
  lemma {:induction false} UnmergedRun(ts: seq<Token>)
    requires forall i | 0 <= i < |ts| :: ts[i].Dash?
    ensures Unmerged(ts) == SingleDashes(DashTotal(ts))
  {
    if ts != [] {
      UnmergedRun(ts[1..]);
      SingleDashesAdd(ts[0].n, DashTotal(ts[1..]));
    }
  }

  /** No dash group directly follows another. */
  predicate NoAdjacentDashes(ts: seq<Token>) {
    forall i | 0 <= i < |ts| - 1 :: !(ts[i].Dash? && ts[i + 1].Dash?)
  }

  /**
   * The merge that `format_line` performs on every run of two or more dash
   * groups: each maximal run becomes one group holding all of its dashes.
   * The result has no two dash groups side by side, and splitting its
   * groups into single dashes gives the same sequence as splitting the
   * input's: nothing is lost, added or reordered.
   */
  function MergeDashRuns(ts: seq<Token>): (r: seq<Token>)
    requires Valid(ts)
    ensures Valid(r)
    ensures NoAdjacentDashes(r)
    ensures Unmerged(r) == Unmerged(ts)
    ensures r == [] <==> ts == []
    ensures r != [] ==> (r[0].Dash? <==> ts[0].Dash?)
    decreases |ts|
  {
    if ts == [] then []
    else if ts[0].Dash? then
      var k := LeadingDashGroups(ts);
      var rest := MergeDashRuns(ts[k..]);
      assert ts == ts[..k] + ts[k..];
      UnmergedAppend(ts[..k], ts[k..]);
      UnmergedRun(ts[..k]);
      assert DashTotal(ts[..k]) >= 1 by {
        assert ts[..k] == [ts[0]] + ts[1..k];
      }
      assert Unmerged([Dash(DashTotal(ts[..k]))]) == SingleDashes(DashTotal(ts[..k])) + Unmerged([]);
      UnmergedAppend([Dash(DashTotal(ts[..k]))], rest);
      [Dash(DashTotal(ts[..k]))] + rest
    else
      var rest := MergeDashRuns(ts[1..]);
      assert ts == [ts[0]] + ts[1..];
      UnmergedAppend([ts[0]], ts[1..]);
      UnmergedAppend([ts[0]], rest);
      [ts[0]] + rest
  }

  /** Two token sequences without neighbouring dash groups that split alike are equal: the merge has only one possible result. */
  lemma {:induction false} MergedUnique(a: seq<Token>, b: seq<Token>)
    requires Valid(a) && Valid(b) && NoAdjacentDashes(a) && NoAdjacentDashes(b)
    requires Unmerged(a) == Unmerged(b)
    ensures a == b
    decreases |a| + |b|
  {
    if a == [] || b == [] {
      if a != [] { UnmergedNonEmpty(a); }
      if b != [] { UnmergedNonEmpty(b); }
    } else {
      UnmergedHead(a);
      UnmergedHead(b);
      if a[0].Dash? {
        assert b[0].Dash?;
        NoDashHead(a[1..]);
        NoDashHead(b[1..]);
        assert Unmerged(a) == SingleDashes(a[0].n) + Unmerged(a[1..]);
        assert Unmerged(b) == SingleDashes(b[0].n) + Unmerged(b[1..]);
        SplitDashPrefix(a[0].n, Unmerged(a[1..]), b[0].n, Unmerged(b[1..]));

      } else {
        assert Unmerged(a) == [a[0]] + Unmerged(a[1..]);
        assert Unmerged(b) == [b[0]] + Unmerged(b[1..]);
        assert a[0] == b[0];
        assert Unmerged(a[1..]) == Unmerged(a)[1..];
        assert Unmerged(b[1..]) == Unmerged(b)[1..];
      }
      MergedUnique(a[1..], b[1..]);
      assert a == [a[0]] + a[1..];
      assert b == [b[0]] + b[1..];
    }
  }

  /** Single dashes followed by something else split in one way only. */
  lemma SplitDashPrefix(n1: nat, x: seq<Token>, n2: nat, y: seq<Token>)
    requires SingleDashes(n1) + x == SingleDashes(n2) + y
    requires x == [] || x[0] != Dash(1)
    requires y == [] || y[0] != Dash(1)
    ensures n1 == n2 && x == y
  {
    var u := SingleDashes(n1) + x;
    LeadingSingleDashes(n1, x);
    LeadingSingleDashes(n2, y);
    assert x == u[n1..] == y;
  }

  /** The number of single dashes u starts with. */
  function LeadingSingleDashCount(u: seq<Token>): nat {
    if u == [] || u[0] != Dash(1) then 0 else 1 + LeadingSingleDashCount(u[1..])
  }

  lemma {:induction false} LeadingSingleDashes(n: nat, x: seq<Token>)
    requires x == [] || x[0] != Dash(1)
    ensures LeadingSingleDashCount(SingleDashes(n) + x) == n
  {
    if n == 0 {
      assert SingleDashes(n) + x == x;
    } else {
      LeadingSingleDashes(n - 1, x);
      assert (SingleDashes(n) + x)[1..] == SingleDashes(n - 1) + x;
    }
  }

  lemma UnmergedNonEmpty(a: seq<Token>)
    requires Valid(a) && a != []
    ensures Unmerged(a) != []
  {
    assert Unmerged(a) == (if a[0].Dash? then SingleDashes(a[0].n) else [a[0]]) + Unmerged(a[1..]);
  }

  /** The first token of the split sequence says whether the sequence starts with a dash group. */
  lemma UnmergedHead(a: seq<Token>)
    requires Valid(a) && a != []
    ensures Unmerged(a) != [] && (Unmerged(a)[0] == Dash(1) <==> a[0].Dash?)
    ensures !a[0].Dash? ==> Unmerged(a)[0] == a[0]
  {
    assert Unmerged(a) == (if a[0].Dash? then SingleDashes(a[0].n) else [a[0]]) + Unmerged(a[1..]);
  }

  /** After a dash group, a sequence without neighbouring dash groups continues with something else. */
  lemma NoDashHead(a: seq<Token>)
    requires Valid(a)
    ensures a != [] && !a[0].Dash? ==> Unmerged(a) != [] && Unmerged(a)[0] != Dash(1)
  {
    if a != [] && !a[0].Dash? {
      UnmergedHead(a);
    }
  }

  /** Every dash group next to an unknown group has been absorbed by it. */
  predicate NoDashBesideUnknown(ts: seq<Token>) {
    forall i | 0 <= i < |ts| - 1 :: !(ts[i].Dash? && ts[i + 1].Unknown?) && !(ts[i].Unknown? && ts[i + 1].Dash?)
  }

  /** Whether the run of dash groups at the start of ts is followed by an unknown group. */
  predicate DashesThenUnknown(ts: seq<Token>) {
    LeadingDashGroups(ts) < |ts| && ts[LeadingDashGroups(ts)].Unknown?
  }

  /**
   * `re.sub(r'(\[-+])*\[\?](\[-+])*', '[?]', s)`: every unknown group
   * swallows the dash groups right before and right after it, so that no
   * dash group is left beside an unknown group. Absorbing only removes
   * tokens, so the line never grows.
   */
  function AbsorbIntoUnknown(ts: seq<Token>): (r: seq<Token>)
    ensures |r| <= |ts|
    decreases |ts|
  {
    if ts == [] then []
    else
      var k := LeadingDashGroups(ts);
      if k < |ts| && ts[k].Unknown? then
        [Unknown] + AbsorbIntoUnknown(ts[k + 1 + LeadingDashGroups(ts[k + 1..])..])
      else
        [ts[0]] + AbsorbIntoUnknown(ts[1..])
  }

  /** The first token after absorbing is an unknown group exactly when the input's leading dash groups run into one. */
  lemma {:induction false} AbsorbHead(ts: seq<Token>)
    ensures AbsorbIntoUnknown(ts) == [] <==> ts == []
    ensures AbsorbIntoUnknown(ts) != [] ==>
      (AbsorbIntoUnknown(ts)[0].Unknown? <==> DashesThenUnknown(ts)) &&
      (AbsorbIntoUnknown(ts)[0].Dash? ==> ts[0].Dash? && !DashesThenUnknown(ts))
  {
  }

  /** No dash group is left beside an unknown group. */
  lemma {:induction false} AbsorbLeavesNoDashBeside(ts: seq<Token>)
    ensures NoDashBesideUnknown(AbsorbIntoUnknown(ts))
    decreases |ts|
  {
    if ts != [] {
      var k := LeadingDashGroups(ts);
      if k < |ts| && ts[k].Unknown? {
        var tail := AbsorbedTail(ts);
        AbsorbUnknownStep(ts);
        AbsorbLeavesNoDashBeside(tail);
        AbsorbHead(tail);
        if tail != [] {
          assert !tail[0].Dash?;
        }
        NoDashBesideCons(Unknown, AbsorbIntoUnknown(tail));
      } else {
        var rest := AbsorbIntoUnknown(ts[1..]);
        AbsorbLeavesNoDashBeside(ts[1..]);
        AbsorbHead(ts[1..]);
        if ts[0].Dash? && rest != [] {
          assert LeadingDashGroups(ts[1..]) == k - 1;
          assert !rest[0].Unknown?;
        }
        NoDashBesideCons(ts[0], rest);
      }
    }
  }

  lemma NoDashBesideCons(t: Token, rest: seq<Token>)
    requires NoDashBesideUnknown(rest)
    requires rest != [] ==> !(t.Dash? && rest[0].Unknown?) && !(t.Unknown? && rest[0].Dash?)
    ensures NoDashBesideUnknown([t] + rest)
  {
    var r := [t] + rest;
    forall i | 0 <= i < |r| - 1
      ensures !(r[i].Dash? && r[i + 1].Unknown?) && !(r[i].Unknown? && r[i + 1].Dash?)
    {
      if i > 0 {
        assert r[i] == rest[i - 1] && r[i + 1] == rest[i];
      }
    }
  }

  /** What follows the first unknown group and the dash groups on both sides of it. */
  function AbsorbedTail(ts: seq<Token>): (tail: seq<Token>)
    requires DashesThenUnknown(ts)
    ensures |tail| < |ts|
    ensures tail != [] ==> !tail[0].Dash?
  {
    var k := LeadingDashGroups(ts);
    ts[k + 1 + LeadingDashGroups(ts[k + 1..])..]
  }

  lemma {:induction false} AbsorbUnknownStep(ts: seq<Token>)
    requires DashesThenUnknown(ts)
    ensures AbsorbIntoUnknown(ts) == [Unknown] + AbsorbIntoUnknown(AbsorbedTail(ts))
  {
  }

  lemma {:induction false} SkipDashes(ts: seq<Token>, j: nat)
    requires j <= |ts| && forall i | 0 <= i < j :: ts[i].Dash?
    ensures NonDash(ts) == NonDash(ts[j..])
  {
    if j > 0 {
      SkipDashes(ts[1..], j - 1);
      assert ts[1..][j - 1..] == ts[j..];
    }
  }

  /** Absorbing drops dash groups only: everything else stays, in order. */
  lemma {:induction false} AbsorbKeepsNonDash(ts: seq<Token>)
    ensures NonDash(AbsorbIntoUnknown(ts)) == NonDash(ts)
    decreases |ts|
  {
    if ts != [] {
      if DashesThenUnknown(ts) {
        var tail := AbsorbedTail(ts);
        AbsorbKeepsNonDash(tail);
        AbsorbedTailNonDash(ts);
        AbsorbUnknownStep(ts);
        NonDashAppend([Unknown], AbsorbIntoUnknown(tail));
      } else {
        AbsorbKeepsNonDash(ts[1..]);
        AbsorbOtherStep(ts);
      }
    }
  }

  lemma AbsorbedTailNonDash(ts: seq<Token>)
    requires DashesThenUnknown(ts)
    ensures NonDash(ts) == [Unknown] + NonDash(AbsorbedTail(ts))
  {
    var k := LeadingDashGroups(ts);
    var m := LeadingDashGroups(ts[k + 1..]);
    SkipDashes(ts, k);
    assert ts[k..] == [ts[k]] + ts[k + 1..];
    assert NonDash(ts[k..]) == [Unknown] + NonDash(ts[k + 1..]);
    SkipDashes(ts[k + 1..], m);
    assert ts[k + 1..][m..] == AbsorbedTail(ts);
  }

  lemma AbsorbOtherStep(ts: seq<Token>)
    requires ts != [] && !DashesThenUnknown(ts)
    requires NonDash(AbsorbIntoUnknown(ts[1..])) == NonDash(ts[1..])
    ensures NonDash(AbsorbIntoUnknown(ts)) == NonDash(ts)
  {
    assert AbsorbIntoUnknown(ts) == [ts[0]] + AbsorbIntoUnknown(ts[1..]);
    assert ts == [ts[0]] + ts[1..];
    NonDashAppend([ts[0]], ts[1..]);
    NonDashAppend([ts[0]], AbsorbIntoUnknown(ts[1..]));
  }

  /** No unknown group directly follows another. */
  predicate NoAdjacentUnknowns(ts: seq<Token>) {
    forall i | 0 <= i < |ts| - 1 :: !(ts[i].Unknown? && ts[i + 1].Unknown?)
  }

  /**
   * `re.sub(r'(?:\[\?]){2,}', '[?]', s)`: every run of unknown groups becomes
   * one. Everything else stays in order, and an unknown stretch neither
   * appears nor disappears.
   */
  function CollapseUnknownRuns(ts: seq<Token>): (r: seq<Token>)
    ensures NonUnknown(r) == NonUnknown(ts)
    ensures NoAdjacentUnknowns(r)
    ensures (Unknown in r) <==> (Unknown in ts)
    ensures r == [] <==> ts == []
    ensures r != [] ==> (r[0].Unknown? <==> ts[0].Unknown?)
    decreases |ts|
  {
    if ts == [] then []
    else if ts[0].Unknown? then
      var k := LeadingUnknowns(ts);
      var rest := CollapseUnknownRuns(ts[k..]);
      assert ts == ts[..k] + ts[k..];
      NonUnknownAppend(ts[..k], ts[k..]);
      NonUnknownOfUnknowns(ts[..k]);
      NonUnknownAppend([Unknown], rest);
      [Unknown] + rest
    else
      var rest := CollapseUnknownRuns(ts[1..]);
      assert ts == [ts[0]] + ts[1..];
      NonUnknownAppend([ts[0]], ts[1..]);
      NonUnknownAppend([ts[0]], rest);
      [ts[0]] + rest
  }

  /** The shape the group rewrites aim at: no two dash groups, no two unknown groups and no dash group beside an unknown group side by side. */
  predicate Settled(ts: seq<Token>) {
    NoAdjacentDashes(ts) && NoDashBesideUnknown(ts) && NoAdjacentUnknowns(ts)
  }

  lemma NoAdjacentDashesCons(t: Token, rest: seq<Token>)
    requires NoAdjacentDashes(rest)
    requires rest != [] && t.Dash? ==> !rest[0].Dash?
    ensures NoAdjacentDashes([t] + rest)
  {
    var r := [t] + rest;
    forall i | 0 <= i < |r| - 1 ensures !(r[i].Dash? && r[i + 1].Dash?) {
      if i > 0 {
        assert r[i] == rest[i - 1] && r[i + 1] == rest[i];
      }
    }
  }

  lemma SuffixKeepsNeighbours(ts: seq<Token>, j: nat)
    requires j <= |ts|
    ensures NoAdjacentDashes(ts) ==> NoAdjacentDashes(ts[j..])
    ensures NoDashBesideUnknown(ts) ==> NoDashBesideUnknown(ts[j..])
    ensures NoAdjacentUnknowns(ts) ==> NoAdjacentUnknowns(ts[j..])
  {
    var u := ts[j..];
    assert forall i | 0 <= i < |u| :: u[i] == ts[j + i];
  }

  /** Absorbing dash groups into unknown groups puts no two dash groups side by side. */
  lemma {:induction false} AbsorbKeepsNoAdjacentDashes(ts: seq<Token>)
    requires NoAdjacentDashes(ts)
    ensures NoAdjacentDashes(AbsorbIntoUnknown(ts))
    decreases |ts|
  {
    if ts != [] {
      if DashesThenUnknown(ts) {
        var tail := AbsorbedTail(ts);
        var k := LeadingDashGroups(ts);
        SuffixKeepsNeighbours(ts, k + 1 + LeadingDashGroups(ts[k + 1..]));
        AbsorbKeepsNoAdjacentDashes(tail);
        AbsorbUnknownStep(ts);
        NoAdjacentDashesCons(Unknown, AbsorbIntoUnknown(tail));
      } else {
        SuffixKeepsNeighbours(ts, 1);
        AbsorbKeepsNoAdjacentDashes(ts[1..]);
        AbsorbHead(ts[1..]);
        assert AbsorbIntoUnknown(ts) == [ts[0]] + AbsorbIntoUnknown(ts[1..]);
        NoAdjacentDashesCons(ts[0], AbsorbIntoUnknown(ts[1..]));
      }
    }
  }

  /** A line that does not start with an unknown group keeps its first token through the collapse of unknown groups. */
  lemma CollapseUnknownHead(ts: seq<Token>)
    requires ts != [] && !ts[0].Unknown?
    ensures CollapseUnknownRuns(ts)[0] == ts[0]
  {
  }

  /** Collapsing runs of unknown groups keeps dash groups apart from each other and from unknown groups. */
  lemma {:induction false} CollapseUnknownSettles(ts: seq<Token>)
    requires NoAdjacentDashes(ts) && NoDashBesideUnknown(ts)
    ensures Settled(CollapseUnknownRuns(ts))
    decreases |ts|
  {
    if ts != [] {
      var r := CollapseUnknownRuns(ts);
      if ts[0].Unknown? {
        var k := LeadingUnknowns(ts);
        SuffixKeepsNeighbours(ts, k);
        CollapseUnknownSettles(ts[k..]);
        var rest := CollapseUnknownRuns(ts[k..]);
        assert r == [Unknown] + rest;
        if rest != [] {
          assert ts[k - 1].Unknown?;
          CollapseUnknownHead(ts[k..]);
          assert rest[0] == ts[k];
        }
        NoAdjacentDashesCons(Unknown, rest);
        NoDashBesideCons(Unknown, rest);
      } else {
        SuffixKeepsNeighbours(ts, 1);
        CollapseUnknownSettles(ts[1..]);
        var rest := CollapseUnknownRuns(ts[1..]);
        assert r == [ts[0]] + rest;
        if rest != [] && !ts[1].Unknown? {
          CollapseUnknownHead(ts[1..]);
        }
        NoAdjacentDashesCons(ts[0], rest);
        NoDashBesideCons(ts[0], rest);
      }
    }
  }

  // ---------------------------------------------------------------------
  // The merge loop of format_line as it is written.

  /**
   * `re.findall(r'(?:\[-+]){2,}', s)`: the text of every maximal run of two
   * or more dash groups, left to right.
   */
  function DashRunTexts(ts: seq<Token>): (r: seq<string>)
    ensures forall i | 0 <= i < |r| :: r[i] != []
    decreases |ts|
  {
    if ts == [] then []
    else if ts[0].Dash? then
      var k := LeadingDashGroups(ts);
      (if k >= 2 then [Render(ts[..k])] else []) + DashRunTexts(ts[k..])
    else DashRunTexts(ts[1..])
  }

  /**
   * The loop body applied to each found run in turn, as written: the run is
   * replaced by one group with its dash count by `str.replace`, which
   * rewrites every occurrence of it anywhere in the line, including inside a
   * longer run found later.
   */
  function ReplaceRuns(line: string, runs: seq<string>): string
    requires forall i | 0 <= i < |runs| :: runs[i] != []
    decreases |runs|
  {
    if runs == [] then line
    else ReplaceRuns(Replace(line, runs[0], DashGroup(Count(runs[0], '-'))), runs[1..])
  }

  /** The merge step of `format_line` as written. */
  function MergeAsWritten(line: string): string {
    ReplaceRuns(line, DashRunTexts(Tokenize(line)))
  }

  /** A dash group is made of brackets and dashes. */
  lemma DashGroupMarks(n: nat)
    ensures forall d | d in DashGroup(n) :: d in "[]-"
  {
    var g := DashGroup(n);
    forall d | d in g ensures d in "[]-" {
      var i :| 0 <= i < |g| && g[i] == d;
      assert i == 0 || i == n + 1 || 1 <= i <= n;
    }
  }

  /** The replace loop brings in no character other than brackets and dashes. */
  lemma {:induction false} ReplaceRunsFrom(line: string, runs: seq<string>)
    requires forall i | 0 <= i < |runs| :: runs[i] != []
    ensures forall d | d in ReplaceRuns(line, runs) :: d in "[]-" || d in line
    decreases |runs|
  {
    if runs != [] {
      var g := DashGroup(Count(runs[0], '-'));
      var next := Replace(line, runs[0], g);
      ReplaceFrom(line, runs[0], g);
      DashGroupMarks(Count(runs[0], '-'));
      ReplaceRunsFrom(next, runs[1..]);
    }
  }

  /** The merge loop of `format_line`, step by step as written. */
  method MergeLoopAsWritten(lineText: string) returns (result: string)
    ensures result == MergeAsWritten(lineText)
  {
    var toCombine := DashRunTexts(Tokenize(lineText));
    result := lineText;
    var i := 0;
    while i < |toCombine|
      invariant 0 <= i <= |toCombine|
      invariant ReplaceRuns(result, toCombine[i..]) == MergeAsWritten(lineText)
    {
      var minusCount := Count(toCombine[i], '-');
      var filler := Repeat('-', minusCount);
      assert "[" + filler + "]" == DashGroup(minusCount);
      assert toCombine[i..][1..] == toCombine[i + 1..];
      result := Replace(result, toCombine[i], "[" + filler + "]");
      i := i + 1;
    }
  }

  /** The merge as intended: each maximal run of dash groups becomes one group. */
  function MergeCorrected(line: string): string {
    Render(MergeDashRuns(Tokenize(line)))
  }

  // ---------------------------------------------------------------------
  // The line "[-][-]Α[-][-][-]": the merge as written leaves two
  // neighbouring groups, because replacing the first run "[-][-]" rewrites
  // the front of the longer run "[-][-][-]" as well, so that run is no
  // longer found when its turn comes.
  // ---------------------------------------------------------------------

  const Alpha: char := '\U{0391}'
  const MergeSample: seq<Token> := [Dash(1), Dash(1), Char(Alpha), Dash(1), Dash(1), Dash(1)]

  lemma MergeSampleLeading()
    ensures LeadingDashGroups(MergeSample) == 2
    ensures LeadingDashGroups(MergeSample[3..]) == 3
  {
    assert MergeSample[0].Dash? && MergeSample[1].Dash? && MergeSample[2].Char?;
    var u := MergeSample[3..];
    assert u[0].Dash? && u[1].Dash? && u[2].Dash?;
  }

  lemma MergeSampleRuns()
    ensures DashRunTexts(MergeSample) == [Render(MergeSample[..2]), Render(MergeSample[3..])]
  {
    MergeSampleLeading();
    var u := MergeSample[3..];
    assert u[3..] == [];
    assert u[..3] == u;
    assert DashRunTexts(u[3..]) == [];
    assert DashRunTexts(u) == [Render(u)];
    assert MergeSample[2..][1..] == u;
    assert DashRunTexts(MergeSample[2..]) == DashRunTexts(u);
  }

  lemma MergeSampleTexts()
    ensures Render(MergeSample[..2]) == "[-][-]"
    ensures Render(MergeSample[3..]) == "[-][-][-]"
  {
    var g := DashGroup(1);
    assert g == "[-]";
    var d1 := [Dash(1)];
    assert Render(d1) == g by { assert d1[1..] == []; }
    var d2 := [Dash(1)] + d1;
    assert Render(d2) == g + g by { assert d2[1..] == d1; }
    var d3 := [Dash(1)] + d2;
    assert Render(d3) == g + g + g by { assert d3[1..] == d2; }
    assert MergeSample[..2] == d2;
    assert MergeSample[3..] == d3;
  }

  lemma CountDashGroup(n: nat)
    ensures Count(DashGroup(n), '-') == n
  {
    CountAppend("[" + Repeat('-', n), "]", '-');
    CountAppend("[", Repeat('-', n), '-');
    CountRepeat('-', '-', n);
  }

  lemma MergeSampleFirstPass()
    ensures Replace("[-][-]" + [Alpha] + "[-][-][-]", "[-][-]", "[--]") == "[--]" + [Alpha] + "[--]" + "[-]"
  {
    var two := "[-][-]";
    ReplaceHit(two, "[-]", "[--]");
    assert Replace("[-]", two, "[--]") == "[-]";
    assert "[-][-][-]" == two + "[-]";
    ReplaceSkip(Alpha, "[-][-][-]", two, "[--]", 0);
    ReplaceHit(two, [Alpha] + "[-][-][-]", "[--]");
    assert "[-][-]" + [Alpha] + "[-][-][-]" == two + ([Alpha] + "[-][-][-]");
  }

  lemma MergeSampleSecondPass()
    ensures Replace("[--]" + [Alpha] + "[--]" + "[-]", "[-][-][-]", "[---]") == "[--]" + [Alpha] + "[--]" + "[-]"
  {
    var l := "[--]" + [Alpha] + "[--]" + "[-]";
    assert |l| == 12 && l[1] == '-' && l[2] == '-' && l[3] == ']';
    NoTripleAfterPair(l);
  }

  /** A line of twelve characters that starts with `[--]` holds no `[-][-][-]`. */
  lemma NoTripleAfterPair(l: string)
    requires |l| == 12 && l[1] == '-' && l[2] == '-' && l[3] == ']'
    ensures Replace(l, "[-][-][-]", "[---]") == l
  {
    var pat := "[-][-][-]";
    assert !ContainsSub(l, pat) by {
      forall i | 0 <= i <= |l| ensures !OccursAt(l, pat, i) {
        if i + |pat| <= |l| {
          if i == 0 {
            assert l[i..i + |pat|][2] == l[2];
          } else {
            assert l[i..i + |pat|][0] == l[i];
          }
        }
      }
    }
    ReplaceAbsent(l, pat, "[---]");
  }


  lemma MergeSampleMerged()
    ensures MergeDashRuns(MergeSample) == [Dash(2), Char(Alpha), Dash(3)]
  {
    MergeSampleLeading();
    var u := MergeSample[3..];
    assert u[..3] == u && u[3..] == [];
    assert DashTotal(u) == 3 by {
      assert u == [Dash(1), Dash(1), Dash(1)];
      assert u[1..] == [Dash(1), Dash(1)];
      assert u[1..][1..] == [Dash(1)];
      assert u[1..][1..][1..] == [];
      assert DashTotal(u[1..][1..]) == 1;
      assert DashTotal(u[1..]) == 2;
    }
    assert MergeDashRuns(u) == [Dash(3)];
    assert MergeSample[2..][1..] == u;
    assert MergeDashRuns(MergeSample[2..]) == [Char(Alpha), Dash(3)];
    assert DashTotal(MergeSample[..2]) == 2 by {
      assert MergeSample[..2] == [Dash(1), Dash(1)];
      assert MergeSample[..2][1..] == [Dash(1)];
      assert MergeSample[..2][1..][1..] == [];
    }
  }

  lemma MergeSampleRendered()
    ensures Tokenize(Render(MergeSample)) == MergeSample
    ensures Render(MergeSample) == "[-][-]" + [Alpha] + "[-][-][-]"
  {
    MergeSampleReadBack();
    MergeSampleText();
  }

  lemma MergeSampleReadBack()
    ensures Tokenize(Render(MergeSample)) == MergeSample
  {
    assert Readable(MergeSample);
    TokenizeRender(MergeSample);
  }

  lemma MergeSampleText()
    ensures Render(MergeSample) == "[-][-]" + [Alpha] + "[-][-][-]"
  {
    MergeSampleTexts();
    RenderAppend(MergeSample[..2], MergeSample[2..]);
    assert MergeSample == MergeSample[..2] + MergeSample[2..];
    RenderAppend([Char(Alpha)], MergeSample[3..]);
    assert MergeSample[2..] == [Char(Alpha)] + MergeSample[3..];
    assert Render([Char(Alpha)]) == [Alpha];
  }

  lemma MergeSampleCounts()
    ensures Count("[-][-]", '-') == 2 && DashGroup(2) == "[--]"
    ensures Count("[-][-][-]", '-') == 3 && DashGroup(3) == "[---]"
  {
    SampleCountTwo();
    SampleCountThree();
    DashGroupTwo();
    DashGroupThree();
  }

  lemma DashGroupTwo()
    ensures DashGroup(2) == "[--]"
  {
    var g := DashGroup(2);
    assert g[1] == '-' && g[2] == '-';
  }

  lemma DashGroupThree()
    ensures DashGroup(3) == "[---]"
  {
    var g := DashGroup(3);
    assert g[1] == '-' && g[2] == '-' && g[3] == '-';
  }

  lemma SampleCountOne()
    ensures Count("[-]", '-') == 1
  {
    CountDashGroup(1);
    assert DashGroup(1) == "[-]";
  }

  lemma SampleCountTwo()
    ensures Count("[-][-]", '-') == 2
  {
    SampleCountOne();
    CountAppend("[-]", "[-]", '-');
    assert "[-][-]" == "[-]" + "[-]";
  }

  lemma SampleCountThree()
    ensures Count("[-][-][-]", '-') == 3
  {
    SampleCountOne();
    SampleCountTwo();
    CountAppend("[-][-]", "[-]", '-');
    assert "[-][-][-]" == "[-][-]" + "[-]";
  }

  lemma MergeSampleReplaceRuns()
    ensures ReplaceRuns("[-][-]" + [Alpha] + "[-][-][-]", ["[-][-]", "[-][-][-]"]) == "[--]" + [Alpha] + "[--]" + "[-]"
  {
    var line, p, q := "[-][-]" + [Alpha] + "[-][-][-]", "[-][-]", "[-][-][-]";
    ReplaceRunsTwo(line, p, q);
    MergeSampleCounts();
    assert DashGroup(Count(p, '-')) == "[--]" && DashGroup(Count(q, '-')) == "[---]";
    MergeSampleFirstPass();
    MergeSampleSecondPass();
  }

  /** Two runs to replace: one pass for each, in order. */
  lemma ReplaceRunsTwo(line: string, p: string, q: string)
    requires p != [] && q != []
    ensures ReplaceRuns(line, [p, q])
         == Replace(Replace(line, p, DashGroup(Count(p, '-'))), q, DashGroup(Count(q, '-')))
  {
    var x := Replace(line, p, DashGroup(Count(p, '-')));
    var y := Replace(x, q, DashGroup(Count(q, '-')));
    assert [q][1..] == [];
    assert ReplaceRuns(x, [q]) == ReplaceRuns(y, []) == y;
    assert [p, q][1..] == [q];
  }

  /**
   * The merge as written turns "[-][-]Α[-][-][-]" into "[--]Α[--][-]",
   * where two dash groups still stand side by side.
   */
  lemma MergeAsWrittenCounterexample()
    ensures MergeAsWritten(Render(MergeSample)) == "[--]" + [Alpha] + "[--]" + "[-]"
  {
    MergeSampleRendered();
    MergeSampleRuns();
    MergeSampleTexts();
    MergeSampleReplaceRuns();
  }

  /** The corrected merge turns the same line into "[--]Α[---]". */
  lemma MergeCorrectedOnSample()
    ensures MergeCorrected(Render(MergeSample)) == "[--]" + [Alpha] + "[---]"
  {
    MergeSampleRendered();
    MergeSampleMerged();
    assert DashGroup(2) == "[--]";
    assert DashGroup(3) == "[---]";
    var m := [Dash(2), Char(Alpha), Dash(3)];
    assert Render(m[1..][1..]) == "[---]" by {
      assert m[1..][1..] == [Dash(3)];
      assert Render(m[1..][1..][1..]) == [];
    }
    assert Render(m[1..]) == [Alpha] + "[---]" by {
      assert m[1..][0] == Char(Alpha);
    }
  }
}
