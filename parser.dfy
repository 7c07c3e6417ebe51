/**
 * What the TEI parser does with the text of a block once its elements are
 * rendered: split it into lines, move the additions marked `<..<` and `>..>`
 * onto lines of their own before and after the line that carries them,
 * format and validate every line, and drop what is left empty.
 */
module Parser {
  import opened Strings
  import opened Wrappers
  import LineFormat
  import PapyrserUtils
  import Format
  import Transformer
  import Tags

  // ---------------------------------------------------------------------------
  // Splitting a text into lines
  // ---------------------------------------------------------------------------

  /** The pieces joined back with the separator between them. */
  function Join(ps: seq<string>, c: char): string
    requires |ps| >= 1
  {
    if |ps| == 1 then ps[0] else ps[0] + [c] + Join(ps[1..], c)
  }

  /** `s.split(c)`: the pieces between the separators, an empty one wherever two meet or at either end. */
  function Split(s: string, c: char): (r: seq<string>)
    ensures |r| >= 1
    ensures forall k | 0 <= k < |r| :: c !in r[k]
    ensures Join(r, c) == s
  {
    if s == [] then [""]
    else
      var rest := Split(s[1..], c);
      if s[0] == c then
        assert Join([""] + rest, c) == [c] + Join(rest, c) by {
          assert ([""] + rest)[1..] == rest;
        }
        assert s == [c] + s[1..];
        [""] + rest
      else
        var head := [s[0]] + rest[0];
        var r := [head] + rest[1..];
        assert forall k | 1 <= k < |r| :: r[k] == rest[k];
        assert c !in head;
        assert Join(r, c) == [s[0]] + Join(rest, c) by {
          if |rest| > 1 {
            assert r[1..] == rest[1..];
          }
        }
        assert s == [s[0]] + s[1..];
        r
  }

  /** `filter(None, text.split('\n'))`: the lines of a text that are not empty. */
  function Lines(text: string): (r: seq<string>)
    ensures forall k | 0 <= k < |r| :: r[k] != "" && '\n' !in r[k]
  {
    var ps := Split(text, '\n');
    var r := PapyrserUtils.NonEmpty(ps);
    assert forall k | 0 <= k < |r| :: r[k] in ps;
    r
  }

  // ---------------------------------------------------------------------------
  // Insertion markers
  // ---------------------------------------------------------------------------

  /** The first position at or after k holding the delimiter or a newline. */
  function StopAt(s: string, d: char, k: nat): (r: Option<nat>)
    requires k <= |s|
    ensures r.Some? ==> k <= r.value < |s| && (s[r.value] == d || s[r.value] == '\n')
    ensures forall j | k <= j < (if r.Some? then r.value else |s|) :: s[j] != d && s[j] != '\n'
    decreases |s| - k
  {
    if k == |s| then None
    else if s[k] == d || s[k] == '\n' then Some(k)
    else StopAt(s, d, k + 1)
  }

  /**
   * `re.findall(d + '(.*?)' + d, s)`: scanning from the left, each delimiter
   * opens the shortest text up to the next delimiter; a newline on the way
   * (`.` does not match one) abandons that start. Matches do not overlap.
   */
  function Markers(s: string, d: char): (r: seq<string>)
    ensures forall k | 0 <= k < |r| :: d !in r[k] && '\n' !in r[k]
    decreases |s|
  {
    if s == [] then []
    else if s[0] != d then Markers(s[1..], d)
    else
      match StopAt(s, d, 1)
      case Some(j) =>
        if s[j] == d then
          var m := s[1..j];
          assert forall c | c in m :: c != d && c != '\n' by {
            forall c | c in m ensures c != d && c != '\n' {
              var q :| 0 <= q < |m| && m[q] == c;
              assert s[q + 1] == c;
            }
          }
          [m] + Markers(s[j + 1..], d)
        else Markers(s[1..], d)
      case None => Markers(s[1..], d)
  }

  /** Every marker found stands in the line between two delimiters. */
  lemma {:induction false} MarkersOccur(s: string, d: char)
    ensures forall k | 0 <= k < |Markers(s, d)| :: ContainsSub(s, [d] + Markers(s, d)[k] + [d])
    decreases |s|
  {
    if s == [] {
    } else if s[0] != d {
      MarkersOccur(s[1..], d);
      ShiftOccurrences(s, 1, Markers(s[1..], d), d);
    } else {
      match StopAt(s, d, 1)
      case Some(j) =>
        if s[j] == d {
          var m := s[1..j];
          MarkersOccur(s[j + 1..], d);
          ShiftOccurrences(s, j + 1, Markers(s[j + 1..], d), d);
          assert s[0..j + 1] == [d] + m + [d];
          assert OccursAt(s, [d] + m + [d], 0);
        } else {
          MarkersOccur(s[1..], d);
          ShiftOccurrences(s, 1, Markers(s[1..], d), d);
        }
      case None =>
        MarkersOccur(s[1..], d);
        ShiftOccurrences(s, 1, Markers(s[1..], d), d);
    }
  }

  /** What occurs in a suffix of s occurs in s. */
  lemma ShiftOccurrences(s: string, off: nat, ms: seq<string>, d: char)
    requires off <= |s|
    requires forall k | 0 <= k < |ms| :: ContainsSub(s[off..], [d] + ms[k] + [d])
    ensures forall k | 0 <= k < |ms| :: ContainsSub(s, [d] + ms[k] + [d])
  {
    forall k | 0 <= k < |ms|
      ensures ContainsSub(s, [d] + ms[k] + [d])
    {
      var t := [d] + ms[k] + [d];
      var p :| 0 <= p <= |s[off..]| && OccursAt(s[off..], t, p);
      assert s[off..][p..p + |t|] == s[off + p..off + p + |t|];
      assert OccursAt(s, t, off + p);
    }
  }

  /** `[x] + ... ` in reverse: `list.reverse()`. */
  function Reverse(ms: seq<string>): (r: seq<string>)
    ensures |r| == |ms|
    ensures forall k | 0 <= k < |ms| :: r[k] == ms[|ms| - 1 - k]
  {
    if ms == [] then [] else Reverse(ms[1..]) + [ms[0]]
  }

  /** The additions to go above a line, in the order `insert_lines` handles them. */
  function Left(line: string): seq<string> {
    Reverse(Markers(line, '<'))
  }

  /** The additions to go below a line. */
  function Right(line: string): seq<string> {
    Markers(line, '>')
  }

  /** `line.replace(d + m + d, '')` for each marker m in turn. */
  function RemoveAll(line: string, ms: seq<string>, d: char): string {
    if ms == [] then line
    else Replace(RemoveAll(line, ms[..|ms| - 1], d), [d] + ms[|ms| - 1] + [d], "")
  }

  /** The line that stays once its markers are removed. */
  function Stripped(line: string): string {
    RemoveAll(RemoveAll(line, Left(line), '<'), Right(line), '>')
  }

  /** The number of lines a line brings with it. */
  function Carried(line: string): nat {
    |Left(line)| + |Right(line)|
  }

  // ---------------------------------------------------------------------------
  // insert_lines
  // ---------------------------------------------------------------------------

  /** One recorded insertion: where the text goes in the original list, and the text. */
  datatype Insertion = Insertion(target: nat, text: string)

  function Pairs(i: nat, ms: seq<string>): (r: seq<Insertion>)
    ensures |r| == |ms|
    ensures forall k | 0 <= k < |ms| :: r[k] == Insertion(i, ms[k])
  {
    if ms == [] then [] else [Insertion(i, ms[0])] + Pairs(i, ms[1..])
  }

  /** The insertions recorded for line i: those above it aim at i, those below at i + 1. */
  function LineInsertions(i: nat, line: string): seq<Insertion> {
    Pairs(i, Left(line)) + Pairs(i + 1, Right(line))
  }

  /** The insertions recorded for the lines, the first of them at index i. */
  function AllInsertions(lines: seq<string>, i: nat): seq<Insertion> {
    if lines == [] then [] else LineInsertions(i, lines[0]) + AllInsertions(lines[1..], i + 1)
  }

  /** `list.insert(index, x)`, element by element: past the end it appends. */
  function InsertAt(l: seq<string>, index: nat, x: string): (r: seq<string>)
    ensures |r| == |l| + 1
  {
    if index == 0 || l == [] then [x] + l else [l[0]] + InsertAt(l[1..], index - 1, x)
  }

  /** x goes in at the index, everything before it stays before, everything after it after; past the end it is appended. */
  lemma {:induction false} InsertAtSlices(l: seq<string>, index: nat, x: string)
    ensures index <= |l| ==> InsertAt(l, index, x) == l[..index] + [x] + l[index..]
    ensures index > |l| ==> InsertAt(l, index, x) == l + [x]
  {
    if index == 0 || l == [] {
      assert l[..0] == [] && l[0..] == l;
    } else {
      InsertAtSlices(l[1..], index - 1, x);
      if index <= |l| {
        assert l[1..][..index - 1] == l[1..index] && l[1..][index - 1..] == l[index..];
        assert l[..index] == [l[0]] + l[1..index];
      } else {
        assert l == [l[0]] + l[1..];
      }
    }
  }

  /**
   * The second loop of `insert_lines`: every recorded text goes in at its
   * target shifted by the number of texts inserted before it, and is
   * formatted there.
   */
  function InsertAll(l: seq<string>, ins: seq<Insertion>, count: nat, fmt: string -> string): (r: seq<string>)
    ensures |r| == |l| + |ins|
    decreases |ins|
  {
    if ins == [] then l
    else InsertAll(InsertAt(l, ins[0].target + count, fmt(ins[0].text)), ins[1..], count + 1, fmt)
  }

  function Formatted(ms: seq<string>, fmt: string -> string): (r: seq<string>)
    ensures |r| == |ms|
    ensures forall k | 0 <= k < |ms| :: r[k] == fmt(ms[k])
  {
    if ms == [] then [] else [fmt(ms[0])] + Formatted(ms[1..], fmt)
  }

  /** What a line becomes: the additions above it, the line itself, the additions below it. */
  function Block(line: string, fmt: string -> string): (r: seq<string>)
    ensures |r| == Carried(line) + 1
  {
    Formatted(Left(line), fmt) + [Stripped(line)] + Formatted(Right(line), fmt)
  }

  /** The intended result of `insert_lines`. */
  function Expand(lines: seq<string>, fmt: string -> string): seq<string> {
    if lines == [] then [] else Block(lines[0], fmt) + Expand(lines[1..], fmt)
  }

  function StrippedAll(lines: seq<string>): (r: seq<string>)
    ensures |r| == |lines|
    ensures forall k | 0 <= k < |lines| :: r[k] == Stripped(lines[k])
  {
    if lines == [] then [] else [Stripped(lines[0])] + StrippedAll(lines[1..])
  }

  /** A run of texts aimed at the same place lands there one after the other. */
  lemma {:induction false} InsertRun(done: seq<string>, rest: seq<string>, i: nat, ms: seq<string>, more: seq<Insertion>,
                                     count: nat, fmt: string -> string)
    requires i + count == |done|
    ensures InsertAll(done + rest, Pairs(i, ms) + more, count, fmt)
         == InsertAll(done + Formatted(ms, fmt) + rest, more, count + |ms|, fmt)
    decreases |ms|
  {
    if ms == [] {
      assert done + Formatted(ms, fmt) + rest == done + rest;
      assert Pairs(i, ms) + more == more;
    } else {
      var x := fmt(ms[0]);
      InsertFirst(done, rest, i, ms, more, count, fmt);
      InsertRun(done + [x], rest, i, ms[1..], more, count + 1, fmt);
      assert Formatted(ms, fmt) == [x] + Formatted(ms[1..], fmt);
      Regroup(done, [x], Formatted(ms[1..], fmt), rest);
    }
  }

  /** The first text of a run goes in right after what is done. */
  lemma InsertFirst(done: seq<string>, rest: seq<string>, i: nat, ms: seq<string>, more: seq<Insertion>,
                    count: nat, fmt: string -> string)
    requires i + count == |done| && ms != []
    ensures InsertAll(done + rest, Pairs(i, ms) + more, count, fmt)
         == InsertAll(done + [fmt(ms[0])] + rest, Pairs(i, ms[1..]) + more, count + 1, fmt)
  {
    var ins := Pairs(i, ms) + more;
    var l := done + rest;
    assert ins[0] == Insertion(i, ms[0]);
    assert ins[1..] == Pairs(i, ms[1..]) + more;
    assert InsertAt(l, i + count, fmt(ms[0])) == done + [fmt(ms[0])] + rest by {
      InsertAtSlices(l, i + count, fmt(ms[0]));
      assert l[..|done|] == done;
      assert l[|done|..] == rest;
    }
  }

  lemma Regroup<T>(a: seq<T>, b: seq<T>, c: seq<T>, d: seq<T>)
    ensures a + b + c + d == a + (b + c) + d
  {
  }

  /** The texts above a line go in before it, those below after it. */
  lemma AroundLine(done: seq<string>, l: seq<string>, x: string, r: seq<string>, rest: seq<string>, i: nat,
                   more: seq<Insertion>, count: nat, fmt: string -> string)
    requires i + count == |done|
    ensures InsertAll(done + [x] + rest, Pairs(i, l) + Pairs(i + 1, r) + more, count, fmt)
         == InsertAll(done + (Formatted(l, fmt) + [x] + Formatted(r, fmt)) + rest, more, count + |l| + |r|, fmt)
  {
    AboveLine(done, l, x, rest, i, Pairs(i + 1, r), more, count, fmt);
    BelowLine(done, Formatted(l, fmt), x, r, rest, i, more, count + |l|, fmt);
  }

  /** The texts below a line go in after it. */
  lemma BelowLine(done: seq<string>, fl: seq<string>, x: string, r: seq<string>, rest: seq<string>, i: nat,
                  more: seq<Insertion>, count: nat, fmt: string -> string)
    requires i + count == |done| + |fl|
    ensures InsertAll(done + fl + [x] + rest, Pairs(i + 1, r) + more, count, fmt)
         == InsertAll(done + (fl + [x] + Formatted(r, fmt)) + rest, more, count + |r|, fmt)
  {
    var fr, mid := Formatted(r, fmt), done + fl + [x];
    InsertRun(mid, rest, i + 1, r, more, count, fmt);
    assert mid + fr + rest == done + (fl + [x] + fr) + rest by {
      Rejoin(done, fl, x, fr);
    }
  }

  /** The texts above a line go in before it. */
  lemma AboveLine(done: seq<string>, l: seq<string>, x: string, rest: seq<string>, i: nat,
                  pr: seq<Insertion>, more: seq<Insertion>, count: nat, fmt: string -> string)
    requires i + count == |done|
    ensures InsertAll(done + [x] + rest, Pairs(i, l) + pr + more, count, fmt)
         == InsertAll(done + Formatted(l, fmt) + [x] + rest, pr + more, count + |l|, fmt)
  {
    var pl, fl := Pairs(i, l), Formatted(l, fmt);
    assert pl + pr + more == pl + (pr + more) by {
      Assoc(pl, pr, more);
    }
    assert done + [x] + rest == done + ([x] + rest) by {
      Assoc(done, [x], rest);
    }
    InsertRun(done, [x] + rest, i, l, pr + more, count, fmt);
    assert done + fl + ([x] + rest) == done + fl + [x] + rest by {
      Assoc(done + fl, [x], rest);
    }
  }

  lemma Rejoin<T>(done: seq<T>, fl: seq<T>, x: T, fr: seq<T>)
    ensures done + fl + [x] + fr == done + (fl + [x] + fr)
  {
  }

  lemma Assoc<T>(a: seq<T>, b: seq<T>, c: seq<T>)
    ensures a + b + c == a + (b + c)
  {
  }

  /** The insertions of one line turn it into its block. */
  lemma LineStep(done: seq<string>, line: string, rest: seq<string>, i: nat, more: seq<Insertion>, count: nat,
                 fmt: string -> string)
    requires i + count == |done|
    ensures InsertAll(done + [Stripped(line)] + rest, LineInsertions(i, line) + more, count, fmt)
         == InsertAll(done + Block(line, fmt) + rest, more, count + Carried(line), fmt)
  {
    var l, x, r := Left(line), Stripped(line), Right(line);
    calc {
      InsertAll(done + [x] + rest, LineInsertions(i, line) + more, count, fmt);
      InsertAll(done + [x] + rest, Pairs(i, l) + Pairs(i + 1, r) + more, count, fmt);
      { AroundLine(done, l, x, r, rest, i, more, count, fmt); }
      InsertAll(done + (Formatted(l, fmt) + [x] + Formatted(r, fmt)) + rest, more, count + |l| + |r|, fmt);
      InsertAll(done + Block(line, fmt) + rest, more, count + Carried(line), fmt);
    }
  }

  /** The insertions of the first line turn it into its block, ahead of the other lines. */
  lemma FirstLine(done: seq<string>, lines: seq<string>, i: nat, count: nat, fmt: string -> string)
    requires i + count == |done| && lines != []
    ensures InsertAll(done + StrippedAll(lines), AllInsertions(lines, i), count, fmt)
         == InsertAll(done + Block(lines[0], fmt) + StrippedAll(lines[1..]), AllInsertions(lines[1..], i + 1),
                      count + Carried(lines[0]), fmt)
  {
    var q, st := lines[0], StrippedAll(lines[1..]);
    UnfoldLines(lines, i, fmt);
    Assoc(done, [Stripped(q)], st);
    LineStep(done, q, st, i, AllInsertions(lines[1..], i + 1), count, fmt);
  }

  lemma UnfoldLines(lines: seq<string>, i: nat, fmt: string -> string)
    requires lines != []
    ensures StrippedAll(lines) == [Stripped(lines[0])] + StrippedAll(lines[1..])
    ensures AllInsertions(lines, i) == LineInsertions(i, lines[0]) + AllInsertions(lines[1..], i + 1)
    ensures Expand(lines, fmt) == Block(lines[0], fmt) + Expand(lines[1..], fmt)
  {
  }

  /** Line after line, the insertions build the expanded list. */
  lemma {:induction false} AllSteps(done: seq<string>, lines: seq<string>, i: nat, count: nat, fmt: string -> string)
    requires i + count == |done|
    ensures InsertAll(done + StrippedAll(lines), AllInsertions(lines, i), count, fmt) == done + Expand(lines, fmt)
    decreases |lines|
  {
    if lines == [] {
      assert done + StrippedAll(lines) == done;
      assert done + Expand(lines, fmt) == done;
    } else {
      FirstLine(done, lines, i, count, fmt);
      AllSteps(done + Block(lines[0], fmt), lines[1..], i + 1, count + Carried(lines[0]), fmt);
      UnfoldLines(lines, i, fmt);
      Assoc(done, Block(lines[0], fmt), Expand(lines[1..], fmt));
    }
  }

  /** Inserting every recorded text into the stripped lines gives the expanded list. */
  lemma InsertAllExpands(lines: seq<string>, fmt: string -> string)
    ensures InsertAll(StrippedAll(lines), AllInsertions(lines, 0), 0, fmt) == Expand(lines, fmt)
  {
    AllSteps([], lines, 0, 0, fmt);
    assert [] + StrippedAll(lines) == StrippedAll(lines);
    assert [] + Expand(lines, fmt) == Expand(lines, fmt);
  }

  function TotalCarried(lines: seq<string>): nat {
    if lines == [] then 0 else Carried(lines[0]) + TotalCarried(lines[1..])
  }

  /** The result holds every original line and one more line per marker. */
  lemma {:induction false} ExpandLength(lines: seq<string>, fmt: string -> string)
    ensures |Expand(lines, fmt)| == |lines| + TotalCarried(lines)
  {
    if lines != [] {
      ExpandLength(lines[1..], fmt);
    }
  }

  lemma {:induction false} AllInsertionsSnoc(lines: seq<string>, line: string, i: nat)
    ensures AllInsertions(lines + [line], i) == AllInsertions(lines, i) + LineInsertions(i + |lines|, line)
    decreases |lines|
  {
    if lines == [] {
      assert AllInsertions([line], i) == LineInsertions(i, line) + AllInsertions([], i + 1);
    } else {
      var head, last := LineInsertions(i, lines[0]), LineInsertions(i + |lines|, line);
      assert (lines + [line])[1..] == lines[1..] + [line];
      AllInsertionsSnoc(lines[1..], line, i + 1);
      calc {
        AllInsertions(lines + [line], i);
        head + AllInsertions(lines[1..] + [line], i + 1);
        head + (AllInsertions(lines[1..], i + 1) + last);
        { Assoc(head, AllInsertions(lines[1..], i + 1), last); }
        AllInsertions(lines, i) + last;
      }
    }
  }

  /** Every recorded target is an index of the list or its end. */
  lemma {:induction false} TargetsInRange(lines: seq<string>, i: nat)
    ensures forall k | 0 <= k < |AllInsertions(lines, i)| :: AllInsertions(lines, i)[k].target <= i + |lines|
    decreases |lines|
  {
    if lines != [] {
      TargetsInRange(lines[1..], i + 1);
      var head := LineInsertions(i, lines[0]);
      assert forall k | 0 <= k < |head| :: head[k].target <= i + 1;
    }
  }

  // ---------------------------------------------------------------------------
  // An addition placed by `add` comes back as a line of its own
  // ---------------------------------------------------------------------------

  /** A line without the delimiter carries no marker. */
  lemma {:induction false} MarkersAbsent(s: string, d: char)
    requires d !in s
    ensures Markers(s, d) == []
    decreases |s|
  {
    if s != [] {
      MarkersAbsent(s[1..], d);
    }
  }

  /** Text without the delimiter in front of the markers does not change them. */
  lemma {:induction false} MarkersAfter(pre: string, s: string, d: char)
    requires d !in pre
    ensures Markers(pre + s, d) == Markers(s, d)
    decreases |pre|
  {
    if pre != [] {
      assert (pre + s)[0] == pre[0] && pre[0] in pre;
      assert (pre + s)[1..] == pre[1..] + s;
      MarkersAfter(pre[1..], s, d);
    } else {
      assert pre + s == s;
    }
  }

  /** A single marker `d t d` in front of a text without the delimiter is the only one found. */
  lemma MarkersFront(t: string, post: string, d: char)
    requires d !in t && '\n' !in t && d !in post
    ensures Markers([d] + t + [d] + post, d) == [t]
  {
    var s := [d] + t + [d] + post;
    var j := |t| + 1;
    assert s[j] == d;
    assert forall q | 1 <= q < j :: s[q] == t[q - 1];
    match StopAt(s, d, 1)
    case None =>
      assert false;
    case Some(v) =>
      if v < j {
        assert false;
      }
      assert v == j;
      assert s[1..j] == t;
      assert s[j + 1..] == post;
      MarkersAbsent(post, d);
  }

  /** A marked addition on a line without other markers: it is removed from the line and returned. */
  lemma MarkedOnce(pre: string, t: string, post: string, d: char)
    requires d == '<' || d == '>'
    requires '<' !in pre + t + post && '>' !in pre + t + post && '\n' !in t
    ensures Markers(pre + [d] + t + [d] + post, d) == [t]
    ensures RemoveAll(pre + [d] + t + [d] + post, [t], d) == pre + post
  {
    var line := pre + [d] + t + [d] + post;
    assert forall c | c in pre :: c in pre + t + post;
    assert forall c | c in t :: c in pre + t + post;
    assert forall c | c in post :: c in pre + t + post;
    assert line == pre + ([d] + t + [d] + post);
    MarkersAfter(pre, [d] + t + [d] + post, d);
    MarkersFront(t, post, d);
    assert RemoveAll(line, [], d) == line;
    assert line == pre + ([d] + t + [d]) + post;
    ReplaceOnce(pre, [d] + t + [d], post, "");
  }

  /** A line whose one marker is `<t<`: t goes on a line of its own above it. */
  lemma MarkedAbove(pre: string, t: string, post: string, fmt: string -> string)
    requires '<' !in pre + t + post && '>' !in pre + t + post && '\n' !in t
    ensures Block(pre + ['<'] + t + ['<'] + post, fmt) == [fmt(t), pre + post]
  {
    var line := pre + ['<'] + t + ['<'] + post;
    MarkedOnce(pre, t, post, '<');
    assert forall c | c in line :: c in pre + t + post || c == '<';
    MarkersAbsent(line, '>');
    assert Left(line) == [t] && Right(line) == [];
  }

  /** A line whose one marker is `>t>`: t goes on a line of its own below it. */
  lemma MarkedBelow(pre: string, t: string, post: string, fmt: string -> string)
    requires '<' !in pre + t + post && '>' !in pre + t + post && '\n' !in t
    ensures Block(pre + ['>'] + t + ['>'] + post, fmt) == [pre + post, fmt(t)]
  {
    var line := pre + ['>'] + t + ['>'] + post;
    MarkedOnce(pre, t, post, '>');
    assert forall c | c in line :: c in pre + t + post || c == '>';
    MarkersAbsent(line, '<');
    assert Left(line) == [] && Right(line) == [t];
    assert RemoveAll(line, [], '<') == line;
  }

  /**
   * `add` with a placement that moves the text off the line, followed by the
   * resolution of `insert_lines`: the added text stands formatted on its own
   * line above (above, left, interlinear) or below (below, right) the line,
   * and the line keeps only the arrow `add` left in its place.
   */
  lemma AddGoesToOwnLine(pre: string, t: string, post: string, place: string, fmt: string -> string)
    requires place in {"above", "below", "left", "right", "interlinear"}
    requires place == "above" ==> |t| > 1
    requires '<' !in pre + t + post && '>' !in pre + t + post && '\n' !in t
    ensures var line := pre + Tags.Add(t, map["place" := place]) + post;
      && (place == "above" ==> Block(line, fmt) == [fmt(t), pre + [Tags.ArrowUp] + post])
      && (place == "left" ==> Block(line, fmt) == [fmt(t), pre + [Tags.ArrowLeft] + post])
      && (place == "interlinear" ==> Block(line, fmt) == [fmt(t), pre + post])
      && (place == "below" ==> Block(line, fmt) == [pre + [Tags.ArrowDown] + post, fmt(t)])
      && (place == "right" ==> Block(line, fmt) == [pre + [Tags.ArrowRight] + post, fmt(t)])
  {
    var a := Tags.Add(t, map["place" := place]);
    var arrow: string :=
      if place == "above" then [Tags.ArrowUp] else if place == "left" then [Tags.ArrowLeft]
      else if place == "below" then [Tags.ArrowDown] else if place == "right" then [Tags.ArrowRight] else [];
    var pre' := pre + arrow;
    assert forall c | c in pre' + t + post :: c in pre + t + post || c in arrow;
    if place in {"above", "left", "interlinear"} {
      assert a == arrow + ['<'] + t + ['<'];
      assert pre + a + post == pre' + ['<'] + t + ['<'] + post;
      MarkedAbove(pre', t, post, fmt);
      assert place == "interlinear" ==> pre' == pre;
    } else {
      assert a == arrow + ['>'] + t + ['>'];
      assert pre + a + post == pre' + ['>'] + t + ['>'] + post;
      MarkedBelow(pre', t, post, fmt);
    }
  }

  /** One inner loop of `insert_lines`: remove each marker `d m d` in turn and record m aimed at target. */
  method RemoveMarkers(line: string, ms: seq<string>, d: char, target: nat) returns (cur: string, ins: seq<Insertion>)
    ensures cur == RemoveAll(line, ms, d)
    ensures ins == Pairs(target, ms)
  {
    cur := line;
    ins := [];
    var j := 0;
    while j < |ms|
      invariant 0 <= j <= |ms|
      invariant cur == RemoveAll(line, ms[..j], d)
      invariant ins == Pairs(target, ms[..j])
    {
      RemoveStep(line, ms, j, d, target);
      cur := Replace(cur, [d] + ms[j] + [d], "");
      ins := ins + [Insertion(target, ms[j])];
      j := j + 1;
    }
    assert ms[..j] == ms;
  }

  /** The body of the first loop of `insert_lines` for line i: strip its markers and record them. */
  method StripLine(line: string, i: nat) returns (cur: string, ins: seq<Insertion>)
    ensures cur == Stripped(line)
    ensures ins == LineInsertions(i, line)
  {
    var leftFind := Markers(line, '<');
    leftFind := Reverse(leftFind);
    var rightFind := Markers(line, '>');
    var afterLeft, left := RemoveMarkers(line, leftFind, '<', i);
    var right;
    cur, right := RemoveMarkers(afterLeft, rightFind, '>', i + 1);
    ins := left + right;
  }

  /**
   * The second loop of `insert_lines`: each text goes in at its target
   * shifted by the number inserted so far, and is formatted in place.
   */
  method InsertRecorded(stripped: seq<string>, insertions: seq<Insertion>, fmt: string -> string)
    returns (lines: seq<string>)
    requires forall k | 0 <= k < |insertions| :: insertions[k].target <= |stripped|
    ensures lines == InsertAll(stripped, insertions, 0, fmt)
  {
    lines := stripped;
    var insertionCount := 0;
    while insertionCount < |insertions|
      invariant 0 <= insertionCount <= |insertions|
      invariant |lines| == |stripped| + insertionCount
      invariant InsertAll(lines, insertions[insertionCount..], insertionCount, fmt)
             == InsertAll(stripped, insertions, 0, fmt)
    {
      var tpl := insertions[insertionCount];
      var index := tpl.target + insertionCount;
      assert insertions[insertionCount..][1..] == insertions[insertionCount + 1..];
      ghost var before := lines;
      lines := lines[..index] + [tpl.text] + lines[index..];
      lines := lines[index := fmt(lines[index])];
      InsertAtSlices(before, index, fmt(tpl.text));
      assert lines == InsertAt(before, index, fmt(tpl.text));
      insertionCount := insertionCount + 1;
    }
    assert insertions[insertionCount..] == [];
  }

  /** The first loop of `insert_lines`: every line stripped, every marker recorded with its target. */
  method RecordInsertions(lineText: seq<string>) returns (lines: seq<string>, insertions: seq<Insertion>)
    ensures lines == StrippedAll(lineText)
    ensures insertions == AllInsertions(lineText, 0)
  {
    lines := lineText;
    insertions := [];
    var i := 0;
    while i < |lines|
      invariant 0 <= i <= |lines| == |lineText|
      invariant lines == StrippedAll(lineText[..i]) + lineText[i..]
      invariant insertions == AllInsertions(lineText[..i], 0)
    {
      var line := lines[i];
      assert line == lineText[i];
      var cur, ins := StripLine(line, i);
      StripStep(lineText, i);
      RecordStep(lineText, i);
      insertions := insertions + ins;
      lines := lines[i := cur];
      i := i + 1;
    }
    assert lineText[..i] == lineText;
  }

  /** Removing one more marker: the loop step of `RemoveMarkers`. */
  lemma RemoveStep(line: string, ms: seq<string>, j: nat, d: char, target: nat)
    requires j < |ms|
    ensures RemoveAll(line, ms[..j + 1], d) == Replace(RemoveAll(line, ms[..j], d), [d] + ms[j] + [d], "")
    ensures Pairs(target, ms[..j + 1]) == Pairs(target, ms[..j]) + [Insertion(target, ms[j])]
  {
    assert ms[..j + 1][..j] == ms[..j];
  }

  /** Recording the markers of line i extends the recorded list by that line's insertions. */
  lemma RecordStep(lineText: seq<string>, i: nat)
    requires i < |lineText|
    ensures AllInsertions(lineText[..i + 1], 0) == AllInsertions(lineText[..i], 0) + LineInsertions(i, lineText[i])
  {
    assert lineText[..i + 1] == lineText[..i] + [lineText[i]];
    AllInsertionsSnoc(lineText[..i], lineText[i], 0);
  }

  /** Stripping line i in place extends the stripped prefix by one line. */
  lemma StripStep(lineText: seq<string>, i: nat)
    requires i < |lineText|
    ensures (StrippedAll(lineText[..i]) + lineText[i..])[i := Stripped(lineText[i])]
         == StrippedAll(lineText[..i + 1]) + lineText[i + 1..]
  {
    var p := StrippedAll(lineText[..i]);
    assert lineText[..i + 1] == lineText[..i] + [lineText[i]];
    StrippedSnoc(lineText[..i], lineText[i]);
    assert (p + lineText[i..])[i := Stripped(lineText[i])] == p + [Stripped(lineText[i])] + lineText[i + 1..];
  }

  lemma {:induction false} StrippedSnoc(lines: seq<string>, line: string)
    ensures StrippedAll(lines + [line]) == StrippedAll(lines) + [Stripped(line)]
  {
  }

  // ---------------------------------------------------------------------------
  // The elements of a document
  // ---------------------------------------------------------------------------

  /** The elements of a tree in document order, the root first: `soup.find_all()`. */
  function Elements(n: Transformer.Node): seq<Transformer.Node>
    decreases n, 1
  {
    match n
    case Text(_) => []
    case Elem(_, _, _) => [n] + ElementsFrom(n, 0)
  }

  function ElementsFrom(n: Transformer.Node, i: nat): seq<Transformer.Node>
    requires n.Elem? && i <= |n.children|
    decreases n, 0, |n.children| - i
  {
    if i == |n.children| then [] else Elements(n.children[i]) + ElementsFrom(n, i + 1)
  }

  /** `find_all(name)`: the elements of that name. */
  function Named(es: seq<Transformer.Node>, name: string): (r: seq<Transformer.Node>)
    ensures forall k | 0 <= k < |r| :: r[k] in es && r[k].Elem? && r[k].name == name
  {
    if es == [] then []
    else (if es[0].Elem? && es[0].name == name then [es[0]] else []) + Named(es[1..], name)
  }

  /** The attributes of each element, in order. */
  function AttrsOf(es: seq<Transformer.Node>): (r: seq<Transformer.Attrs>)
    ensures |r| == |es|
    ensures forall k | 0 <= k < |es| :: r[k] == (if es[k].Elem? then es[k].attrs else map[])
  {
    if es == [] then [] else [if es[0].Elem? then es[0].attrs else map[]] + AttrsOf(es[1..])
  }

  // ---------------------------------------------------------------------------
  // convert_to_d5
  // ---------------------------------------------------------------------------

  /**
   * Of the five marks `milestone` writes, the one for a diple obelismene
   * (U+2E10) is not among the characters `validate_line` allows (its
   * milestone class lists U+1F92 in its place), so a line carrying that mark
   * is reported as holding a forbidden character; the other four pass.
   */
  lemma MilestoneMarksValidated()
    ensures forall r | r in Tags.MilestoneMap ::
      |Tags.MilestoneMap[r]| == 2 && (Format.AllowedChar(Tags.MilestoneMap[r][1]) <==> r != "diple-obelismene")
  {
    MilestoneCharsAllowed();
    assert Tags.MilestoneMap.Keys == {"paragraphos", "horizontal-rule", "diple-obelismene", "wavy-line", "coronis"};
    assert Tags.MilestoneMap["paragraphos"][1] == '\U{2E0F}';
    assert Tags.MilestoneMap["horizontal-rule"][1] == '\U{2015}';
    assert Tags.MilestoneMap["diple-obelismene"][1] == '\U{2E10}';
    assert Tags.MilestoneMap["wavy-line"][1] == '\U{223C}';
    assert Tags.MilestoneMap["coronis"][1] == '\U{2E0E}';
  }

  /** With the milestone class as intended, every mark `milestone` writes is allowed. */
  lemma MilestoneMarksAllowedIntended()
    ensures forall r | r in Tags.MilestoneMap :: |Tags.MilestoneMap[r]| == 2 && Format.AllowedCharIntended(Tags.MilestoneMap[r][1])
  {
    MilestoneMarksValidated();
    assert Tags.MilestoneMap["diple-obelismene"][1] == '\U{2E10}';
  }

  lemma MilestoneCharsAllowed()
    ensures Format.AllowedChar('\U{2E0F}') && Format.AllowedChar('\U{2015}') && Format.AllowedChar('\U{223C}')
    ensures Format.AllowedChar('\U{2E0E}') && !Format.AllowedChar('\U{2E10}')
  {
    Format.AllowedCharIsClass('\U{2E0F}');
    Format.AllowedCharIsClass('\U{2015}');
    Format.AllowedCharIsClass('\U{2E10}');
    Format.AllowedCharIsClass('\U{223C}');
    Format.AllowedCharIsClass('\U{2E0E}');
  }

  /** What `validate_line` returns: in a Greek-only document a line with Latin look-alikes comes back corrected. */
  function Validated(line: string, greek: bool): string {
    if greek && Format.Fixes(Format.Forbidden(line)) != [] then Format.Corrected(line) else line
  }

  /** Validation keeps the length of a line, and in a Greek-only document leaves no look-alike to correct. */
  lemma ValidatedProps(line: string, greek: bool)
    ensures |Validated(line, greek)| == |line|
    ensures greek ==> Format.Fixes(Format.Forbidden(Validated(line, greek))) == []
    ensures !greek ==> Validated(line, greek) == line
  {
    if greek {
      Format.CorrectedClean(line);
      if Format.Fixes(Format.Forbidden(line)) == [] {
        assert Validated(line, greek) == line;
      }
    }
  }

  /** What the last loop of `convert_to_d5` leaves in place of one line. */
  function Finish(x: string, greek: bool, fmt: string -> string): string {
    if fmt(x) == "" then "" else Validated(fmt(x), greek)
  }

  function FinishAll(xs: seq<string>, greek: bool, fmt: string -> string): (r: seq<string>)
    ensures |r| == |xs|
    ensures forall k | 0 <= k < |xs| :: r[k] == Finish(xs[k], greek, fmt)
  {
    if xs == [] then [] else FinishAll(xs[..|xs| - 1], greek, fmt) + [Finish(xs[|xs| - 1], greek, fmt)]
  }

  /** The error log and the change records of the formatter. */
  datatype Trace = Trace(log: seq<Format.Diagnostic>, changes: seq<seq<Format.Change>>)

  /** The effect of `validate_line` on the formatter, as its contract states it. */
  function ValidateStep(t: Trace, line: string, greek: bool): Trace {
    if greek && Format.Fixes(Format.Forbidden(line)) != [] then
      Trace(Format.Diagnose(Format.Corrected(line)),
            t.changes + [Format.ChangeLog(line, Format.Fixes(Format.Forbidden(line)))])
    else Trace(t.log + Format.Diagnose(line), t.changes)
  }

  /** The formatter after the last loop of `convert_to_d5` went through the lines: empty lines are not validated. */
  function TraceAfter(t: Trace, xs: seq<string>, greek: bool, fmt: string -> string): Trace {
    if xs == [] then t
    else
      var before := TraceAfter(t, xs[..|xs| - 1], greek, fmt);
      var y := fmt(xs[|xs| - 1]);
      if y == "" then before else ValidateStep(before, y, greek)
  }

  lemma {:induction false} TraceAfterAppend(t: Trace, xs: seq<string>, ys: seq<string>, greek: bool, fmt: string -> string)
    ensures TraceAfter(t, xs + ys, greek, fmt) == TraceAfter(TraceAfter(t, xs, greek, fmt), ys, greek, fmt)
    decreases |ys|
  {
    if ys == [] {
      assert xs + ys == xs;
    } else {
      var init := ys[..|ys| - 1];
      assert (xs + ys)[..|xs + ys| - 1] == xs + init;
      TraceAfterAppend(t, xs, init, greek, fmt);
    }
  }

  /** The lines of one `ab` as `insert_lines` returns them, or None when it holds no `lb`. */
  function BlockLines(ab: Transformer.Node, fmt: string -> string, text: seq<Transformer.Node> -> string): Option<seq<string>> {
    match Transformer.FirstLbSiblings(ab)
    case None => None
    case Some(sibs) => Some(Expand(Lines(text(sibs)), fmt))
  }

  /** The block appended to `output` for one `ab`, if any. */
  function BlockOutput(ab: Transformer.Node, greek: bool, fmt: string -> string, text: seq<Transformer.Node> -> string): seq<seq<string>> {
    match BlockLines(ab, fmt, text)
    case None => []
    case Some(ls) => [PapyrserUtils.NonEmpty(FinishAll(ls, greek, fmt))]
  }

  /** `output` after the loop over the `ab` elements. */
  function Outputs(abs: seq<Transformer.Node>, greek: bool, fmt: string -> string, text: seq<Transformer.Node> -> string): seq<seq<string>> {
    if abs == [] then []
    else Outputs(abs[..|abs| - 1], greek, fmt, text) + BlockOutput(abs[|abs| - 1], greek, fmt, text)
  }

  /** Every line of every `ab` with an `lb`, in order: the lines the last loop goes through. */
  function AllLines(abs: seq<Transformer.Node>, fmt: string -> string, text: seq<Transformer.Node> -> string): seq<string> {
    if abs == [] then []
    else
      AllLines(abs[..|abs| - 1], fmt, text) + LinesOf(abs[|abs| - 1], fmt, text)
  }

  /** The lines of one `ab` that the last loop goes through: none without an `lb`. */
  function LinesOf(ab: Transformer.Node, fmt: string -> string, text: seq<Transformer.Node> -> string): seq<string> {
    match BlockLines(ab, fmt, text) case None => [] case Some(ls) => ls
  }

  /** `list(filter(None, output))`. */
  function NonEmptyBlocks(bs: seq<seq<string>>): (r: seq<seq<string>>)
    ensures forall k | 0 <= k < |r| :: r[k] != [] && r[k] in bs
  {
    if bs == [] then [] else (if bs[0] != [] then [bs[0]] else []) + NonEmptyBlocks(bs[1..])
  }

  /** The `ab` elements of a document. */
  function Abs(doc: Transformer.Node): (r: seq<Transformer.Node>)
    ensures forall k | 0 <= k < |r| :: r[k].Elem? && r[k].name == "ab"
  {
    Named(Elements(doc), "ab")
  }

  /**
   * `convert_to_d5` runs through on the document: in every `ab`, the
   * siblings after the first `lb` are parsed without an exception. The
   * header, the text before that `lb` and everything the walk skips may hold
   * anything.
   */
  predicate Converts(doc: Transformer.Node) {
    forall k | 0 <= k < |Abs(doc)| :: Transformer.BlockSound(Abs(doc)[k])
  }

  /** What `convert_to_d5` returns for a document, once `langs` says whether it is Greek only. */
  function D5(doc: Transformer.Node, greek: bool, fmt: string -> string, text: seq<Transformer.Node> -> string): seq<seq<string>>
  {
    NonEmptyBlocks(Outputs(Abs(doc), greek, fmt, text))
  }

  /** Each block in `output` holds the non-empty finished lines of one list of lines. */
  lemma {:induction false} OutputsFinished(abs: seq<Transformer.Node>, greek: bool, fmt: string -> string, text: seq<Transformer.Node> -> string,
                                           b: seq<string>)
    requires b in Outputs(abs, greek, fmt, text)
    ensures exists ls :: b == PapyrserUtils.NonEmpty(FinishAll(ls, greek, fmt))
  {
    var init, last := abs[..|abs| - 1], abs[|abs| - 1];
    if b in Outputs(init, greek, fmt, text) {
      OutputsFinished(init, greek, fmt, text, b);
    } else {
      var ls := BlockLines(last, fmt, text).value;
      assert b == PapyrserUtils.NonEmpty(FinishAll(ls, greek, fmt));
    }
  }

  /** A non-empty finished line is a formatted, non-empty line as `validate_line` returns it. */
  lemma FinishedLine(ls: seq<string>, greek: bool, fmt: string -> string, l: string)
    requires l in PapyrserUtils.NonEmpty(FinishAll(ls, greek, fmt))
    ensures l != "" && exists x :: fmt(x) != "" && l == Validated(fmt(x), greek)
  {
    var k :| 0 <= k < |PapyrserUtils.NonEmpty(FinishAll(ls, greek, fmt))| && PapyrserUtils.NonEmpty(FinishAll(ls, greek, fmt))[k] == l;
    var j :| 0 <= j < |ls| && FinishAll(ls, greek, fmt)[j] == l;
    assert fmt(ls[j]) != "" && l == Validated(fmt(ls[j]), greek);
  }

  /**
   * The result of `convert_to_d5` holds no empty block and no empty line,
   * and every line of it was formatted by `format_line` and then passed
   * through `validate_line`.
   */
  lemma D5Lines(doc: Transformer.Node, greek: bool, fmt: string -> string, text: seq<Transformer.Node> -> string)
    ensures forall b | b in D5(doc, greek, fmt, text) ::
      b != [] && forall l | l in b :: l != "" && exists x :: fmt(x) != "" && l == Validated(fmt(x), greek)
  {
    forall b | b in D5(doc, greek, fmt, text)
      ensures b != [] && forall l | l in b :: l != "" && exists x :: fmt(x) != "" && l == Validated(fmt(x), greek)
    {
      OutputsFinished(Abs(doc), greek, fmt, text, b);
      var ls :| b == PapyrserUtils.NonEmpty(FinishAll(ls, greek, fmt));
      forall l | l in b
        ensures l != "" && exists x :: fmt(x) != "" && l == Validated(fmt(x), greek)
      {
        FinishedLine(ls, greek, fmt, l);
      }
    }
  }

  /** In a Greek-only document no line of the result holds a Latin look-alike left to correct. */
  lemma D5GreekClean(doc: Transformer.Node, fmt: string -> string, text: seq<Transformer.Node> -> string)
    ensures forall b, l | b in D5(doc, true, fmt, text) && l in b :: Format.Fixes(Format.Forbidden(l)) == []
  {
    D5Lines(doc, true, fmt, text);
    forall b, l | b in D5(doc, true, fmt, text) && l in b
      ensures Format.Fixes(Format.Forbidden(l)) == []
    {
      var x :| fmt(x) != "" && l == Validated(fmt(x), true);
      ValidatedProps(fmt(x), true);
    }
  }

  /** Outside a Greek-only document every line of the result is a line as `format_line` returns it. */
  lemma D5Unchanged(doc: Transformer.Node, fmt: string -> string, text: seq<Transformer.Node> -> string)
    ensures forall b, l | b in D5(doc, false, fmt, text) && l in b :: exists x :: l == fmt(x)
  {
    D5Lines(doc, false, fmt, text);
    forall b, l | b in D5(doc, false, fmt, text) && l in b
      ensures exists x :: l == fmt(x)
    {
      var x :| fmt(x) != "" && l == Validated(fmt(x), false);
      assert l == fmt(x);
    }
  }

  /** One more line through the last loop of `convert_to_d5`. */
  lemma FinishStep(xs: seq<string>, i: nat, greek: bool, fmt: string -> string)
    requires i < |xs|
    ensures (FinishAll(xs[..i], greek, fmt) + xs[i..])[i := Finish(xs[i], greek, fmt)]
         == FinishAll(xs[..i + 1], greek, fmt) + xs[i + 1..]
  {
    assert xs[..i + 1][..i] == xs[..i];
  }

  /** One more line through the last loop of `convert_to_d5`, as the formatter sees it. */
  lemma TraceStep(t: Trace, xs: seq<string>, i: nat, greek: bool, fmt: string -> string)
    requires i < |xs|
    ensures TraceAfter(t, xs[..i + 1], greek, fmt)
         == if fmt(xs[i]) == "" then TraceAfter(t, xs[..i], greek, fmt)
            else ValidateStep(TraceAfter(t, xs[..i], greek, fmt), fmt(xs[i]), greek)
  {
    assert xs[..i + 1][..i] == xs[..i];
  }

  /** One more `ab` through the loop of `convert_to_d5`: its block is appended and its lines go through the formatter. */
  lemma PartStep(abs: seq<Transformer.Node>, i: nat, greek: bool, fmt: string -> string, text: seq<Transformer.Node> -> string,
                 t0: Trace, out: seq<seq<string>>, block: seq<seq<string>>, before: Trace, after: Trace)
    requires i < |abs|
    requires out == Outputs(abs[..i], greek, fmt, text) && block == BlockOutput(abs[i], greek, fmt, text)
    requires before == TraceAfter(t0, AllLines(abs[..i], fmt, text), greek, fmt)
    requires after == TraceAfter(before, LinesOf(abs[i], fmt, text), greek, fmt)
    ensures out + block == Outputs(abs[..i + 1], greek, fmt, text)
    ensures after == TraceAfter(t0, AllLines(abs[..i + 1], fmt, text), greek, fmt)
  {
    assert abs[..i + 1][..i] == abs[..i];
    TraceAfterAppend(t0, AllLines(abs[..i], fmt, text), LinesOf(abs[i], fmt, text), greek, fmt);
  }

  /** The converter: a `Formatter` whose state carries over from one document to the next. */
  class TEIParser {
    const formatter: Format.Formatter
    /** The text of the siblings after an `lb`, as the sibling loop gathers it. */
    const blockText: seq<Transformer.Node> -> string

    constructor ()
      ensures fresh(formatter)
      ensures formatter.errorLog == [] && formatter.changes == [] && formatter.langs == []
      ensures formatter.formatLine == LineFormat.FormatLine
      ensures blockText == Transformer.BlockTextOf
    {
      formatter := new Format.Formatter();
      blockText := Transformer.BlockTextOf;
    }

    /**
     * `insert_lines`: strip the markers of every line and record each text
     * with the index it is aimed at, then insert the texts.
     */
    method InsertLines(lineText: seq<string>) returns (result: seq<string>)
      ensures result == Expand(lineText, formatter.formatLine)
      ensures |result| == |lineText| + TotalCarried(lineText)
    {
      var lines, insertions := RecordInsertions(lineText);
      TargetsInRange(lineText, 0);
      result := InsertRecorded(lines, insertions, formatter.formatLine);
      InsertAllExpands(lineText, formatter.formatLine);
      ExpandLength(lineText, formatter.formatLine);
    }

    /** One turn of the last loop of `convert_to_d5`: the line is formatted, then validated unless it came out empty. */
    method CheckLine(x: string) returns (y: string)
      modifies formatter
      ensures formatter.langs == old(formatter.langs)
      ensures y == Finish(x, old(formatter.GreekOnly()), formatter.formatLine)
      ensures Trace(formatter.errorLog, formatter.changes)
           == if formatter.formatLine(x) == "" then old(Trace(formatter.errorLog, formatter.changes))
              else ValidateStep(old(Trace(formatter.errorLog, formatter.changes)), formatter.formatLine(x),
                                old(formatter.GreekOnly()))
    {
      y := formatter.formatLine(x);
      if y != "" {
        y := formatter.ValidateLine(y);
      }
    }

    /**
     * The last loop of `convert_to_d5` over the lines of one block: each is
     * formatted in place, the non-empty ones are validated in place, and the
     * empty ones are then dropped.
     */
    method CheckLines(lineText: seq<string>) returns (out: seq<string>)
      modifies formatter
      ensures formatter.langs == old(formatter.langs)
      ensures out == PapyrserUtils.NonEmpty(FinishAll(lineText, old(formatter.GreekOnly()), formatter.formatLine))
      ensures Trace(formatter.errorLog, formatter.changes)
           == TraceAfter(old(Trace(formatter.errorLog, formatter.changes)), lineText, old(formatter.GreekOnly()),
                         formatter.formatLine)
    {
      ghost var greek := formatter.GreekOnly();
      ghost var t0 := Trace(formatter.errorLog, formatter.changes);
      var lines := lineText;
      var i := 0;
      while i < |lines|
        invariant 0 <= i <= |lines| == |lineText|
        invariant lines == FinishAll(lineText[..i], greek, formatter.formatLine) + lineText[i..]
        invariant formatter.langs == old(formatter.langs)
        invariant Trace(formatter.errorLog, formatter.changes) == TraceAfter(t0, lineText[..i], greek, formatter.formatLine)
      {
        FinishStep(lineText, i, greek, formatter.formatLine);
        TraceStep(t0, lineText, i, greek, formatter.formatLine);
        var v := CheckLine(lines[i]);
        lines := lines[i := v];
        i := i + 1;
      }
      assert lineText[..i] == lineText;
      assert lines == FinishAll(lineText, greek, formatter.formatLine);
      out := PapyrserUtils.NonEmpty(lines);
    }

    /**
     * The body of the loop of `convert_to_d5` for one `ab`: nothing when it
     * holds no `lb`, otherwise the block of its checked lines. The text of
     * the siblings after the `lb` is `blockText`, the text the sibling loop
     * `Transformer.WalkSiblings` gathers.
     */
    method ConvertPart(ab: Transformer.Node) returns (block: seq<seq<string>>)
      modifies formatter
      ensures formatter.langs == old(formatter.langs)
      ensures block == BlockOutput(ab, old(formatter.GreekOnly()), formatter.formatLine, blockText)
      ensures Trace(formatter.errorLog, formatter.changes)
           == TraceAfter(old(Trace(formatter.errorLog, formatter.changes)), LinesOf(ab, formatter.formatLine, blockText),
                         old(formatter.GreekOnly()), formatter.formatLine)
    {
      var found := Transformer.FirstLbSiblings(ab);
      if found.None? {
        return [];
      }
      var lineText := Lines(blockText(found.value));
      lineText := InsertLines(lineText);
      assert BlockLines(ab, formatter.formatLine, blockText) == Some(lineText);
      var lines := CheckLines(lineText);
      block := [lines];
    }

    /** The loop of `convert_to_d5` over the `ab` elements, collecting one block per `ab` that holds an `lb`. */
    method ConvertParts(textParts: seq<Transformer.Node>) returns (out: seq<seq<string>>)
      modifies formatter
      ensures formatter.langs == old(formatter.langs)
      ensures out == Outputs(textParts, old(formatter.GreekOnly()), formatter.formatLine, blockText)
      ensures Trace(formatter.errorLog, formatter.changes)
           == TraceAfter(old(Trace(formatter.errorLog, formatter.changes)), AllLines(textParts, formatter.formatLine, blockText),
                         old(formatter.GreekOnly()), formatter.formatLine)
    {
      ghost var greek := formatter.GreekOnly();
      ghost var t0 := Trace(formatter.errorLog, formatter.changes);
      ghost var fmt, text := formatter.formatLine, blockText;
      out := [];
      var i := 0;
      while i < |textParts|
        invariant 0 <= i <= |textParts|
        invariant formatter.langs == old(formatter.langs)
        invariant out == Outputs(textParts[..i], greek, fmt, text)
        invariant Trace(formatter.errorLog, formatter.changes) == TraceAfter(t0, AllLines(textParts[..i], fmt, text), greek, fmt)
      {
        ghost var before := Trace(formatter.errorLog, formatter.changes);
        var block := ConvertPart(textParts[i]);
        PartStep(textParts, i, greek, fmt, text, t0, out, block, before, Trace(formatter.errorLog, formatter.changes));
        out := out + block;
        i := i + 1;
      }
      assert textParts[..i] == textParts;
    }

    /**
     * `convert_to_d5` on a parsed document: the languages are collected,
     * then every `ab` holding an `lb` gives the lines after that `lb`, split,
     * expanded by `insert_lines`, formatted and validated; empty blocks are
     * dropped.
     */
    method ConvertToD5(doc: Transformer.Node) returns (output: seq<seq<string>>)
      requires Converts(doc)
      modifies formatter
      ensures forall v :: v in formatter.langs <==> v in old(formatter.langs) || v in Format.LangValues(AttrsOf(Elements(doc)))
      ensures Format.NoDuplicates(formatter.langs)
      ensures output == D5(doc, formatter.GreekOnly(), formatter.formatLine, blockText)
      ensures Trace(formatter.errorLog, formatter.changes)
           == TraceAfter(old(Trace(formatter.errorLog, formatter.changes)), AllLines(Abs(doc), formatter.formatLine, blockText),
                         formatter.GreekOnly(), formatter.formatLine)
    {
      formatter.GetLanguages(AttrsOf(Elements(doc)));
      var textParts := Abs(doc);
      var out := ConvertParts(textParts);
      output := NonEmptyBlocks(out);
    }
  }
}
