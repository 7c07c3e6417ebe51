/**
 * Majuscule normalisation: `str.translate` with a table built by
 * `str.maketrans(input, output)`, followed by `re.sub` deleting every character
 * of one character class. The functions are stated once over a `Table`; the
 * two source files that hold the literal alphabets instantiate it.
 */
module Majuscule {
  import opened Wrappers

  /**
   * The two arguments of `str.maketrans(input, output)` together with the
   * characters of the class that `re.sub` deletes afterwards.
   */
  datatype Table = Table(input: string, output: string, strip: set<char>)

  /** `str.maketrans` raises ValueError unless both strings have the same length. */
  predicate WellFormed(t: Table) {
    |t.input| == |t.output|
  }

  /** The last position of c in s, if any. */
  function LastIndex(s: string, c: char): (r: Option<nat>)
    ensures r.None? <==> c !in s
    ensures r.Some? ==> r.value < |s| && s[r.value] == c && forall j | r.value < j < |s| :: s[j] != c
  {
    if s == [] then None
    else if s[|s| - 1] == c then Some(|s| - 1)
    else
      assert s == s[..|s| - 1] + [s[|s| - 1]];
      LastIndex(s[..|s| - 1], c)
  }

  /**
   * One character through `str.translate`: a key of the table becomes the
   * character at the same position of `output` (for a key given twice,
   * `str.maketrans` keeps the later position); any other character is kept.
   */
  function TranslateChar(t: Table, c: char): (r: char)
    requires WellFormed(t)
    ensures c !in t.input ==> r == c
    ensures c in t.input ==> r in t.output
  {
    match LastIndex(t.input, c)
    case None => c
    case Some(i) => t.output[i]
  }

  /** `s.translate(str.maketrans(t.input, t.output))`. */
  function Translate(t: Table, s: string): (r: string)
    requires WellFormed(t)
    ensures |r| == |s|
    ensures forall i | 0 <= i < |s| :: r[i] == TranslateChar(t, s[i])
  {
    if s == [] then "" else [TranslateChar(t, s[0])] + Translate(t, s[1..])
  }

  /** `re.sub('[...]', '', s)` for a class of single characters. */
  function Delete(s: string, strip: set<char>): (r: string)
    ensures |r| <= |s|
    ensures forall i | 0 <= i < |r| :: r[i] !in strip && r[i] in s
  {
    if s == [] then ""
    else
      var rest := Delete(s[1..], strip);
      assert forall d | d in rest :: d in s;
      (if s[0] in strip then "" else [s[0]]) + rest
  }

  /** Translation followed by deletion, as in `convert_to_standardized_majuscule`. */
  function Normalize(t: Table, s: string): (r: string)
    requires WellFormed(t)
    ensures |r| <= |s|
    ensures forall i | 0 <= i < |r| :: r[i] !in t.strip
    ensures forall i | 0 <= i < |r| :: r[i] in t.output || (r[i] in s && r[i] !in t.input)
  {
    var u := Translate(t, s);
    var r := Delete(u, t.strip);
    assert forall i | 0 <= i < |r| :: r[i] in t.output || (r[i] in s && r[i] !in t.input) by {
      forall i | 0 <= i < |r|
        ensures r[i] in t.output || (r[i] in s && r[i] !in t.input)
      {
        var k :| 0 <= k < |u| && u[k] == r[i];
        assert u[k] == TranslateChar(t, s[k]);
      }
    }
    r
  }

  /** A character that the table neither translates, nor deletes, nor produces. */
  predicate Untouched(t: Table, c: char) {
    c !in t.input && c !in t.strip && c !in t.output
  }

  /** The untouched characters of s, in their order. */
  function UntouchedPart(t: Table, s: string): (r: string)
    ensures forall i | 0 <= i < |r| :: Untouched(t, r[i])
  {
    if s == [] then "" else (if Untouched(t, s[0]) then [s[0]] else "") + UntouchedPart(t, s[1..])
  }

  lemma {:induction false} UntouchedPartAppend(t: Table, a: string, b: string)
    ensures UntouchedPart(t, a + b) == UntouchedPart(t, a) + UntouchedPart(t, b)
  {
    if a == [] {
      assert a + b == b;
    } else {
      assert (a + b)[1..] == a[1..] + b;
      UntouchedPartAppend(t, a[1..], b);
    }
  }

  /** Normalising loses no untouched character and does not reorder them. */
  lemma {:induction false} UntouchedInOrder(t: Table, s: string)
    requires WellFormed(t)
    ensures UntouchedPart(t, Normalize(t, s)) == UntouchedPart(t, s)
  {
    if s != [] {
      var c := TranslateChar(t, s[0]);
      assert Translate(t, s) == [c] + Translate(t, s[1..]);
      assert Delete(Translate(t, s), t.strip) == (if c in t.strip then "" else [c]) + Delete(Translate(t, s[1..]), t.strip);
      UntouchedPartAppend(t, if c in t.strip then "" else [c], Normalize(t, s[1..]));
      UntouchedInOrder(t, s[1..]);
      assert Untouched(t, c) <==> Untouched(t, s[0]);
    }
  }

  /** No character that normalising produces is a key of the table or deleted by it. */
  ghost predicate Disjoint(t: Table) {
    forall i | 0 <= i < |t.output| :: t.output[i] !in t.input && t.output[i] !in t.strip
  }

  /** A string made only of characters that are neither keys nor deleted is left as it is. */
  lemma {:induction false} FixedPoint(t: Table, s: string)
    requires WellFormed(t)
    requires forall i | 0 <= i < |s| :: s[i] !in t.input && s[i] !in t.strip
    ensures Normalize(t, s) == s
  {
    if s != [] {
      FixedPoint(t, s[1..]);
      assert Translate(t, s) == [s[0]] + Translate(t, s[1..]);
    }
  }

  /** Normalising twice is normalising once when the table is disjoint. */
  lemma Idempotent(t: Table, s: string)
    requires WellFormed(t) && Disjoint(t)
    ensures Normalize(t, Normalize(t, s)) == Normalize(t, s)
  {
    var r := Normalize(t, s);
    forall i | 0 <= i < |r| ensures r[i] !in t.input && r[i] !in t.strip {
      if r[i] in t.output {
        var k :| 0 <= k < |t.output| && t.output[k] == r[i];
      }
    }
    FixedPoint(t, r);
  }

  /** The positional reading of `str.maketrans`: a key that is not repeated later maps to the output at its own position. */
  lemma TranslatePositional(t: Table, i: nat)
    requires WellFormed(t) && i < |t.input|
    requires forall j | i < j < |t.input| :: t.input[j] != t.input[i]
    ensures TranslateChar(t, t.input[i]) == t.output[i]
  {
  }
}

/**
 * Module-level helpers of papyrser_utils/utils.py: the Greek majuscule normaliser
 * and `handle_multiple_tms`.
 */
module PapyrserUtils {
  import Majuscule
  import Strings
  import opened Wrappers

  // The literal `greek_input` of papyrser_utils/utils.py, in pieces of 32 characters.
  const GreekInputPart0: string := "ΌΏΎΊΉᾲᾀᾁᾂᾃᾅᾇέάΐήώίόύϝϛϋϊᾄᾆᾳᾴᾷαβγ"
  const GreekInputPart1: string := "δεζηθικλμνξοπρστυφχψωἀἄἂἆἁἅἃἇάὰᾶ"
  const GreekInputPart2: string := "ἐἔἒἑἕἓὲέἠἤἢἦἡἥἣἧὴήᾐᾑᾒᾓᾔᾕᾖᾗῂῃῄῆῇἰ"
  const GreekInputPart3: string := "ἴἲἶἱἵἳἷὶίῐῑῒΐῖῗὀὄὂὁὅὃὸόὐὑὒὓὔὕὖὗὺ"
  const GreekInputPart4: string := "ῦύῠῡῢΰῧὠὤὢὦὡὥὣὧώὼᾠᾡᾢᾣᾤᾥᾦᾧῲῳῴῶῷῤῥ"
  const GreekInputPart5: string := "ἈἌἊἎἉἍἋἏᾺΆᾼᾈᾉᾊᾋᾌᾍᾎᾏἘἜἚἙἝἛῈΈἨἬἪἮἩ"
  const GreekInputPart6: string := "ἭἫἯῊΉῌᾘᾙᾚᾛᾜᾝᾞᾟἸἼἺἾἹἽἻἿΊῚῘῙὈὌὊὉὍὋ"
  const GreekInputPart7: string := "ΌῸὙὝὛὟΎῪῨῩὨὬὪὮὩὭὫὯΏῺῼᾨᾩᾪᾫᾬᾭᾮᾯῬςϲ"
  const GreekInputPart8: string := "Ϲ"
  const GreekInput: string := GreekInputPart0 + GreekInputPart1 + GreekInputPart2 + GreekInputPart3 + GreekInputPart4 + GreekInputPart5 + GreekInputPart6 + GreekInputPart7 + GreekInputPart8

  // The literal `greek_output` of papyrser_utils/utils.py, in pieces of 32 characters.
  const GreekOutputPart0: string := "ΟΩΥΙΗΑΑΑΑΑΑΑΕΑΙΗΩΙΟΥϜϚΥΙΑΑΑΑΑΑΒΓ"
  const GreekOutputPart1: string := "ΔΕΖΗΘΙΚΛΜΝΞΟΠΡΣΤΥΦΧΨΩΑΑΑΑΑΑΑΑΑΑΑ"
  const GreekOutputPart2: string := "ΕΕΕΕΕΕΕΕΗΗΗΗΗΗΗΗΗΗΗΗΗΗΗΗΗΗΗΗΗΗΗΙ"
  const GreekOutputPart3: string := "ΙΙΙΙΙΙΙΙΙΙΙΙΙΙΙΟΟΟΟΟΟΟΟΥΥΥΥΥΥΥΥΥ"
  const GreekOutputPart4: string := "ΥΥΥΥΥΥΥΩΩΩΩΩΩΩΩΩΩΩΩΩΩΩΩΩΩΩΩΩΩΩΡΡ"
  const GreekOutputPart5: string := "ΑΑΑΑΑΑΑΑΑΑΑΑΑΑΑΑΑΑΑΕΕΕΕΕΕΕΕΗΗΗΗΗ"
  const GreekOutputPart6: string := "ΗΗΗΗΗΗΗΗΗΗΗΗΗΗΙΙΙΙΙΙΙΙΙΙΙΙΟΟΟΟΟΟ"
  const GreekOutputPart7: string := "ΟΟΥΥΥΥΥΥΥΥΩΩΩΩΩΩΩΩΩΩΩΩΩΩΩΩΩΩΩΡΣΣ"
  const GreekOutputPart8: string := "Σ"
  const GreekOutput: string := GreekOutputPart0 + GreekOutputPart1 + GreekOutputPart2 + GreekOutputPart3 + GreekOutputPart4 + GreekOutputPart5 + GreekOutputPart6 + GreekOutputPart7 + GreekOutputPart8

  /** The characters of the class that the final `re.sub` deletes. */
  const StripClass: set<char> :=
    {'\U{02BC}', '\U{2020}', '\U{2219}', '\U{00B7}', '\U{2022}', '{', '}', '(', ')', '\'', ',', ';', ':', '.', '-',
     '\U{23D1}', '\U{0306}', '\U{0342}', '\U{1FBD}', '\U{1FBF}', '\U{1FCE}', '\U{1FDE}', '\U{1FFE}', '`', '\U{0384}',
     '\U{201C}', '\U{201D}', '\U{2019}', '\U{0313}', '\U{02BD}', '\U{2018}', '\U{230A}', '\U{230B}', '\n', ' '}

  const Table := Majuscule.Table(GreekInput, GreekOutput, StripClass)

  /** The standardized majuscules: the capital Greek letters and the capital digamma and stigma. */
  predicate IsMajuscule(c: char) {
    ('\U{0391}' <= c <= '\U{03A9}') || c == '\U{03DA}' || c == '\U{03DC}'
  }

  predicate AllMajuscule(s: string) {
    forall i | 0 <= i < |s| :: IsMajuscule(s[i])
  }

  predicate NoneMajuscule(s: string) {
    forall i | 0 <= i < |s| :: !IsMajuscule(s[i])
  }

  lemma AllMajusculeConcat(a: string, b: string)
    requires AllMajuscule(a) && AllMajuscule(b)
    ensures AllMajuscule(a + b)
  {
    assert forall i | |a| <= i < |a + b| :: (a + b)[i] == b[i - |a|];
  }

  lemma NoneMajusculeConcat(a: string, b: string)
    requires NoneMajuscule(a) && NoneMajuscule(b)
    ensures NoneMajuscule(a + b)
  {
    assert forall i | |a| <= i < |a + b| :: (a + b)[i] == b[i - |a|];
  }

  // Each piece of the table is checked on its own; the pieces are then joined.
  lemma OutputPart0Checked() ensures AllMajuscule(GreekOutputPart0) {}
  lemma OutputPart1Checked() ensures AllMajuscule(GreekOutputPart1) {}
  lemma OutputPart2Checked() ensures AllMajuscule(GreekOutputPart2) {}
  lemma OutputPart3Checked() ensures AllMajuscule(GreekOutputPart3) {}
  lemma OutputPart4Checked() ensures AllMajuscule(GreekOutputPart4) {}
  lemma OutputPart5Checked() ensures AllMajuscule(GreekOutputPart5) {}
  lemma OutputPart6Checked() ensures AllMajuscule(GreekOutputPart6) {}
  lemma OutputPart7Checked() ensures AllMajuscule(GreekOutputPart7) {}
  lemma OutputPart8Checked() ensures AllMajuscule(GreekOutputPart8) {}
  lemma InputPart0Checked() ensures NoneMajuscule(GreekInputPart0) {}
  lemma InputPart1Checked() ensures NoneMajuscule(GreekInputPart1) {}
  lemma InputPart2Checked() ensures NoneMajuscule(GreekInputPart2) {}
  lemma InputPart3Checked() ensures NoneMajuscule(GreekInputPart3) {}
  lemma InputPart4Checked() ensures NoneMajuscule(GreekInputPart4) {}
  lemma InputPart5Checked() ensures NoneMajuscule(GreekInputPart5) {}
  lemma InputPart6Checked() ensures NoneMajuscule(GreekInputPart6) {}
  lemma InputPart7Checked() ensures NoneMajuscule(GreekInputPart7) {}
  lemma InputPart8Checked() ensures NoneMajuscule(GreekInputPart8) {}

  /** Every replacement character of the table is a standardized majuscule. */
  lemma OutputMajuscule()
    ensures AllMajuscule(GreekOutput)
  {
    OutputPart0Checked();
    OutputPart1Checked();
    OutputPart2Checked();
    OutputPart3Checked();
    OutputPart4Checked();
    OutputPart5Checked();
    OutputPart6Checked();
    OutputPart7Checked();
    OutputPart8Checked();
    AllMajusculeConcat(GreekOutputPart0, GreekOutputPart1);
    AllMajusculeConcat(GreekOutputPart0 + GreekOutputPart1, GreekOutputPart2);
    AllMajusculeConcat(GreekOutputPart0 + GreekOutputPart1 + GreekOutputPart2, GreekOutputPart3);
    AllMajusculeConcat(GreekOutputPart0 + GreekOutputPart1 + GreekOutputPart2 + GreekOutputPart3, GreekOutputPart4);
    AllMajusculeConcat(GreekOutputPart0 + GreekOutputPart1 + GreekOutputPart2 + GreekOutputPart3 + GreekOutputPart4, GreekOutputPart5);
    AllMajusculeConcat(GreekOutputPart0 + GreekOutputPart1 + GreekOutputPart2 + GreekOutputPart3 + GreekOutputPart4 + GreekOutputPart5, GreekOutputPart6);
    AllMajusculeConcat(GreekOutputPart0 + GreekOutputPart1 + GreekOutputPart2 + GreekOutputPart3 + GreekOutputPart4 + GreekOutputPart5 + GreekOutputPart6, GreekOutputPart7);
    AllMajusculeConcat(GreekOutputPart0 + GreekOutputPart1 + GreekOutputPart2 + GreekOutputPart3 + GreekOutputPart4 + GreekOutputPart5 + GreekOutputPart6 + GreekOutputPart7, GreekOutputPart8);
  }

  /** No character that the table translates is already a standardized majuscule. */
  lemma InputNotMajuscule()
    ensures NoneMajuscule(GreekInput)
  {
    InputPart0Checked();
    InputPart1Checked();
    InputPart2Checked();
    InputPart3Checked();
    InputPart4Checked();
    InputPart5Checked();
    InputPart6Checked();
    InputPart7Checked();
    InputPart8Checked();
    NoneMajusculeConcat(GreekInputPart0, GreekInputPart1);
    NoneMajusculeConcat(GreekInputPart0 + GreekInputPart1, GreekInputPart2);
    NoneMajusculeConcat(GreekInputPart0 + GreekInputPart1 + GreekInputPart2, GreekInputPart3);
    NoneMajusculeConcat(GreekInputPart0 + GreekInputPart1 + GreekInputPart2 + GreekInputPart3, GreekInputPart4);
    NoneMajusculeConcat(GreekInputPart0 + GreekInputPart1 + GreekInputPart2 + GreekInputPart3 + GreekInputPart4, GreekInputPart5);
    NoneMajusculeConcat(GreekInputPart0 + GreekInputPart1 + GreekInputPart2 + GreekInputPart3 + GreekInputPart4 + GreekInputPart5, GreekInputPart6);
    NoneMajusculeConcat(GreekInputPart0 + GreekInputPart1 + GreekInputPart2 + GreekInputPart3 + GreekInputPart4 + GreekInputPart5 + GreekInputPart6, GreekInputPart7);
    NoneMajusculeConcat(GreekInputPart0 + GreekInputPart1 + GreekInputPart2 + GreekInputPart3 + GreekInputPart4 + GreekInputPart5 + GreekInputPart6 + GreekInputPart7, GreekInputPart8);
  }

  /** `str.maketrans` accepts the two literals: they have the same length. */
  lemma TableWellFormed()
    ensures Majuscule.WellFormed(Table)
  {
    assert |GreekInput| == 257 == |GreekOutput|;
  }

  /** A majuscule is not among the characters of a string that holds none. */
  lemma MajusculeNotIn(c: char, s: string)
    requires IsMajuscule(c) && NoneMajuscule(s)
    ensures c !in s
  {
  }

  lemma DisjointByMajuscules(t: Majuscule.Table)
    requires AllMajuscule(t.output) && NoneMajuscule(t.input)
    requires forall c | c in t.strip :: !IsMajuscule(c)
    ensures Majuscule.Disjoint(t)
  {
    forall i | 0 <= i < |t.output| ensures t.output[i] !in t.input && t.output[i] !in t.strip {
      MajusculeNotIn(t.output[i], t.input);
    }
  }

  /** No majuscule is a key of the table or deleted by the character class. */
  lemma TableDisjoint()
    ensures Majuscule.Disjoint(Table)
  {
    OutputMajuscule();
    InputNotMajuscule();
    DisjointByMajuscules(Table);
  }

  /**
   * `convert_to_standardized_majuscule`: every character left is outside the
   * deleted class, and is a majuscule or a character of the input that the
   * table does not translate.
   */
  function ConvertToStandardizedMajuscule(s: string): (r: string)
    ensures |r| <= |s|
    ensures forall i | 0 <= i < |r| :: r[i] !in StripClass
    ensures forall i | 0 <= i < |r| :: IsMajuscule(r[i]) || (r[i] in s && r[i] !in GreekInput)
  {
    TableWellFormed();
    OutputMajuscule();
    Majuscule.Normalize(Table, s)
  }

  /** Converting a converted string changes nothing. */
  lemma ConvertIdempotent(s: string)
    ensures ConvertToStandardizedMajuscule(ConvertToStandardizedMajuscule(s)) == ConvertToStandardizedMajuscule(s)
  {
    TableWellFormed();
    TableDisjoint();
    Majuscule.Idempotent(Table, s);
  }

  /** A string of majuscules is its own standardized form. */
  lemma ConvertMajuscules(s: string)
    requires AllMajuscule(s)
    ensures ConvertToStandardizedMajuscule(s) == s
  {
    TableWellFormed();
    InputNotMajuscule();
    forall i | 0 <= i < |s| ensures s[i] !in GreekInput && s[i] !in StripClass {
      MajusculeNotIn(s[i], GreekInput);
    }
    Majuscule.FixedPoint(Table, s);
  }

  /** Characters the conversion neither maps, deletes nor produces survive in their original order. */
  lemma ConvertKeepsOthers(s: string)
    ensures Majuscule.UntouchedPart(Table, ConvertToStandardizedMajuscule(s)) == Majuscule.UntouchedPart(Table, s)
  {
    TableWellFormed();
    Majuscule.UntouchedInOrder(Table, s);
  }

  /** One entry of the index built by `handle_multiple_tms`. */
  datatype TmRecord = TmRecord(tm: int, path: string)

  /** The entries of the list that are not empty strings, in order. */
  function NonEmpty(l: seq<string>): (r: seq<string>)
    ensures |r| <= |l|
    ensures forall i | 0 <= i < |r| :: r[i] != "" && r[i] in l
  {
    if l == [] then [] else (if l[0] != "" then [l[0]] else []) + NonEmpty(l[1..])
  }

  /** The entries kept are exactly the non-empty ones. */
  lemma {:induction false} NonEmptyMembers(l: seq<string>)
    ensures forall x :: x in NonEmpty(l) <==> x in l && x != ""
  {
    if l != [] {
      NonEmptyMembers(l[1..]);
      assert l == [l[0]] + l[1..];
    }
  }

  /** Filtering a concatenation filters each part. */
  lemma {:induction false} NonEmptyAppend(a: seq<string>, b: seq<string>)
    ensures NonEmpty(a + b) == NonEmpty(a) + NonEmpty(b)
  {
    if a == [] {
      assert a + b == b;
    } else {
      assert (a + b)[1..] == a[1..] + b;
      NonEmptyAppend(a[1..], b);
    }
  }

  /**
   * `handle_multiple_tms`: one record per non-empty entry, in order, each
   * pairing the entry's integer value with the file path. `int()` raises
   * ValueError on an entry that is not an integer literal; None models that.
   */
  method HandleMultipleTms(uniqueList: seq<string>, xmlFilePath: string) returns (data: Option<seq<TmRecord>>)
    ensures data.None? <==> exists i | 0 <= i < |NonEmpty(uniqueList)| :: !Strings.IsIntLiteral(NonEmpty(uniqueList)[i])
    ensures data.Some? ==> |data.value| == |NonEmpty(uniqueList)|
    ensures data.Some? ==> forall i | 0 <= i < |data.value| ::
      data.value[i] == TmRecord(Strings.IntValue(NonEmpty(uniqueList)[i]), xmlFilePath)
  {
    var unique := NonEmpty(uniqueList);
    var out: seq<TmRecord> := [];
    var j := 0;
    while j < |unique|
      invariant 0 <= j <= |unique|
      invariant |out| == j
      invariant forall i | 0 <= i < j :: Strings.IsIntLiteral(unique[i])
      invariant forall i | 0 <= i < j :: out[i] == TmRecord(Strings.IntValue(unique[i]), xmlFilePath)
    {
      if !Strings.IsIntLiteral(unique[j]) {
        assert !Strings.IsIntLiteral(NonEmpty(uniqueList)[j]);
        return None;
      }
      out := out + [TmRecord(Strings.IntValue(unique[j]), xmlFilePath)];
      j := j + 1;
    }
    return Some(out);
  }
}

/**
 * The copy of `convert_to_standardized_majuscule` in util.py, which is the one
 * the parser imports.
 */
module Util {
  import Majuscule
  import PapyrserUtils

  // The literal `greek_input` of util.py, in pieces of 32 characters.
  const GreekInputPart0: string := "ΌΏΎΊΉᾲᾀᾁᾂᾃᾅᾇέάΐήώίόύϝϛϋϊᾄᾆᾳᾴᾷαβγ"
  const GreekInputPart1: string := "δεζηθικλμνξοπρστυφχψωἀἄἂἆἁἅἃἇάὰᾶ"
  const GreekInputPart2: string := "ἐἔἒἑἕἓὲέἠἤἢἦἡἥἣἧὴήᾐᾑᾒᾓᾔᾕᾖᾗῂῃῄῆῇἰ"
  const GreekInputPart3: string := "ἴἲἶἱἵἳἷὶίῐῑῒΐῖῗὀὄὂὁὅὃὸόὐὑὒὓὔὕὖὗὺ"
  const GreekInputPart4: string := "ῦύῠῡῢΰῧὠὤὢὦὡὥὣὧώὼᾠᾡᾢᾣᾤᾥᾦᾧῲῳῴῶῷῤῥ"
  const GreekInputPart5: string := "ἈἌἊἎἉἍἋἏᾺΆᾼᾈᾉᾊᾋᾌᾍᾎᾏἘἜἚἙἝἛῈΈἨἬἪἮἩ"
  const GreekInputPart6: string := "ἭἫἯῊΉῌᾘᾙᾚᾛᾜᾝᾞᾟἸἼἺἾἹἽἻἿΊῚῘῙὈὌὊὉὍὋ"
  const GreekInputPart7: string := "ΌῸὙὝὛὟΎῪῨῩὨὬὪὮὩὭὫὯΏῺῼᾨᾩᾪᾫᾬᾭᾮᾯῬςϲ"
  const GreekInputPart8: string := "Ϲ"
  const GreekInput: string := GreekInputPart0 + GreekInputPart1 + GreekInputPart2 + GreekInputPart3 + GreekInputPart4 + GreekInputPart5 + GreekInputPart6 + GreekInputPart7 + GreekInputPart8

  // The literal `greek_output` of util.py, in pieces of 32 characters.
  const GreekOutputPart0: string := "ΟΩΥΙΗΑΑΑΑΑΑΑΕΑΙΗΩΙΟΥϜϚΥΙΑΑΑΑΑΑΒΓ"
  const GreekOutputPart1: string := "ΔΕΖΗΘΙΚΛΜΝΞΟΠΡΣΤΥΦΧΨΩΑΑΑΑΑΑΑΑΑΑΑ"
  const GreekOutputPart2: string := "ΕΕΕΕΕΕΕΕΗΗΗΗΗΗΗΗΗΗΗΗΗΗΗΗΗΗΗΗΗΗΗΙ"
  const GreekOutputPart3: string := "ΙΙΙΙΙΙΙΙΙΙΙΙΙΙΙΟΟΟΟΟΟΟΟΥΥΥΥΥΥΥΥΥ"
  const GreekOutputPart4: string := "ΥΥΥΥΥΥΥΩΩΩΩΩΩΩΩΩΩΩΩΩΩΩΩΩΩΩΩΩΩΩΡΡ"
  const GreekOutputPart5: string := "ΑΑΑΑΑΑΑΑΑΑΑΑΑΑΑΑΑΑΑΕΕΕΕΕΕΕΕΗΗΗΗΗ"
  const GreekOutputPart6: string := "ΗΗΗΗΗΗΗΗΗΗΗΗΗΗΙΙΙΙΙΙΙΙΙΙΙΙΟΟΟΟΟΟ"
  const GreekOutputPart7: string := "ΟΟΥΥΥΥΥΥΥΥΩΩΩΩΩΩΩΩΩΩΩΩΩΩΩΩΩΩΩΡΣΣ"
  const GreekOutputPart8: string := "Σ"
  const GreekOutput: string := GreekOutputPart0 + GreekOutputPart1 + GreekOutputPart2 + GreekOutputPart3 + GreekOutputPart4 + GreekOutputPart5 + GreekOutputPart6 + GreekOutputPart7 + GreekOutputPart8

  /** The characters of the class that the final `re.sub` deletes. */
  const StripClass: set<char> :=
    {'\U{02BC}', '\U{2020}', '\U{2219}', '\U{00B7}', '\U{2022}', '{', '}', '(', ')', '\'', ',', ';', ':', '.', '-',
     '\U{23D1}', '\U{0306}', '\U{0342}', '\U{1FBD}', '\U{1FBF}', '\U{1FCE}', '\U{1FDE}', '\U{1FFE}', '`', '\U{0384}',
     '\U{201C}', '\U{201D}', '\U{2019}', '\U{0313}', '\U{02BD}', '\U{2018}', '\U{230A}', '\U{230B}', '\n', ' '}

  const Table := Majuscule.Table(GreekInput, GreekOutput, StripClass)

  /** The copy in util.py behaves exactly as the one in papyrser_utils/utils.py. */
  function ConvertToStandardizedMajuscule(s: string): (r: string)
    ensures r == PapyrserUtils.ConvertToStandardizedMajuscule(s)
  {
    assert Table == PapyrserUtils.Table;
    assert |GreekInput| == |GreekOutput|;
    Majuscule.Normalize(Table, s)
  }
}
