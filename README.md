# PAPYRSER core in Dafny

PAPYRSER converts TEI/EpiDoc XML editions of Greek papyri into plain
transcription lines in the D5 convention: one list of lines per `<ab>` text
part, in standardized Greek majuscules. Editorial markup is rendered as
bracket groups and signs:

- `[---]` for a lost stretch;
- `---` for illegible letters;
- `[?]` for a stretch of unknown extent;
- arrows for additions;
- combining marks for highlighting and unclear letters;
- single symbols for abbreviations and glyphs.

This project models that core as Dafny:

- **strings.dfy** (`Strings`): the parts of Python's `str` the core relies on: `replace`, `strip`, `isspace`, `count` and integer literals.
- **majuscule.dfy** (`Majuscule`, `PapyrserUtils`, `Util`): `convert_to_standardized_majuscule` and its two copies of the translation table. It is modelled as a translation table followed by deletion of a character class. `handle_multiple_tms` is also here.
- **tags.dfy** (`Tags`): the element renderers of `TEIParser`:
  - `gap`, `space`, `supplied`, `milestone`, `ex`, `add`, `gtype`, `hi`;
  - `add_char_to_each_letter`.
- **transformer.dfy** (`Transformer`):
  - an XML element tree;
  - the mutually recursive `parse_contents` / `transform` dispatcher;
  - the sibling walk of `convert_to_d5`.
- **brackets.dfy** (`Brackets`): a line read as tokens, which are dash groups `[-…]`, unknown groups `[?]` and single characters. It covers:
  - the group rewrites of `format_line`, stated on tokens;
  - the merge loop as the source writes it.
- **format.dfy** (`LineFormat`): `Formatter.format_line` as written (`FormatLine`, used by the pipeline). Beside it is the same formatter with the merge of dash groups as intended (`FormatLineCorrected`, see Findings).
- **formatter.dfy** (`Format`): the `Formatter` class. Its fields `error_log`, `changes` and `langs` are updated in place by `validate_line` and `get_languages`. The module also holds the character classes and the two line patterns of `validate_line`.
- **parser.dfy** (`Parser`): the `TEIParser` class:
  - `insert_lines`, proved against a block-by-block specification;
  - `convert_to_d5`, with the per-line format/validate pipeline, proved against a functional specification.

Regular expressions are not modelled generically. Each pattern the source uses is written out as the function it computes, including Python's `$`, which also matches before a final newline. Python's `round` (half to even) is `Tags.RoundedMean`.

## Model

| member | source | states |
|---|---|---|
| Strings.ReplaceOnce | parser.py:291 | `str.replace` of a pattern whose first character occurs nowhere else removes exactly that one occurrence |
| PapyrserUtils.TableWellFormed | papyrser_utils/utils.py:12-13 | the two literals of the translation table have equal length, so `str.maketrans` accepts them |
| PapyrserUtils.TableDisjoint | papyrser_utils/utils.py:12-13 | no character the table produces is itself translated or deleted |
| PapyrserUtils.ConvertToStandardizedMajuscule | papyrser_utils/utils.py:38-46 | the result is no longer than the input. It holds no character of the deleted class. Every character is a standardized majuscule or an input character the table does not translate |
| PapyrserUtils.ConvertIdempotent | papyrser_utils/utils.py:38-46 | converting twice gives the same as converting once |
| PapyrserUtils.ConvertMajuscules | papyrser_utils/utils.py:38-46 | text already in standardized majuscules is returned unchanged |
| PapyrserUtils.ConvertKeepsOthers | papyrser_utils/utils.py:38-46 | characters the table neither translates nor deletes survive in their original order |
| Majuscule.TranslatePositional | papyrser_utils/utils.py:44-45 | `str.maketrans`/`translate` maps a key to the output at its last position in the key string |
| Majuscule.UntouchedInOrder | papyrser_utils/utils.py:44-46 | translation followed by deletion keeps every untouched character in order |
| Majuscule.Idempotent | papyrser_utils/utils.py:44-46 | for a table whose outputs are neither keys nor deleted, translate-then-delete is idempotent |
| Util.ConvertToStandardizedMajuscule | util.py:41-49 | the copy in `util` computes the same function as the one in `papyrser_utils` |
| PapyrserUtils.NonEmptyMembers | papyrser_utils/utils.py:66 | the comprehension `[s for s in unique_list if s]` keeps exactly the entries that are not empty |
| PapyrserUtils.NonEmptyAppend | papyrser_utils/utils.py:66 | filtering a concatenation is the concatenation of the filtered parts, so the order of the entries is kept |
| PapyrserUtils.HandleMultipleTms | papyrser_utils/utils.py:64-72 | the result is None exactly when a non-empty entry is not an integer literal. Otherwise there is one record per non-empty entry, in order, with its integer value and the path |
| Tags.RoundedMean | parser.py:337 | the mean of two bounds rounded half to even, as Python's `round` does |
| Tags.RoundedMeanUnique | parser.py:337 | that rounding has only one possible result |
| Tags.Gap | parser.py:321-354 | defined whenever the values `int()` reads on the branch taken are integer literals. The result consists of gap marks only. A missing `unit` or `reason` gives `[?]`. Lines lost give nothing |
| Tags.GapQuantity | parser.py:331-342 | with `quantity`, the result holds exactly that many dashes. Illegible letters are bare dashes; otherwise the dashes are bracketed |
| Tags.GapBounds | parser.py:335-349 | with `atLeast`/`atMost`, the dash count is their rounded mean |
| Tags.GapIllegibleUnknown | parser.py:338-339 | illegible letters of no known extent give `[?]` |
| Tags.Space | parser.py:356-376 | defined whenever the values `int()` reads on the branch taken are integer literals. The result consists of blanks and `?` only. Line units give nothing. `quantity` gives that many blanks. A missing `unit` gives ` ? ` |
| Tags.Supplied | parser.py:378-401 | an omitted supplement gives nothing. Otherwise the result is nothing or a bracketed dash run as long as the non-blank text |
| Tags.SuppliedHidesLetters | parser.py:378-401 | no letter of the supplied text reaches the output |
| Tags.SuppliedCount | parser.py:388-399 | non-blank supplied text gives `[` + one dash per non-blank character + `]` |
| Tags.Milestone | parser.py:403-426 | the result is a line break plus one mark exactly when `rend` is a known milestone; otherwise it is nothing |
| Tags.Ex | parser.py:428-522 | the result is always one symbol. It is the unknown-abbreviation sign exactly when the first five letters are not in the table |
| Tags.ExPrefix | parser.py:434 | only the first five letters of the expansion matter |
| Tags.Add | parser.py:524-558 | the placement rules of an addition: above, left and interlinear go between `<` marks and below and right between `>` marks, each after its arrow; a single letter above stays inline; margin, bottom and top leave one arrow; an unknown place keeps the text inline |
| Tags.GType | parser.py:560-652 | the result is empty exactly when `type` is not in the glyph table. Otherwise it is at most three characters |
| Tags.AddCharToEachLetter | parser.py:308-319 | the loop's result equals the specification `EachLetterMarked` |
| Tags.EachLetterMarkedAt | parser.py:316-319 | letter i sits at position i·(k+1), followed by the k-character mark |
| Tags.Hi | parser.py:654-683 | the single-mark renderings append one combining mark. The underline and supraline renderings mark every letter. An unknown `rend` keeps the text |
| Tags.HiKeepsText | parser.py:654-683 | every letter of the text is still present, at its computed position, after highlighting |
| Transformer.ParseContents | parser.py:130-160 | the output of `parse_contents` for any element other than `space` holds no blank |
| Transformer.ParseContentsSpaces | parser.py:146-160 | a blank survives only in the output of a `space` element without children |
| Transformer.Transform | parser.py:162-277 | no postcondition of its own: the dispatch on the element name, whose per-element behaviour is stated by the lemma rows below (see Left out) |
| Transformer.RegGivesNothing | parser.py:139-141 | a regularised reading, or anything directly inside one, gives nothing, and is sound whatever it holds, because the walk does not look into it |
| Transformer.RdgGivesNothing | parser.py:142-144 | a variant reading, or a deletion at the top level, gives nothing, and is sound whatever it holds |
| Transformer.LbIsNewline | parser.py:173-174 | a line break element is sound and becomes a newline |
| Transformer.UnknownTransform | parser.py:276-277 | an element `transform` does not know can be transformed whatever it holds, and gives nothing |
| Transformer.SilentGivesNothing | parser.py:155-277 | elements that render nothing, with only text inside, are sound and give nothing |
| Transformer.SuppliedShowsNoLetters | parser.py:179-187 | a `supplied` element renders as brackets and dashes only |
| Transformer.HiMarksText | parser.py:256-273 | a `hi` with a `rend` and no `hi` or `gap` child can be transformed, and marks its own converted text as its `rend` says |
| Transformer.NestedHi | parser.py:259-266 | nested `hi` with content can be transformed, and gives the inner text followed by the outer mark and then the inner mark |
| Transformer.HiOverGap | parser.py:269-271 | `hi` around a well-formed `gap` can be transformed and marks the rendered gap |
| Transformer.ExpanOfEx | parser.py:192-206 | an `expan` holding only an `ex` can be transformed and becomes that abbreviation's symbol |
| Transformer.WalkSiblings | parser.py:96-117 | the sibling loop's text equals the specification `BlockText` |
| Transformer.BlockSpaces | parser.py:99-117 | a block's text holds a blank only when some sibling is a childless `space` |
| Brackets.RenderTokenize | papyrser_core/format.py:38-58 | reading a line as tokens and writing it back gives the line |
| Brackets.TokenizeRender | papyrser_core/format.py:38-58 | tokens without merged marks survive writing and re-reading |
| Brackets.CollapseLeading | papyrser_core/format.py:46 | leading groups become a single `]`, and the rest is kept |
| Brackets.CollapseTrailing | papyrser_core/format.py:48 | trailing groups, also before a final newline, become a single `[` |
| Brackets.MergeDashRuns | papyrser_core/format.py:49-54 | the intended merge: no two dash groups are left side by side, and splitting groups into single dashes gives the same sequence as before |
| Brackets.MergedUnique | papyrser_core/format.py:49-54 | that merge has exactly one possible result |
| Brackets.AbsorbIntoUnknown | papyrser_core/format.py:56 | absorbing only removes tokens: the line never grows |
| Brackets.AbsorbLeavesNoDashBeside | papyrser_core/format.py:56 | after absorbing, no dash group stands beside a `[?]` |
| Brackets.AbsorbKeepsNonDash | papyrser_core/format.py:56 | absorbing removes only dash groups |
| Brackets.CollapseUnknownRuns | papyrser_core/format.py:58 | no two `[?]` stay adjacent. Everything else keeps its order. `[?]` is present exactly when it was before |
| Brackets.CollapseUnknownSettles | papyrser_core/format.py:56-58 | after the last two rewrites the line is settled: no adjacent dash groups, no dash beside `[?]`, and no adjacent `[?]` |
| Brackets.ReplaceRunsFrom | papyrser_core/format.py:50-54 | the replace loop as written brings in no character other than brackets and dashes |
| Brackets.MergeLoopAsWritten | papyrser_core/format.py:50-54 | the loop as written computes `MergeAsWritten`: find the runs, then replace each with `str.replace` |
| Brackets.MergeAsWrittenCounterexample | papyrser_core/format.py:50-54 | on `[-][-]Α[-][-][-]` the loop as written leaves `[--]Α[--][-]` |
| Brackets.MergeCorrectedOnSample | papyrser_core/format.py:50-54 | the intended merge gives `[--]Α[---]` on that line |
| LineFormat.CleanLeavesBlank | papyrser_core/format.py:32-36 | the clean-up is not idempotent: `?  Α` cleans to ` Α`, which a second clean-up turns into `Α` |
| LineFormat.CleanKeeps | papyrser_core/format.py:32-36 | a line without the invisible mark and without blanks or `?` at its ends is not changed by the clean-up |
| LineFormat.DroppedLine | papyrser_core/format.py:38-42 | a cleaned line of brackets, dashes and `?` only, in which every dash belongs to a dash group, formats to nothing |
| LineFormat.GroupsOnlyDropped | papyrser_core/format.py:38-42 | a line made of groups only formats to nothing |
| LineFormat.BracketsOnlyDropped | papyrser_core/format.py:38-42 | a line of brackets and `?` without dashes formats to nothing |
| LineFormat.EmptyLineDropped | papyrser_core/format.py:32 | a line holding only U+2069 formats to nothing |
| LineFormat.EmptyBracketsDropped | papyrser_core/format.py:38-44 | `[]` formats to nothing |
| LineFormat.FullGapDropped | papyrser_core/format.py:38-42 | `[------]` formats to nothing |
| LineFormat.BareDashesKept | papyrser_core/format.py:38-62 | the other half of the gap-only rule: a line of bare dashes (illegible letters) passes the gap test but keeps a dash outside every dash group, so both `FormatLine` and `FormatLineCorrected` return it unchanged |
| LineFormat.GapBeforeNewlineDropped | papyrser_core/format.py:36-42 | `[-]`, a newline and ` ?` formats to nothing: the vacat goes, and the gap test's `$` also matches before the final newline |
| LineFormat.FormatTokensSettled | papyrser_core/format.py:46-58 | with the merge as intended (`FormatTokens`, used by `FormatLineCorrected`), the group rewrites always leave a settled line: no two dash groups, no dash group beside `[?]` and no two `[?]` side by side. The merge as written does not promise this (Findings) |
| LineFormat.RewrittenFrom | papyrser_core/format.py:44-58 | the group rewrites as written, merge loop included, bring in no character other than the group marks |
| LineFormat.FormatLine | papyrser_core/format.py:22-65 | `format_line` as written: every character of the result is a bracket mark or the capital of an input character other than U+2069, so nothing is invented |
| LineFormat.FormatLineCorrected | papyrser_core/format.py:22-65 | the same promise for the formatter with the merge as intended |
| LineFormat.FormatLineClean | papyrser_core/format.py:31-62 | the result holds no U+2069 and no small Latin letter |
| LineFormat.FormatLineSingleAbbreviationSign | papyrser_core/format.py:59-62 | no two unknown-abbreviation signs stay adjacent, even after capitalisation |
| LineFormat.UpperIdempotent | papyrser_core/format.py:62 | capitalising twice is capitalising once |
| LineFormat.UpperChanges | papyrser_core/format.py:62 | capitalising changes only small Latin and Greek letters, the small digamma, stigma and lunate sigma, and the four glyph signs, and never leaves a small Latin letter |
| LineFormat.PlainLineCapitalised | papyrser_core/format.py:31-62 | a line without group marks, the invisible mark or the unknown-abbreviation sign, with no blank at either end, is only put in capitals |
| LineFormat.CombineSample | papyrser_core/format.py:49-54 | `Α[---][----]Β` becomes `Α[-------]Β` (the samples use the intended merge, which agrees with the loop on them) |
| LineFormat.AbsorbSample | papyrser_core/format.py:56 | `Α[---][--][?]Β` becomes `Α[?]Β` |
| LineFormat.UnknownRunSample | papyrser_core/format.py:58 | `Α[?][?]Β` becomes `Α[?]Β` |
| LineFormat.EdgeGroupsSample | papyrser_core/format.py:46-48 | `[?][----]Α[?][--]` becomes `]Α[` |
| LineFormat.UnknownRunLine | papyrser_core/format.py:22-65 | `format_line` itself on `x[?][?]y`, for any two characters at the ends that are not group marks, blanks, the invisible mark or the unknown-abbreviation sign, gives the capital of x, one `[?]` and the capital of y |
| Format.GreekLettersAreOutput | papyrser_core/format.py:104-108 | the Greek letters the patterns allow are exactly the characters of `greek_output` |
| Format.SpecialCharIsClass | papyrser_core/format.py:89-105 | the special characters are the union of the seven classes, except the backslash, which escapes inside the character class |
| Format.AllowedCharIsClass | papyrser_core/format.py:106 | an allowed character is a special character, a letter of `greek_output` or one of `[]-?` |
| Format.AllowedAscii | papyrser_core/format.py:89-108 | the ASCII characters allowed are exactly `[]-?'*%/~N:`, the vertical bar and the blank |
| Format.ShapeOkIff | papyrser_core/format.py:107-110 | the shape test equals a match of the first or second line pattern |
| Format.LineShapeOkIff | papyrser_core/format.py:109-112 | the same holds for whole lines, including Python's `$` before a final newline |
| Format.Forbidden | papyrser_core/format.py:114-117 | the forbidden characters are exactly the characters of the line the allowed-character pattern rejects |
| Format.CorrectedPointwise | papyrser_core/format.py:129-138 | correction retypes exactly the forbidden Latin look-alikes and changes nothing else |
| Format.CorrectedClean | papyrser_core/format.py:129-145 | after correction there is nothing left to correct |
| Format.CorrectedIdempotent | papyrser_core/format.py:129-145 | correcting twice is correcting once |
| Format.CorrectedLeftovers | papyrser_core/format.py:129-145 | what stays forbidden after correction was forbidden before and is not a look-alike |
| Format.ShapeNoFixes | papyrser_core/format.py:112-145 | a line matching a pattern has nothing to correct |
| Format.DiagnoseNothing | papyrser_core/format.py:112-150 | nothing is logged exactly when a pattern matches and `[]` does not occur |
| Format.DiagnoseShape | papyrser_core/format.py:112-127 | for a line matching neither pattern: a forbidden-character entry when some character is not allowed, an invalid-gap entry when all are |
| Format.ChangeLogRecords | papyrser_core/format.py:130-142 | one change entry per corrected character. Each records a forbidden look-alike of the line and the Greek capital it became |
| Format.TypoLineCorrected | papyrser_core/format.py:129-145 | `ABEHIKMOPTXYZ` in a Greek-only document becomes `ΑΒΕΗΙΚΜΟΡΤΧΥΖ` |
| Format.TypoFixedClean | papyrser_core/format.py:112-150 | the corrected line logs nothing |
| Format.DigitsLineTwoEntries | papyrser_core/format.py:112-150 | `ΑΒΓΔΕΦ093[]` logs exactly two entries: forbidden `093` and `[]` |
| Format.CapitalsLeaveAllowed | papyrser_core/format.py:62 | the antisigma U+037B, the antisigma periestigmene U+037D and the Coptic small gamma U+2C85 are allowed by `validate_line`, and their capitals U+03FD, U+03FF and U+2C84 are not |
| Format.AntisigmaLineRejected | papyrser_core/format.py:62 | every character of `Α` + U+037B is allowed, yet `format_line` returns `Α` + U+03FD, for which `validate_line` logs exactly one forbidden-character entry |
| Format.CapitalsStayAllowed | papyrser_core/format.py:62 | with the glyph signs left as they are, capitalising never turns an allowed character into a forbidden one |
| Format.LangValues | papyrser_core/format.py:73-76 | the languages collected are the `xml:lang` values other than `en` |
| Format.CollectForbidden | papyrser_core/format.py:114-117 | the collecting loop computes `Forbidden` |
| Format.Formatter.constructor | papyrser_core/format.py:12-20 | the log, the changes and the languages start empty |
| Format.Formatter.CorrectLookAlikes | papyrser_core/format.py:129-142 | the line is corrected and the change log recorded. `error_log` is cleared when something is corrected |
| Format.Formatter.CheckShape | papyrser_core/format.py:111-142 | the first pass of `validate_line`: either a correction (log cleared) or the shape diagnostics appended |
| Format.Formatter.ValidateLine | papyrser_core/format.py:81-153 | in a Greek-only document with look-alikes: the corrected line is returned, the log holds only its diagnostics, and one change list is appended. Otherwise the line is returned unchanged and its diagnostics are appended. `langs` is unchanged |
| Format.Formatter.GetLanguages | papyrser_core/format.py:67-79 | `langs` becomes the old languages plus the document's non-`en` languages, without duplicates |
| Parser.Split | parser.py:119 | `str.split`: no piece holds the separator, and joining the pieces gives the text back |
| Parser.Lines | parser.py:119 | the lines kept are non-empty and hold no newline |
| Parser.Markers | parser.py:287-289 | the non-greedy `findall`: no marker holds its delimiter or a newline |
| Parser.MarkersOccur | parser.py:287-289 | every marker found occurs in the line between two delimiters |
| Parser.InsertAllExpands | parser.py:279-306 | recording and then inserting gives `Expand`: each line's `<` additions (in the order handled), then the line, then its `>` additions |
| Parser.ExpandLength | parser.py:279-306 | the result has one line per original line plus one per marker |
| Parser.TargetsInRange | parser.py:285-305 | every recorded target lies within the list, so `list.insert` never appends past the end |
| Parser.AddGoesToOwnLine | parser.py:279-306 | an addition placed by `add` (parser.py, lines 524 to 558) comes out on its own formatted line, above or below the line, which keeps only the arrow |
| Parser.RemoveMarkers | parser.py:290-295 | one inner loop removes the markers in turn and records them |
| Parser.StripLine | parser.py:286-295 | one line of the first loop yields the stripped line and its insertions |
| Parser.RecordInsertions | parser.py:285-295 | the first loop yields every stripped line and all insertions in order |
| Parser.InsertAtSlices | parser.py:301 | `list.insert`: the new entry lands at the index with the entries before it and after it unchanged, and goes at the end when the index is past the end |
| Parser.InsertRecorded | parser.py:296-305 | the second loop computes `InsertAll` |
| Parser.TEIParser.InsertLines | parser.py:279-306 | the result equals `Expand` of the input, with one extra line per marker |
| Parser.TEIParser.constructor | parser.py:15-23 | a fresh formatter with an empty log, changes and languages |
| Parser.ValidatedProps | papyrser_core/format.py:81-153 | validation keeps a line's length, and in a Greek-only document leaves no look-alike |
| Parser.MilestoneMarksValidated | parser.py:409-416 | of the five milestone marks only the diple obelismene's (U+2E10) is rejected by `validate_line`'s allowed characters, because papyrser_core/format.py:89 lists U+1F92 instead (Findings) |
| Parser.MilestoneMarksAllowedIntended | parser.py:409-416 | with U+2E10 in the milestone class, every mark `milestone` writes is allowed |
| Parser.TEIParser.CheckLine | parser.py:122-126 | an empty formatted line is skipped. Otherwise the line is validated and the formatter's state advances by one validation step |
| Parser.TEIParser.CheckLines | parser.py:122-127 | the lines of a block are finished, with empties dropped |
| Parser.TEIParser.ConvertPart | parser.py:90-127 | an `ab` without `lb` contributes nothing. Otherwise its text is split, expanded and finished |
| Parser.TEIParser.ConvertParts | parser.py:88-127 | `output` is the concatenation of the blocks, and the formatter has gone through every line in order |
| Parser.TEIParser.ConvertToD5 | parser.py:70-128 | for a document whose `ab` elements parse without an exception after their first `lb` (`Converts`; the header and skipped parts may hold anything): `langs` is collected first, the blocks follow as specified, and the returned list is that of `D5` |
| Parser.D5Lines | parser.py:119-128 | every returned block is non-empty. Every returned line is non-empty and is the validated result of formatting some line |
| Parser.D5GreekClean | parser.py:119-128 | in a Greek-only document no returned line holds a Latin look-alike |
| Parser.D5Unchanged | parser.py:119-128 | otherwise every returned line is a formatted line as it was |

## Left out

- File and network I/O, `IOHandler`, configuration, `debug_mode` logging and multiprocessing are not part of this model. The document is given as a tree.
- XML parsing: BeautifulSoup is not part of this model. The document is a `Node` tree of elements (name, attributes, children) and text. The model does not reparse `str(ab)`.
- Tags.Gap, Tags.Space: the values `int()` reads on the branch taken must be integer literals (`Tags.GapParses`, `Tags.SpaceParses`). A non-numeric one raises `ValueError` in the source, which nothing catches; the model requires literals instead of modelling the exception. Values the branch does not read may be anything.
- Strings.IsIntLiteral, PapyrserUtils.HandleMultipleTms: an optional sign followed by ASCII digits. Python's `int()` also accepts surrounding white space (`" 3"`), `_` between digits (`"1_0"`) and non-ASCII decimal digits. Gaps and spaces with such values are outside the model, and `HandleMultipleTms` returns None for a TM number such as `"1_0"` where the source reads it.
- Transformer.Sound: the conditions under which the walk raises no uncaught exception, checked only on the nodes the walk visits: integer literals for `gap` and `space`, `rend` on each `hi`, and `place` on each `add` of a `subst` up to the inline one (parser.py:234 reads it unguarded, and the `KeyError` is not caught). The model requires these instead of modelling the exceptions. Regularised and variant readings, top-level deletions, the header, the text before the first `lb` and the `hi` children the loop skips may hold anything.
- Tags.Hi: requires a `rend` attribute, because the source looks it up unguarded and a missing key raises `KeyError`.
- Transformer.HiFrom: a `hi` whose nested `hi` is empty but has a mark, such as `<hi rend="a"><hi rend="b"/></hi>`, makes the source return None, and its caller then fails on string concatenation. `Transformer.HiSound` rules that case out rather than modelling the `TypeError`.
- Tags.Add: without `place` the source returns `None`. Its caller would then fail on string concatenation; the model returns the empty string instead.
- LineFormat.UpperChar: `str.upper` is modelled only on the characters the lines carry: Latin a-z, Greek small letters, small digamma, stigma and lunate sigma, and the four glyph signs U+037B, U+037D, U+2C85 and U+2CAD. Other characters are their own capitals, which is weaker than full Unicode case mapping.
- LineFormat.FormatLine: the pipeline also capitalises the glyph signs as written (`UpperChar`), so lines carrying three of them are rejected by `validate_line` (Findings). `UpperKeepingSigns` is the intended capitalisation, proved to keep allowed characters allowed (`CapitalsStayAllowed`).
- Format.AllowedChar: the pipeline validates with the allowed characters as written, without U+2E10 (Findings). `AllowedCharIntended` is the class as intended, and only `MilestoneMarksAllowedIntended` uses it.
- Regular expressions are modelled pattern by pattern, not by a general regex engine.
- The idempotence of `format_line` is not stated, and it does not hold: a leading vacat followed by two blanks leaves a blank that only a second clean-up strips (`CleanLeavesBlank`). What is stated: capitalising is idempotent (`UpperIdempotent`), and the group rewrites with the intended merge leave a settled line (`FormatTokensSettled`).
- LineFormat.FormatLine: the pipeline (`Format.Formatter.constructor`, `Parser.TEIParser.constructor`) uses `format_line` as written, merge loop included. The settled shape is proved only for the corrected group rewrites (`FormatTokens`, inside `FormatLineCorrected`), because the loop as written can leave two dash groups side by side (Findings).
- Transformer.Transform: carries no contract of its own. What it gives per element is stated by lemmas (`LbIsNewline`, `UnknownTransform`, `SilentGivesNothing`, `SuppliedShowsNoLetters`, `HiMarksText`, `NestedHi`, `HiOverGap`, `ExpanOfEx`). A postcondition on the mutually recursive dispatch itself roughly doubles the cost of checking it, so its properties are lemmas instead.
- `langs` persists across documents, because the source never resets it. The model keeps that: `ConvertToD5` adds to the old languages.
- insert_lines: multiple `<…<` additions on one line end up in reverse document order, because the source reverses them before inserting each one at its own position. The model follows the code. `InsertAllExpands` states the resulting order.
- insert_lines: the `IndexError` handler is unreachable, because `list.insert` never raises and the targets stay within the list (`TargetsInRange`).

## Findings

| source | as written | input that shows it | evidently intended | confidence | as-written member | corrected member |
|---|---|---|---|---|---|---|
| papyrser_core/format.py:50-54 | each run of two or more dash groups is replaced with `str.replace`, so replacing a shorter run also rewrites the front of a longer run that starts the same way, and that longer run is then no longer found | `[-][-]Α[-][-][-]` becomes `[--]Α[--][-]` (inside a line such as `Α[-][-]Β[-][-][-]Γ`, which gives `Α[--]Β[--][-]Γ`) | every maximal run becomes one group with all of its dashes: `[--]Α[---]` | high (not executed) | Brackets.MergeAsWrittenCounterexample | Brackets.MergeCorrectedOnSample |
| papyrser_core/format.py:89 | the milestone class of `validate_line` lists U+1F92, a Greek small letter, and not U+2E10, which `milestone` writes for `rend="diple-obelismene"` (parser.py:414) | a line holding the mark from `<milestone rend="diple-obelismene"/>` is logged as holding the forbidden character U+2E10 | the milestone class holds every mark `milestone` writes | medium (not executed) | Parser.MilestoneMarksValidated | Parser.MilestoneMarksAllowedIntended |
| papyrser_core/format.py:62 | `line_text.upper()` also capitalises the glyph signs U+037B, U+037D and U+2C85, which `validate_line` (papyrser_core/format.py:89-99) allows, into U+03FD, U+03FF and U+2C84, which it does not allow | `Α` + U+037B (from `<g type="antisigma"/>`) formats to `Α` + U+03FD, and `validate_line` logs it as holding a forbidden character | only letters go into capitals; every character `validate_line` allows stays allowed | medium (not executed) | Format.AntisigmaLineRejected | Format.CapitalsStayAllowed |
