# Structured e-SNLI explanation patterns, modelled in Dafny

Structured-e-SNLI turns the free-text explanations of the e-SNLI corpus into structured
explanations: a relation symbol (`↔`, `→`, `⊆`, `⊈`, `⇒`, `⊕`, `⊉`) over two phrases, possibly
negated. The phrases may also be nested explanations. Each pattern class owns a trigger table that
maps a regular-expression key to an anchor word, plus a relationship and a negation flag. A call to
a pattern does four things in order:
- it finds the trigger spans in the parsed explanation;
- it extracts one explanation per span, reading the arguments off the dependency tree and
  grounding them in the highlighted words;
- it adds what the copula hook finds (classification patterns only);
- it folds everything into one left-nested conjunction.

The preprocessing helpers group the `*marked*` words of an annotated sentence into phrases. They
also map a set of word indices to words, and strip punctuation.

The model is split into these modules:
- `Wrappers`: `Option`, `Result` and the three exception kinds the matcher loop catches.
- `Strings`: the Python `str` operations the code relies on (`split`, `join`, `strip`, `lower`,
  `translate`, `int`, `find`).
- `Sorting`: a stable `sorted`.
- `Explanations`: `StructuredExplanation`, with its rendering, `__bool__`, `__eq__` and
  `concatenate_explanations` (patterns/abstract.py).
- `Documents`: the parsed document as a sequence of token records (text, whitespace, part of
  speech, dependency label, head, left children, children, subtree, sentence start, lemma).
  `Documents.JoinTexts` is `_token_to_text`.
- `Vocabulary`: the trigger tables, as the ordered list of their assignments; the inflected and
  negative generators; the `not` rewrites.
- `Matching`: `re.findall`/`re.finditer` over an alternation of literal keys, and dictionary key
  order.
- `Extraction`: the outcome of one extraction; the left and right scanners; grounding; trigger
  discovery (`_find_pattern_tokens`).
- `Families`: every `_generate_structured_explanation`, the "cannot be" discovery and the copula
  hook.
- `Patterns`: the pattern classes and `AbstractPattern.__call__`. Each matcher named after a class
  (`RephrasingPattern`, `NotRephrasingPattern`, `XorPattern` for `XORPattern`, and the rest) is
  that class as the code stands. `RephrasingPatternCorrected`, `NotRephrasingPatternCorrected` and
  `XorPatternCorrected` use the corrected extractions of the findings below.
- `Preprocessing`: the pure helpers of `ESNLIPreprocessor`. The grouping rule of
  `_extract_ordered_highlighted_phrases` is stated through runs: the matches whose highlight has
  text after cleaning split into runs, each started by the first of them or by one with more than
  whitespace before it, and each phrase is one run's highlights joined with spaces.

The spaCy analysis comes in as the token records of the document. The pyinflect analysis of a
trigger phrase is a `Lexicon` parameter. A family's outcome is an explanation, Python's `None`, or
one of the exceptions IndexError/StopIteration/ValueError. The loops of the source are methods
proved equal to the functions that specify them. Those functions carry the properties below.

## Model

| member | source | states |
|---|---|---|
| Explanations.SymbolInjective | patterns/abstract.py:29 | two relationships compare equal exactly when their symbols do |
| Explanations.LexLessTotal | patterns/abstract.py:37 | string `<` is a strict total order (one of `a == b`, `a < b`, `b < a`, never both `<`), as `sorted(key=str)` needs |
| Explanations.SortedByRendering | patterns/abstract.py:37 | sorting the predicates by their rendering is a permutation of them |
| Explanations.EqNeedsSameShape | patterns/abstract.py:26-33 | explanations differing in relationship, negation or arity are never equal |
| Explanations.EqReflexive | patterns/abstract.py:24-40 | `__eq__` is reflexive |
| Explanations.PredicateEqReflexive | patterns/abstract.py:24-40 | element equality (strings, `None`, nested explanations) is reflexive |
| Explanations.EqSymmetric | patterns/abstract.py:24-40 | `__eq__` is symmetric |
| Explanations.PredicateEqSymmetric | patterns/abstract.py:24-40 | element equality is symmetric |
| Explanations.EqTransitive | patterns/abstract.py:24-40 | `__eq__` is transitive |
| Explanations.PredicateEqTransitive | patterns/abstract.py:24-40 | element equality is transitive |
| Explanations.ConjunctionCommutes | patterns/abstract.py:35-37 | for `∧`, swapping two predicates with different renderings keeps the explanations equal |
| Explanations.OtherRelationsKeepOrder | patterns/abstract.py:39-40 | for any other relationship, swapping two unequal predicates makes the explanations unequal |
| Explanations.ConjoinSpine | patterns/abstract.py:251-261 | the fold of n >= 1 items is a left-nested conjunction n - 1 levels deep whose leaves are the items in order |
| Explanations.ConjoinTruthiness | patterns/abstract.py:251-261 | no items give the falsy sentinel `('', [])`; two or more give a truthy `∧` |
| Explanations.Concatenate | patterns/abstract.py:251-261 | the loop re-wrapping the running conjunction yields the fold, with the items along its left spine |
| Sorting.Sort | patterns/abstract.py:237 | `sorted` returns a permutation of its input |
| Sorting.SortSorted | patterns/abstract.py:237 | `sorted` returns a sequence ordered by the key |
| Sorting.SortStable | patterns/abstract.py:237 | `sorted` is stable: elements of one tie class keep their input order |
| Strings.StripAllSpace | preprocessing.py:80 | `strip()` gives `''` exactly for all-whitespace strings |
| Strings.SplitJoin | patterns/contradiction.py:8 | `' '.join(ws).split() == ws` for any list of words |
| Strings.SplitOnJoin | preprocessing.py:208 | `sep.join(parts).split(sep) == parts` when no part contains `sep` |
| Strings.FindFrom | patterns/abstract.py:106-107 | the first occurrence of the separator at or after a position: it occurs there and at no earlier index from that position; none means it occurs nowhere from there on |
| Strings.Find | patterns/abstract.py:106 | the first occurrence of the separator: it occurs there and at no earlier index; none means it occurs nowhere |
| Strings.PieceBefore | patterns/abstract.py:106 | `s.split(sep)[0]` is a prefix of `s` |
| Strings.LastPiece | patterns/abstract.py:107 | `s.split(sep)[-1]` is a suffix of `s` |
| Strings.LastStartAfterSep | patterns/abstract.py:107 | the left-to-right scan over non-overlapping separators stops where it began, or right after an occurrence of the separator |
| Strings.LastStartNoSep | patterns/abstract.py:107 | the separator occurs nowhere from where the scan stops |
| Strings.LastPieceAfterSep | patterns/abstract.py:107 | the last piece is all of `s`, or an occurrence of the separator ends right where it starts |
| Strings.LastPieceHasNoSep | patterns/abstract.py:107 | the last piece holds no occurrence of the separator |
| Strings.RemovePunct | preprocessing.py:225-226 | `translate` with `string.punctuation` leaves no punctuation and never lengthens |
| Strings.RemovePunctAppend | preprocessing.py:225-226 | `translate` works character by character: it distributes over concatenation, and drops one character exactly when it is punctuation, so the result is the input's non-punctuation characters in order |
| Strings.RemovePunctChar | preprocessing.py:225-226 | one character is dropped exactly when it is punctuation |
| Strings.JoinConcat | preprocessing.py:84 | `' '.join(a + b)` is the two joins with one separator between them, for non-empty `a` and `b` |
| Strings.RemovePunctIdempotent | preprocessing.py:225-226 | removing punctuation twice is removing it once |
| Strings.ParseIntOfNat | preprocessing.py:208 | `int(str(n)) == n` |
| Documents.CharSpan | patterns/contradiction.py:105-107 | `doc.char_span` gives a non-empty token run whose first token starts at `start` and whose last token ends at `end`; when such tokens exist but the result is `None`, the token ending at `end` lies before the one starting at `start` |
| Vocabulary.TableKeys | patterns/abstract.py:120-129 | a key is in the dictionary exactly when some assignment wrote it |
| Vocabulary.TableWritten | patterns/abstract.py:120-129 | every value in the dictionary was written under its key by some assignment |
| Vocabulary.TableLastWrite | patterns/abstract.py:120-129 | the last assignment to a key decides its value |
| Vocabulary.Assign | patterns/abstract.py:168-184 | assigning entries one by one gives the dictionary of those assignments |
| Vocabulary.KeepTruthy | patterns/abstract.py:118 | `filter(None, fs)` keeps only non-empty values and drops one exactly when some value is falsy |
| Vocabulary.Forms | patterns/abstract.py:110-118 | at most five inflected forms, all non-empty |
| Vocabulary.WriteForms | patterns/abstract.py:120-129 | the inner loop writes the three keys of each form in order |
| Vocabulary.GenerateInflectedPatterns | patterns/abstract.py:92-131 | the generated dictionary is the one left by the assignments of every seed, in order |
| Vocabulary.FormWritesShape | patterns/abstract.py:120-129 | three writes per form: the bare, `can` and `could` phrases, each labelled with the form |
| Vocabulary.InflectedSeed | patterns/abstract.py:95-129 | a verbless seed maps to itself; a verb seed writes three keys per truthy inflection, labelled with the inflection, not with the seed's label |
| Vocabulary.BareVerb | patterns/abstract.py:106-107 | a seed that is its own verb has no words before or after it |
| Vocabulary.BaseVerb | patterns/abstract.py:150 | `inflect("VB") or text`: the non-empty base form when there is one, else the verb's text |
| Vocabulary.GenerateNegativePatterns | patterns/abstract.py:133-186 | the generated dictionary is the one left by the negative assignments of every seed, in order |
| Vocabulary.NegativeSeed | patterns/abstract.py:136-184 | a verbless seed yields the seven prefixed keys; a verb seed yields the twelve auxiliary keys (the literal `could't` included), plus `not` with the gerund when it exists; all are labelled with the seed's anchor |
| Vocabulary.NegativeLabels | patterns/abstract.py:136-184 | every key of a negative table maps to the anchor of some seed |
| Vocabulary.RewriteKeys | patterns/contradiction.py:7-10 | the comprehension rewrites each key and keeps each label |
| Vocabulary.InsertNotWords | patterns/contradiction.py:8 | `not` goes right after the first word of a key |
| Vocabulary.PrefixNotWords | patterns/contradiction.py:39 | `not ` goes in front of a key that has a word |
| Vocabulary.RewritesSeeWords | patterns/contradiction.py:8-39 | on a key of space-joined words, `not` goes after its first word, or in front of the key |
| Matching.FirstAlternative | patterns/abstract.py:79 | at a position, the first alternative in list order that occurs there, or none |
| Matching.FindIterSound | patterns/abstract.py:79 | every match lies in the text, covers one alternative, and the matches come in order without overlapping |
| Matching.FindIterLeftmost | patterns/abstract.py:79 | nothing is found exactly when no key occurs; otherwise the first match is at the leftmost position where a key occurs, covers the first such key in table order, and the search resumes at its end |
| Matching.FindAll | patterns/abstract.py:79 | every string `findall` returns is one of the keys |
| Matching.FindIterIgnoreCase | patterns/contradiction.py:101-102 | each case-insensitive match covers text equal, lower-cased, to a lower-cased key |
| Matching.KeysOfTable | patterns/abstract.py:79 | the iteration order lists every key of the dictionary exactly once |
| Matching.KeysFirstWrite | patterns/abstract.py:79 | keys iterate in the order of their first insertion |
| Matching.KeysPrefix | patterns/abstract.py:79 | one more assignment only ever appends to the key order |
| Matching.KeysOfDistinct | patterns/abstract.py:79 | a table with distinct keys iterates its entries in program order |
| Extraction.RunStart | patterns/abstract.py:199-204 | the start of the run of non-stopping tokens ending before the anchor, bounded by the sentence start or a stopping token |
| Extraction.GetLeftTokens | patterns/abstract.py:189-207 | the collect-in-reverse loop and the reversal return exactly the tokens from the run start up to the anchor |
| Extraction.LeftTokensMaximal | patterns/abstract.py:192-205 | that run has no stopping token and cannot be extended to the left within the sentence |
| Extraction.RunLength | patterns/abstract.py:226-231 | the leading run of non-stopping tokens ends at a stopping token or at the end |
| Extraction.GetRightTokens | patterns/abstract.py:209-233 | the loop returns the right run of the filtered subtree: one leading `that`/`of`/`as` skipped, then up to the first stopping token |
| Extraction.RightRunAt | patterns/abstract.py:219-231 | a non-stopping stretch after the optional skipped word that ends at a stopping token or at the end is exactly the right run |
| Extraction.RightTokensPrefix | patterns/abstract.py:219-231 | the right argument is a stop-free prefix of the candidates, or of the candidates after one skipped word |
| Extraction.GroundIn | patterns/abstract.py:240-244 | a side is kept, or becomes a highlight that differs from it and occurs in it ignoring case |
| Extraction.GetGroundedTerms | patterns/abstract.py:235-248 | the loop with its early exit grounds each side independently, longest highlight first |
| Extraction.GroundOfEmpty | patterns/abstract.py:240-244 | an empty side stays empty whatever the highlights |
| Extraction.GroundWithoutHighlights | patterns/abstract.py:237-248 | without highlights both sides are kept |
| Extraction.GroundInUnchanged | patterns/abstract.py:240-244 | a side is kept exactly when no highlight other than itself occurs in it |
| Extraction.GroundChoice | patterns/abstract.py:235-248 | a side is kept exactly when no other highlight occurs in it; otherwise it becomes a highlight that occurs in it |
| Extraction.LongerIsStrictOrder | patterns/abstract.py:237 | longer-first is a strict order, as `sorted(key=len, reverse=True)` needs |
| Extraction.GroundLongest | patterns/abstract.py:237 | no highlight occurring in the side is longer than the replacement chosen |
| Extraction.GroundStable | patterns/abstract.py:237 | among highlights as long as the replacement, the replacement is the first one, in the given order, that occurs |
| Extraction.Window | patterns/abstract.py:85-86 | `doc[i:i+len(m.split())]` is a valid span starting at `i`, clipped at the end |
| Extraction.FirstFit | patterns/abstract.py:84-89 | at a token, the first unused match string that fits, or none |
| Extraction.FindFit | patterns/abstract.py:84-89 | the inner loop finds that first fitting position, with no equal string before it |
| Extraction.RemoveFirstAt | patterns/abstract.py:88 | `list.remove` of an element not occurring earlier drops that position |
| Extraction.FindPatternTokens | patterns/abstract.py:77-90 | the nested loops return the windows of the scan's hits |
| Extraction.ScanHits | patterns/abstract.py:80-90 | the hits lie within the document, each fits where it was taken, and the starts strictly increase |
| Extraction.ScanShorter | patterns/abstract.py:80-90 | no more hits than match strings |
| Extraction.ScanFromPool | patterns/abstract.py:84-88 | each match string is used at most as often as `findall` returned it |
| Extraction.PatternTokensFromPool | patterns/abstract.py:77-90 | the trigger spans come in token order, at most one per token, each with exactly the text of a match string |
| Extraction.Finish | patterns/entailment.py:56-61 | grounds both sides; ValueError exactly when a grounded side is empty, else the two-phrase explanation |
| Families.FinishExtracted | patterns/entailment.py:56-61 | the common tail produces two non-empty phrases, each grounded from its side, or raises ValueError; never `None` |
| Families.AnchorToken | patterns/entailment.py:26-28 | the first token of the span whose text is the anchor word; none when the lookup gave `None` or no token matches |
| Families.TreeLeft | patterns/entailment.py:30-43 | with a head: the subtree of its first non-punctuation left child, or all left children when each is punctuation; without a head: the fallback |
| Families.RephrasingAsWritten | patterns/entailment.py:23-62 | as written: a missing anchor raises; otherwise each argument is its quote-free tokens followed by the trigger words, lower-cased, then grounded |
| Families.Rephrasing | patterns/entailment.py:23-62 | corrected: the trigger words are dropped from both arguments instead of appended |
| Families.TriggerWordsKeepTextNonEmpty | patterns/entailment.py:49-54 | appending the trigger words makes an argument string that is never empty |
| Families.RephrasingAsWrittenKeepsTrigger | patterns/entailment.py:49-59 | as written, with no highlights the family never raises "No grounded terms found"; an empty left argument becomes the trigger's own words |
| Families.RephrasingNeedsLeftArgument | patterns/entailment.py:49-59 | corrected, a left argument of only quotes and trigger words raises ValueError whatever the highlights |
| Families.StanforNeverAnchors | patterns/entailment.py:19-28 | the `stanfor` entry's anchor `acronym` is never a token of its span, so that trigger always raises |
| Families.Implication | patterns/entailment.py:84-114 | like Rephrasing corrected, but a root anchor takes every token before it as the left argument |
| Families.Equivalence | patterns/entailment.py:127-162 | trigger words and quotes dropped, lower-cased, and never negated |
| Families.Classification | patterns/entailment.py:213-244 | only quotes dropped, case kept, left fallback by the left scanner |
| Families.FirstSaying | patterns/entailment.py:174-175 | the first token whose lower-cased text is the word, or none |
| Families.IfThen | patterns/entailment.py:172-199 | ValueError unless the first `if` comes before the first `then`; else the text between them against the text after `then`, punctuation dropped |
| Families.ExclusiveAsWritten | patterns/contradiction.py:61-88 | as written: `None` unless the first `either` comes before the first `or`; else the two grounded sides |
| Families.Exclusive | patterns/contradiction.py:61-88 | corrected: a ValueError where the code returns `None` |
| Families.AllAfterNot | patterns/neutral.py:42-43 | the `all` immediately after the first `not`, if any |
| Families.NotAll | patterns/neutral.py:41-68 | ValueError without `not all` or `are`, or when `all` comes after `are`; else the text between them against the text after `are` |
| Families.FindSplitWord | patterns/contradiction.py:118-122 | the loop finds the first split word after the trigger |
| Families.Context | patterns/contradiction.py:132-136 | the last three tokens before the trigger, or all of them when there are fewer |
| Families.CannotBe | patterns/contradiction.py:110-147 | an empty span raises IndexError; otherwise the split rule, punctuation kept on the left and dropped on the right, then grounding |
| Families.GenerateCannotBe | patterns/contradiction.py:110-147 | the imperative extraction equals the functional one |
| Families.CannotBeSplitRule | patterns/contradiction.py:118-137 | a split word after position 0 divides the tokens after the trigger around it; otherwise the left side is the context and the right side is everything after |
| Families.AlignedSpans | patterns/contradiction.py:103-108 | the kept spans are valid and non-empty, at most one per match |
| Families.FindCannotBeSpans | patterns/contradiction.py:100-108 | the loop keeps the `char_span` of each case-insensitive match that aligns with token boundaries |
| Families.AlignedSpansFromMatches | patterns/contradiction.py:104-108 | every kept span is the `char_span` of one of the matches |
| Families.CopulaAt | patterns/entailment.py:251-277 | a token that is not a root `be` contributes nothing; an error is a ValueError; an explanation has two non-empty phrases |
| Families.CopulaCases | patterns/entailment.py:254-273 | a token contributes exactly when it is a root `be` with nominal first subject and complement and no forbidden word in the complement's lemmas; the sides are the grounded subtree texts |
| Families.CopulaPairUnique | patterns/entailment.py:255-260 | only the first subject child and the first complement child are used |
| Families.CopulaPairNeedsChildren | patterns/entailment.py:255-259 | without a subject child or a complement child there is no pair |
| Families.FindAdditionalClassifications | patterns/entailment.py:246-279 | the loop over the tokens, ended by a ValueError, equals the functional collection |
| Families.CollectErr | patterns/entailment.py:250-279 | collecting fails exactly when some token raises, and with the first such error |
| Families.CollectOk | patterns/entailment.py:250-279 | on success every collected explanation was produced by some token |
| Families.CollectErrStays | patterns/entailment.py:250-279 | once an error is met, later tokens change nothing |
| Families.ClassificationsOutcome | patterns/entailment.py:246-279 | the hook fails, always with ValueError, exactly when some token raises; otherwise each explanation comes from a copula and has the pattern's relationship and negation and two non-empty phrases |
| Patterns.Spans | patterns/abstract.py:57 | the trigger spans are valid spans of the document |
| Patterns.Extract | patterns/abstract.py:61-62 | only the XOR extraction as written returns `None`; errors are ValueError, or IndexError for "cannot be" |
| Patterns.FindSpans | patterns/abstract.py:57 | the dispatched discovery equals the trigger spans |
| Patterns.FindExtras | patterns/abstract.py:66 | the dispatched hook equals its specification |
| Patterns.ExtractAll | patterns/abstract.py:58-65 | the loop with its exception handler builds the kept list of the outcomes |
| Patterns.Invoke | patterns/abstract.py:49-68 | the whole call equals its functional specification |
| Patterns.KeptOutcomes | patterns/abstract.py:58-65 | at most one item per span, one per span when nothing raises; `None` kept exactly when some outcome is `None`; every other item is an explanation produced |
| Patterns.KeptSkipsRaised | patterns/abstract.py:63-64 | spans that all raise contribute nothing |
| Patterns.KeptNoValues | patterns/abstract.py:62 | outcomes that are all `None` are kept as that many `None`s |
| Patterns.CallFails | patterns/abstract.py:66 | a call fails exactly when the copula hook raises, which only the classification patterns have |
| Patterns.AssembleShape | patterns/abstract.py:66-68 | the result lists the kept items and then the hook's explanations along its left spine |
| Patterns.CallShape | patterns/abstract.py:49-68 | a successful call is the left-nested conjunction of the kept extractions then the hook's, at most one per span and one per token |
| Patterns.ExtrasBound | patterns/entailment.py:251-277 | the hook yields at most one explanation per token |
| Patterns.NoNullWithoutXorAsWritten | patterns/abstract.py:62 | with every family but XOR as written, no `None` reaches the conjunction |
| Patterns.AnchorAlwaysFound | patterns/abstract.py:61 | outside "cannot be", every span's text is a key, so `patterns.get` never returns its `None` default |
| Patterns.CannotBeSpansMatchKeys | patterns/contradiction.py:100-108 | each "cannot be" span is the `char_span` of a case-insensitive occurrence of a key |
| Patterns.XorAsWrittenOutcomes | patterns/contradiction.py:66-70 | as written, without `either` before `or` every XOR span yields `None` |
| Patterns.XorAsWrittenLeaksNone | patterns/contradiction.py:66-70 | as written, such a document's call is a conjunction of `None`s: `None` itself for one span, a truthy `∧` holding `None` for two or more |
| Patterns.AssembleNulls | patterns/abstract.py:251-261 | all-`None` outcomes fold into a conjunction of `None`s |
| Patterns.XorOutcomesRaised | patterns/contradiction.py:66-70 | corrected, every XOR span raises on such a document |
| Patterns.XorSkipsUnordered | patterns/contradiction.py:66-70 | corrected, such a document's call is the falsy empty explanation |
| Patterns.RephrasingClassesKeepTrigger | patterns/entailment.py:49-59 | as written, with no highlights `RephrasingPattern` and `NotRephrasingPattern` (contradiction.py:4-11) turn every anchored span whose text has words into an `↔` explanation, negated exactly for the negated class |
| Preprocessing.StopAt | preprocessing.py:52 | the first asterisk or line break from a position, or none |
| Preprocessing.Segments | preprocessing.py:52-53 | the `\*(.*?)\*` matches lie in the text, each at least two characters, in order and not overlapping |
| Preprocessing.SegmentsDelimited | preprocessing.py:52-53 | each match is an asterisk, a run free of asterisks and line breaks, and an asterisk |
| Preprocessing.SegmentsOfWrapped | preprocessing.py:52-53 | a word wrapped in asterisks is one match whose group is the word |
| Preprocessing.SegmentAt | preprocessing.py:52-53 | at an asterisk whose line reaches another asterisk, a match starts |
| Preprocessing.SegmentSkip | preprocessing.py:52-53 | anywhere else the search moves on by one character |
| Preprocessing.Items | preprocessing.py:61-80 | per match: the highlight stripped, without punctuation, stripped again; and whether only whitespace separates it from the previous match |
| Preprocessing.ExtractOrderedHighlightedPhrases | preprocessing.py:36-91 | the method computes the grouped phrases of its specification, corrected or as written according to its flag (a missing value or no match gives `[]`) |
| Preprocessing.GroupMatches | preprocessing.py:57-89 | the loop and the final append give the closed fold of the items |
| Preprocessing.Inspect | preprocessing.py:63-80 | the body computes exactly the item of the current match |
| Preprocessing.Advance | preprocessing.py:66-85 | the branches skip an empty highlight, extend on an adjacent one, else finish the phrase and start a new one |
| Preprocessing.CleanNoPunct | preprocessing.py:63-65 | a cleaned highlight has no punctuation |
| Preprocessing.ItemsClean | preprocessing.py:61-80 | cleaned highlights have no punctuation and the first match counts as adjacent |
| Preprocessing.FoldKeeps | preprocessing.py:61-85 | the loop invariant holds after every prefix of the matches |
| Preprocessing.StepKeeps | preprocessing.py:66-85 | one turn of the loop keeps the invariant |
| Preprocessing.CloseKeeps | preprocessing.py:88-89 | the final append keeps it: at most one phrase per match, none with punctuation |
| Preprocessing.PhrasesClean | preprocessing.py:36-91 | corrected, no phrase is empty or has punctuation, and there is at most one phrase per match |
| Preprocessing.PhrasesAsWrittenShape | preprocessing.py:36-91 | as written, no phrase has punctuation, only the first phrase can be empty, there is at most one phrase per match, and the first phrase is empty exactly when the first match with text after cleaning is not the first match and more than whitespace precedes it |
| Preprocessing.RunsPartition | preprocessing.py:66-85 | the runs of the kept matches (those with text after cleaning) concatenate to them in order; every run is non-empty; a run after the first starts at a match with more than whitespace before it, and every other match of a run has only whitespace before it |
| Preprocessing.RunsFlatten | preprocessing.py:66-85 | the runs concatenate to the kept matches in order |
| Preprocessing.RunsBreaks | preprocessing.py:70-85 | runs are non-empty and break exactly at the matches with more than whitespace before them |
| Preprocessing.RunsBreakStep | preprocessing.py:82-85 | a kept match with more than whitespace before it starts a run of its own |
| Preprocessing.TracksStep | preprocessing.py:66-85 | one turn of the loop keeps the reading of its state through the runs: the finished phrases are the lead and the joined runs but the last, and the current phrase is the last run's highlights |
| Preprocessing.TracksStart | preprocessing.py:70-72 | the first kept match starts the first run |
| Preprocessing.TracksExtend | preprocessing.py:80-81 | a kept match with only whitespace before it extends the last run |
| Preprocessing.TracksBreak | preprocessing.py:82-85 | a kept match with more than whitespace before it finishes the last run's phrase and starts a new run |
| Preprocessing.FoldRuns | preprocessing.py:61-85 | that reading holds after every prefix of the matches |
| Preprocessing.CloseRuns | preprocessing.py:87-89 | the final append turns it into the lead followed by one joined phrase per run |
| Preprocessing.HighlightedRuns | preprocessing.py:36-91 | the phrases are the lead followed by one phrase per run: that run's highlights joined with spaces |
| Preprocessing.PhrasesGrouping | preprocessing.py:36-91 | corrected, the phrases are exactly one per run; as written, the lead (an empty phrase when the first kept match is not adjacent) comes first |
| Preprocessing.RunsText | preprocessing.py:84-89 | joining the joined runs with spaces is joining all their highlights with spaces |
| Preprocessing.PhrasesText | preprocessing.py:36-91 | corrected, the phrases joined with spaces are the non-empty cleaned highlights, in order, joined with spaces |
| Preprocessing.LeadWhen | preprocessing.py:61-85 | the lead is there exactly when the first match with text is not the first match and more than whitespace precedes it |
| Preprocessing.FirstPhraseEmpty | preprocessing.py:61-89 | as written, the first phrase is empty exactly when the first match with text after cleaning is not the first match and more than whitespace precedes it |
| Preprocessing.EmptyFirstPhrase | preprocessing.py:61-89 | `"*!* x *b*"` gives `["", "b"]` as written and `["b"]` corrected |
| Preprocessing.ParseAll | preprocessing.py:208 | one integer per part when every part parses |
| Preprocessing.ParseAllSpec | preprocessing.py:208 | the list fails exactly when some part is not an integer; otherwise each part gives its own value |
| Preprocessing.ParseAllNumerals | preprocessing.py:208 | the numerals of natural numbers parse back to those numbers |
| Preprocessing.StripBraces | preprocessing.py:208 | stripping `{} ` from an index text leaves the comma-joined numerals |
| Preprocessing.SelectSpec | preprocessing.py:210 | selected words are words at in-range indices, in order; with all indices in range, exactly the word at each index |
| Preprocessing.ParseIndexText | preprocessing.py:205-210 | round trip: the index text of a non-empty index list gives the words at those indices that are in range |
| Preprocessing.EmptyIndexSet | preprocessing.py:205-212 | `{}` gives no words: `int('')` fails and the handler returns `[]` |
| Preprocessing.RemovePunctuation | preprocessing.py:214-226 | one word per word, each that word with its punctuation removed (`RemovePunct`), so none has punctuation and none is longer |
| Preprocessing.RemovePunctuationIdempotent | preprocessing.py:214-226 | removing punctuation twice is removing it once, and leaves words without punctuation unchanged |

## Left out

- The spaCy parse (`nlp(...)`, sentence boundaries, dependency labels) is an input: the document is a sequence of token records, and `WellFormed` says every index in them points into the document. The model does not state that the tree is a tree.
- pyinflect is the `Lexicon` parameter: for a phrase it gives its first verb and the five inflections, each possibly missing.
- Token texts are assumed non-empty, as spaCy tokens are. `if not either_token` reads a token's truthiness, which is its text length.
- `ESNLIPreprocessor.__init__`, `extract_highlighted_words`, `create_ordered_highlights_as_list` and `_lemmatize_and_pos` are left out. They are pandas and spaCy plumbing around the helpers that are modelled. pandas' missing values are `None` of an `Option`.
- `Strings.Lower` covers ASCII letters only. Unicode case mapping, including the Kelvin sign and other non-ASCII partners, is not modelled. `Strings.IsSpace` is the full `str.isspace` set.
- `Strings.ParseInt` accepts ASCII digits, optional surrounding whitespace, a sign and single underscores. Other Unicode digits are not modelled.
- Matching.FindIterIgnoreCase: states only that each match covers a case-insensitive occurrence of a key. Which match wins at a position is modelled in its body but not stated, because the "cannot be" keys share no case-folded prefix that would make it matter.
- Matching.FindIterLeftmost: stated for tables without empty keys, which none of the tables has. Matching.FindIterSound covers empty keys.
- Regular-expression metacharacters in keys and highlights are read as literals. The keys of the tables have none, and `re.search(term, ...)` with a highlight containing one is not modelled.
- Patterns.Extract: states only which outcomes a family can have. What each family extracts is stated by the Families member it dispatches to.
- The source's single grouping loop in `_extract_ordered_highlighted_phrases` is split into the methods `Inspect` and `Advance`, called from the loop of `GroupMatches`. The branches are the source's.
- `ParseAll` parses every part or fails as a whole, as the list comprehension inside `try` does.
- `StructuredExplanation.__str__` (`Explanations.Render`) and `__bool__` (`Explanations.Truthy`) are modelled as definitions. No separate lemma is stated about the rendering itself.
- Printing in the exception handler, which the source comments out, is left out.

## Findings

| source | as written | input that shows it | evidently intended | confidence | as-written member | corrected member |
|---|---|---|---|---|---|---|
| patterns/entailment.py:49-54 | Rephrasing appends the trigger's words (`+pattern_tokens.text.split()`) to both argument strings, where Implication and Equivalence drop them from the token list | a span whose left argument holds only quotes, with no highlights: the left phrase is the trigger itself (`"is a rephrasing of"`) and no ValueError is raised | trigger words excluded from the arguments, so an empty argument raises "No grounded terms found" | not executed | Families.RephrasingAsWrittenKeepsTrigger | Families.RephrasingNeedsLeftArgument |
| patterns/contradiction.py:66-70 | XOR returns `None` when `either` or `or` is missing or in the wrong order, and `__call__` appends that `None` | `"a dog or a cat or a bird"` (two `or` spans, no `either`): the call returns a truthy `∧` of two `None`s; with one `or` it returns `None` | raise ValueError, like every other family, so the span is skipped | not executed | Patterns.XorAsWrittenLeaksNone | Patterns.XorSkipsUnordered |
| preprocessing.py:74-85 | a highlight that cleans to nothing is skipped, but the next non-adjacent highlight still finishes the empty current phrase | `"*!* x *b*"` gives `["", "b"]` | finish a phrase only when it has words (`if current_phrase:`) | not executed | Preprocessing.EmptyFirstPhrase | Preprocessing.PhrasesClean |
