/**
 * The extraction step of every pattern family (`_generate_structured_explanation` in
 * patterns/entailment.py, patterns/contradiction.py and patterns/neutral.py): given the parsed
 * document, one trigger span, the anchor label the span's text maps to and the highlights, a
 * family builds a two-place explanation, raises, or (the XOR family) returns None. Also the
 * "cannot be" trigger discovery and the copula classification hook.
 */
module Families {
  import opened Wrappers
  import opened Strings
  import opened Sorting
  import opened Documents
  import opened Explanations
  import opened Extraction
  import opened Matching

  // ---------------------------------------------------------------------------------------------
  // What every extraction promises

  /** A grounded side: the extracted side itself, or a highlight that occurs in it. */
  predicate GroundedFrom(g: string, side: string, highlights: seq<string>) {
    g == side || (g in highlights && ContainsIgnoreCase(side, g))
  }

  /** The outcome of grounding two extracted sides: a ValueError exactly when a grounded side is
      empty, and otherwise the relationship over two non-empty phrases grounded from the sides. */
  predicate Extracted(o: Outcome, left: string, right: string, highlights: seq<string>, rel: Relation, negated: bool) {
    && (o.Raised? <==> Ground(left, highlights) == "" || Ground(right, highlights) == "")
    && (o.Raised? ==> o.err == ValueError)
    && !o.NoValue?
    && (o.Produced? ==>
          && o.e.relationship == rel && o.e.negated == negated && |o.e.predicates| == 2
          && o.e.predicates[0].Phrase? && o.e.predicates[1].Phrase?
          && o.e.predicates[0].text != "" && o.e.predicates[1].text != ""
          && GroundedFrom(o.e.predicates[0].text, left, highlights)
          && GroundedFrom(o.e.predicates[1].text, right, highlights))
  }

  lemma FinishExtracted(left: string, right: string, highlights: seq<string>, rel: Relation, negated: bool)
    ensures Extracted(Finish(left, right, highlights, rel, negated), left, right, highlights, rel, negated)
  {
    GroundChoice(left, highlights);
    GroundChoice(right, highlights);
  }

  // ---------------------------------------------------------------------------------------------
  // Arguments over the dependency tree

  /** `next(tok for tok in pattern_tokens if tok.text == anchor_word)`: the first token of the span
      whose text is the anchor label; there is none when the span's text has no label. */
  function AnchorToken(doc: Doc, sp: Span, anchor: Option<string>): (r: Option<nat>)
    requires ValidSpan(doc, sp)
    ensures r.Some? ==> sp.start <= r.value < sp.end && anchor == Some(doc[r.value].text)
    ensures r.Some? ==> forall k :: sp.start <= k < r.value ==> doc[k].text != anchor.value
    ensures r.None? <==> anchor.None? || forall k :: sp.start <= k < sp.end ==> doc[k].text != anchor.value
  {
    match anchor
    case None => None
    case Some(w) => FirstWhere(doc[..sp.end], sp.start, (t: Token) => t.text == w)
  }

  /** The left argument over the dependency tree: for an anchor with a head, the subtree of the
      head's first left child that is not punctuation, or all of the head's left children when
      each one is punctuation; for an anchor without a head, `fallback`. */
  function TreeLeft(doc: Doc, a: nat, fallback: seq<Token>): (r: seq<Token>)
    requires WellFormed(doc) && a < |doc|
    ensures doc[a].head.None? ==> r == fallback
    ensures doc[a].head.Some? ==>
      var h := doc[a].head.value;
      h < |doc| && InDoc(doc, doc[h].lefts) &&
      var lefts := doc[h].lefts;
      || ((forall j :: 0 <= j < |lefts| ==> doc[lefts[j]].isPunct) && r == Tokens(doc, lefts))
      || (exists j :: 0 <= j < |lefts| && !doc[lefts[j]].isPunct
            && (forall i :: 0 <= i < j ==> doc[lefts[i]].isPunct)
            && InDoc(doc, doc[lefts[j]].subtree) && r == Tokens(doc, doc[lefts[j]].subtree))
  {
    match doc[a].head
    case None => fallback
    case Some(h) =>
      assert TokenFits(doc, a);
      assert TokenFits(doc, h);
      var lefts := doc[h].lefts;
      match FirstWhere(Tokens(doc, lefts), 0, (t: Token) => !t.isPunct)
      case Some(j) =>
        assert TokenFits(doc, lefts[j]);
        Tokens(doc, doc[lefts[j]].subtree)
      case None => Tokens(doc, lefts)
  }

  /** What `_get_left_tokens` returns for anchor `a` (see `GetLeftTokens`). */
  function LeftRun(doc: Doc, a: nat): seq<Token>
    requires WellFormed(doc) && a < |doc|
  {
    assert TokenFits(doc, a);
    doc[RunStart(doc, doc[a].sentStart, a)..a]
  }

  /** What `_get_right_tokens` returns for anchor `a` and the span's tokens (see `GetRightTokens`). */
  function RightArgument(doc: Doc, sp: Span, a: nat): seq<Token>
    requires ValidSpan(doc, sp) && a < |doc| && InDoc(doc, doc[a].subtree)
  {
    RightRun(RightCandidates(doc, a, Texts(doc[sp.start..sp.end])))
  }

  /** The tokens whose text is neither a quote nor one of `words`. */
  function Without(ts: seq<Token>, words: seq<string>): seq<Token> {
    Filter(ts, (t: Token) => !IsQuote(t.text) && t.text !in words)
  }

  /** The tokens whose text is not a quote. */
  function Unquoted(ts: seq<Token>): seq<Token> {
    Filter(ts, (t: Token) => !IsQuote(t.text))
  }

  /** `" ".join(tok.text for tok in ts if tok.text not in quotes + words).strip().lower()`. */
  function DroppingText(ts: seq<Token>, words: seq<string>): string {
    Lower(Strip(JoinTexts(Without(ts, words))))
  }

  // ---------------------------------------------------------------------------------------------
  // Rephrasing (and NotRephrasing)

  /** The left and right arguments of an ancestor-based family: the tree left argument with
      `fallback` for a root anchor, and the right scanner's tokens. */
  function Arguments(doc: Doc, sp: Span, a: nat, fallback: seq<Token>): (seq<Token>, seq<Token>)
    requires WellFormed(doc) && ValidSpan(doc, sp) && a < |doc|
  {
    assert TokenFits(doc, a);
    (TreeLeft(doc, a, fallback), RightArgument(doc, sp, a))
  }

  /** Rephrasing's argument strings as written: the quote-free token texts followed by the words of
      the trigger, space-joined, stripped and lower-cased. */
  function RephrasingTextAsWritten(ts: seq<Token>, words: seq<string>): string {
    Lower(Strip(Join(" ", Texts(Unquoted(ts)) + words)))
  }

  /** `RephrasingPattern._generate_structured_explanation` as written. */
  function RephrasingAsWritten(doc: Doc, sp: Span, anchor: Option<string>, highlights: seq<string>,
                               rel: Relation, negate: bool): (o: Outcome)
    requires WellFormed(doc) && ValidSpan(doc, sp)
    ensures AnchorToken(doc, sp, anchor).None? ==> o == Raised(ValueError)
    ensures AnchorToken(doc, sp, anchor).Some? ==>
      var a := AnchorToken(doc, sp, anchor).value;
      var words := Split(SpanText(doc, sp));
      var args := Arguments(doc, sp, a, LeftRun(doc, a));
      Extracted(o, RephrasingTextAsWritten(args.0, words), RephrasingTextAsWritten(args.1, words), highlights, rel, negate)
  {
    match AnchorToken(doc, sp, anchor)
    case None => Raised(ValueError)
    case Some(a) =>
      var words := Split(SpanText(doc, sp));
      var args := Arguments(doc, sp, a, LeftRun(doc, a));
      var l, r := RephrasingTextAsWritten(args.0, words), RephrasingTextAsWritten(args.1, words);
      FinishExtracted(l, r, highlights, rel, negate);
      Finish(l, r, highlights, rel, negate)
  }

  /** Rephrasing with the trigger's words left out of both arguments, as Implication and Equivalence
      do. */
  function Rephrasing(doc: Doc, sp: Span, anchor: Option<string>, highlights: seq<string>,
                      rel: Relation, negate: bool): (o: Outcome)
    requires WellFormed(doc) && ValidSpan(doc, sp)
    ensures AnchorToken(doc, sp, anchor).None? ==> o == Raised(ValueError)
    ensures AnchorToken(doc, sp, anchor).Some? ==>
      var a := AnchorToken(doc, sp, anchor).value;
      var words := Split(SpanText(doc, sp));
      var args := Arguments(doc, sp, a, LeftRun(doc, a));
      Extracted(o, DroppingText(args.0, words), DroppingText(args.1, words), highlights, rel, negate)
  {
    match AnchorToken(doc, sp, anchor)
    case None => Raised(ValueError)
    case Some(a) =>
      var words := Split(SpanText(doc, sp));
      var args := Arguments(doc, sp, a, LeftRun(doc, a));
      var l, r := DroppingText(args.0, words), DroppingText(args.1, words);
      FinishExtracted(l, r, highlights, rel, negate);
      Finish(l, r, highlights, rel, negate)
  }

  /** Appending the trigger's words leaves an argument string that is never empty. */
  lemma TriggerWordsKeepTextNonEmpty(ts: seq<Token>, words: seq<string>)
    requires words != [] && forall k :: 0 <= k < |words| ==> IsWord(words[k])
    ensures RephrasingTextAsWritten(ts, words) != ""
  {
    var xs := Texts(Unquoted(ts)) + words;
    var w := xs[|xs| - 1];
    assert IsWord(words[|words| - 1]);
    assert xs == xs[..|xs| - 1] + [w];
    JoinAppend(" ", xs[..|xs| - 1], w);
    var joined := Join(" ", xs);
    assert joined[|joined| - 1] == w[|w| - 1];
    StripAllSpace(joined);
  }

  /** As written, Rephrasing with no highlights never reports that no grounded terms were found,
      however little the tree yields: when the left argument holds nothing but quotes, its phrase is
      the trigger's own words. */
  lemma RephrasingAsWrittenKeepsTrigger(doc: Doc, sp: Span, anchor: Option<string>, rel: Relation, negate: bool)
    requires WellFormed(doc) && ValidSpan(doc, sp)
    requires AnchorToken(doc, sp, anchor).Some? && Split(SpanText(doc, sp)) != []
    ensures var o := RephrasingAsWritten(doc, sp, anchor, [], rel, negate);
      var a := AnchorToken(doc, sp, anchor).value;
      var words := Split(SpanText(doc, sp));
      && o.Produced?
      && (Unquoted(Arguments(doc, sp, a, LeftRun(doc, a)).0) == [] ==>
            o.e.predicates[0] == Phrase(Lower(Strip(Join(" ", words)))))
  {
    var a := AnchorToken(doc, sp, anchor).value;
    var words := Split(SpanText(doc, sp));
    var args := Arguments(doc, sp, a, LeftRun(doc, a));
    TriggerWordsKeepTextNonEmpty(args.0, words);
    TriggerWordsKeepTextNonEmpty(args.1, words);
    GroundWithoutHighlights(RephrasingTextAsWritten(args.0, words));
    GroundWithoutHighlights(RephrasingTextAsWritten(args.1, words));
    if Unquoted(args.0) == [] {
      assert Texts(Unquoted(args.0)) + words == words;
    }
  }

  /** With the trigger's words dropped, a left argument with nothing but quotes and trigger words
      raises, whatever the highlights. */
  lemma RephrasingNeedsLeftArgument(doc: Doc, sp: Span, anchor: Option<string>, highlights: seq<string>,
                                    rel: Relation, negate: bool)
    requires WellFormed(doc) && ValidSpan(doc, sp) && AnchorToken(doc, sp, anchor).Some?
    requires var a := AnchorToken(doc, sp, anchor).value;
      Without(Arguments(doc, sp, a, LeftRun(doc, a)).0, Split(SpanText(doc, sp))) == []
    ensures Rephrasing(doc, sp, anchor, highlights, rel, negate) == Raised(ValueError)
  {
    assert JoinTexts([]) == "";
    GroundOfEmpty(highlights);
  }

  /** The `stanfor` entry of the rephrasing table maps to the anchor `acronym`, which is not a word
      of the one-token span that text matches, so every such span raises. */
  lemma StanforNeverAnchors(doc: Doc, sp: Span, highlights: seq<string>, rel: Relation, negate: bool)
    requires WellFormed(doc) && ValidSpan(doc, sp) && sp.end == sp.start + 1 && SpanText(doc, sp) == "stanfor"
    ensures RephrasingAsWritten(doc, sp, Some("acronym"), highlights, rel, negate) == Raised(ValueError)
    ensures Rephrasing(doc, sp, Some("acronym"), highlights, rel, negate) == Raised(ValueError)
  {
    assert doc[sp.start].text == "stanfor";
  }

  // ---------------------------------------------------------------------------------------------
  // Implication (and NotImplication, NeutralImplication) and Equivalence (and NotEquivalence)

  /** `ImplicationPattern._generate_structured_explanation`: a root anchor takes every token before
      it as the left argument. */
  function Implication(doc: Doc, sp: Span, anchor: Option<string>, highlights: seq<string>,
                       rel: Relation, negate: bool): (o: Outcome)
    requires WellFormed(doc) && ValidSpan(doc, sp)
    ensures AnchorToken(doc, sp, anchor).None? ==> o == Raised(ValueError)
    ensures AnchorToken(doc, sp, anchor).Some? ==>
      var a := AnchorToken(doc, sp, anchor).value;
      var words := Split(SpanText(doc, sp));
      var args := Arguments(doc, sp, a, doc[..a]);
      Extracted(o, DroppingText(args.0, words), DroppingText(args.1, words), highlights, rel, negate)
  {
    match AnchorToken(doc, sp, anchor)
    case None => Raised(ValueError)
    case Some(a) =>
      var words := Split(SpanText(doc, sp));
      var args := Arguments(doc, sp, a, doc[..a]);
      var l, r := DroppingText(args.0, words), DroppingText(args.1, words);
      FinishExtracted(l, r, highlights, rel, negate);
      Finish(l, r, highlights, rel, negate)
  }

  /** `EquivalencePattern._generate_structured_explanation`: like Rephrasing with the trigger words
      dropped, and never negated whatever the pattern's `negate` says. */
  function Equivalence(doc: Doc, sp: Span, anchor: Option<string>, highlights: seq<string>,
                       rel: Relation): (o: Outcome)
    requires WellFormed(doc) && ValidSpan(doc, sp)
    ensures AnchorToken(doc, sp, anchor).None? ==> o == Raised(ValueError)
    ensures AnchorToken(doc, sp, anchor).Some? ==>
      var a := AnchorToken(doc, sp, anchor).value;
      var words := Split(SpanText(doc, sp));
      var args := Arguments(doc, sp, a, LeftRun(doc, a));
      Extracted(o, DroppingText(args.0, words), DroppingText(args.1, words), highlights, rel, false)
  {
    match AnchorToken(doc, sp, anchor)
    case None => Raised(ValueError)
    case Some(a) =>
      var words := Split(SpanText(doc, sp));
      var args := Arguments(doc, sp, a, LeftRun(doc, a));
      var l, r := DroppingText(args.0, words), DroppingText(args.1, words);
      FinishExtracted(l, r, highlights, rel, false);
      Finish(l, r, highlights, rel, false)
  }

  /** `ClassificationPattern._generate_structured_explanation`: only quotes are dropped and nothing
      is lower-cased. */
  function Classification(doc: Doc, sp: Span, anchor: Option<string>, highlights: seq<string>,
                          rel: Relation, negate: bool): (o: Outcome)
    requires WellFormed(doc) && ValidSpan(doc, sp)
    ensures AnchorToken(doc, sp, anchor).None? ==> o == Raised(ValueError)
    ensures AnchorToken(doc, sp, anchor).Some? ==>
      var a := AnchorToken(doc, sp, anchor).value;
      var args := Arguments(doc, sp, a, LeftRun(doc, a));
      Extracted(o, Strip(JoinTexts(Unquoted(args.0))), Strip(JoinTexts(Unquoted(args.1))), highlights, rel, negate)
  {
    match AnchorToken(doc, sp, anchor)
    case None => Raised(ValueError)
    case Some(a) =>
      var args := Arguments(doc, sp, a, LeftRun(doc, a));
      var l, r := Strip(JoinTexts(Unquoted(args.0))), Strip(JoinTexts(Unquoted(args.1)));
      FinishExtracted(l, r, highlights, rel, negate);
      Finish(l, r, highlights, rel, negate)
  }

  // ---------------------------------------------------------------------------------------------
  // Dual-anchor families: IfThen, XOR, NotAll

  /** The first token whose lower-cased text is `w`. */
  function FirstSaying(doc: Doc, w: string): (r: Option<nat>)
    ensures r.Some? ==> r.value < |doc| && Lower(doc[r.value].text) == w
    ensures r.Some? ==> forall k :: 0 <= k < r.value ==> Lower(doc[k].text) != w
    ensures r.None? ==> forall k :: 0 <= k < |doc| ==> Lower(doc[k].text) != w
  {
    FirstWhere(doc, 0, (t: Token) => Lower(t.text) == w)
  }

  /** The non-punctuation tokens of `doc[lo:hi]`, space-joined and stripped. */
  function Between(doc: Doc, lo: nat, hi: nat): string
    requires lo <= hi <= |doc|
  {
    Strip(JoinTexts(Filter(doc[lo..hi], (t: Token) => !t.isPunct)))
  }

  /** The explanation between two boundary tokens `i < j`: the text strictly between them against
      the text after `j`. */
  function Around(doc: Doc, i: nat, j: nat, highlights: seq<string>, rel: Relation, negated: bool): (o: Outcome)
    requires i < j < |doc|
    ensures Extracted(o, Between(doc, i + 1, j), Between(doc, j + 1, |doc|), highlights, rel, negated)
  {
    var l, r := Between(doc, i + 1, j), Between(doc, j + 1, |doc|);
    FinishExtracted(l, r, highlights, rel, negated);
    Finish(l, r, highlights, rel, negated)
  }

  /** Both boundary words occur and the first `first` comes no later than the first `second`. */
  predicate Ordered(doc: Doc, first: string, second: string) {
    FirstSaying(doc, first).Some? && FirstSaying(doc, second).Some?
    && FirstSaying(doc, first).value <= FirstSaying(doc, second).value
  }

  /** `IfThenPattern._generate_structured_explanation`: the text strictly between the first `if`
      and the first `then`, and the text after that `then`, punctuation tokens left out. */
  function IfThen(doc: Doc, highlights: seq<string>, rel: Relation, negate: bool): (o: Outcome)
    ensures !Ordered(doc, "if", "then") ==> o == Raised(ValueError)
    ensures Ordered(doc, "if", "then") ==>
      var i, j := FirstSaying(doc, "if").value, FirstSaying(doc, "then").value;
      i < j && Extracted(o, Between(doc, i + 1, j), Between(doc, j + 1, |doc|), highlights, rel, negate)
  {
    if !Ordered(doc, "if", "then") then Raised(ValueError)
    else
      var i, j := FirstSaying(doc, "if").value, FirstSaying(doc, "then").value;
      assert Lower(doc[i].text) != Lower(doc[j].text);
      Around(doc, i, j, highlights, rel, negate)
  }

  /** `XORPattern._generate_structured_explanation` as written: `None` instead of an error when
      `either` or `or` is missing or `either` comes after `or`. */
  function ExclusiveAsWritten(doc: Doc, highlights: seq<string>, rel: Relation): (o: Outcome)
    ensures !Ordered(doc, "either", "or") ==> o == NoValue
    ensures Ordered(doc, "either", "or") ==>
      var i, j := FirstSaying(doc, "either").value, FirstSaying(doc, "or").value;
      i < j && Extracted(o, Between(doc, i + 1, j), Between(doc, j + 1, |doc|), highlights, rel, false)
  {
    if !Ordered(doc, "either", "or") then NoValue
    else
      var i, j := FirstSaying(doc, "either").value, FirstSaying(doc, "or").value;
      assert Lower(doc[i].text) != Lower(doc[j].text);
      Around(doc, i, j, highlights, rel, false)
  }

  /** XOR raising a ValueError, as IfThen does, where the code as written returns `None`, so that the
      matcher loop skips the span. */
  function Exclusive(doc: Doc, highlights: seq<string>, rel: Relation): (o: Outcome)
    ensures !Ordered(doc, "either", "or") ==> o == Raised(ValueError)
    ensures Ordered(doc, "either", "or") ==>
      var i, j := FirstSaying(doc, "either").value, FirstSaying(doc, "or").value;
      i < j && Extracted(o, Between(doc, i + 1, j), Between(doc, j + 1, |doc|), highlights, rel, false)
  {
    var o := ExclusiveAsWritten(doc, highlights, rel);
    if o.NoValue? then Raised(ValueError) else o
  }

  /** The `all` right after the first `not`, if there is one. */
  function AllAfterNot(doc: Doc): (r: Option<nat>)
    ensures r.Some? ==> (FirstSaying(doc, "not").Some? && r.value == FirstSaying(doc, "not").value + 1
                         && r.value < |doc| && Lower(doc[r.value].text) == "all")
    ensures r.None? ==> (FirstSaying(doc, "not").None? || FirstSaying(doc, "not").value + 1 >= |doc|
                         || Lower(doc[FirstSaying(doc, "not").value + 1].text) != "all")
  {
    match FirstSaying(doc, "not")
    case None => None
    case Some(n) => if n + 1 < |doc| && Lower(doc[n + 1].text) == "all" then Some(n + 1) else None
  }

  /** `NotAllPattern._generate_structured_explanation`: needs a `not` immediately followed by `all`,
      and an `are` not before that `all`. */
  function NotAll(doc: Doc, highlights: seq<string>, rel: Relation): (o: Outcome)
    ensures AllAfterNot(doc).None? || FirstSaying(doc, "are").None? ==> o == Raised(ValueError)
    ensures AllAfterNot(doc).Some? && FirstSaying(doc, "are").Some? ==>
      var i, j := AllAfterNot(doc).value, FirstSaying(doc, "are").value;
      (i > j ==> o == Raised(ValueError)) &&
      (i <= j ==> i < j && Extracted(o, Between(doc, i + 1, j), Between(doc, j + 1, |doc|), highlights, rel, false))
  {
    match (AllAfterNot(doc), FirstSaying(doc, "are"))
    case (Some(i), Some(j)) =>
      if i > j then Raised(ValueError)
      else
        assert Lower(doc[i].text) != Lower(doc[j].text);
        Around(doc, i, j, highlights, rel, false)
    case _ => Raised(ValueError)
  }

  // ---------------------------------------------------------------------------------------------
  // CannotBe

  predicate IsSplitWord(t: Token) {
    var w := Lower(t.text);
    w == "while" || w == "and" || w == "or" || w == "but"
  }

  /** The search loop for the split word among the tokens after the trigger. */
  method FindSplitWord(after: seq<Token>) returns (splitIndex: Option<nat>)
    ensures splitIndex == FirstWhere(after, 0, IsSplitWord)
  {
    splitIndex := None;
    var idx := 0;
    while idx < |after|
      invariant idx <= |after|
      invariant FirstWhere(after, 0, IsSplitWord) == FirstWhere(after, idx, IsSplitWord)
    {
      if IsSplitWord(after[idx]) {
        splitIndex := Some(idx);
        return;
      }
      idx := idx + 1;
    }
  }

  /** The tokens before the trigger that form the left argument when there is no usable split word:
      the last three, or all of them when there are fewer. */
  function Context(doc: Doc, start: nat): (r: seq<Token>)
    requires start <= |doc|
    ensures |r| == Min(3, start) && r == doc[start - |r|..start]
  {
    doc[(if start >= 3 then start - 3 else 0)..start]
  }

  /** The left and right token lists of a "cannot be" trigger ending before `end`. */
  function CannotBeArguments(doc: Doc, start: nat, end: nat): (r: (seq<Token>, seq<Token>))
    requires start <= end <= |doc|
  {
    var after := doc[end..];
    match FirstWhere(after, 0, IsSplitWord)
    case Some(k) => if k > 0 then (after[..k], after[k + 1..]) else (Context(doc, start), after)
    case None => (Context(doc, start), after)
  }

  /** `CannotBePattern._generate_structured_explanation`: an empty span has no last token (an
      IndexError); otherwise the split rule, with punctuation kept on the left and dropped on the
      right. */
  function CannotBe(doc: Doc, sp: Span, highlights: seq<string>, rel: Relation): (o: Outcome)
    requires ValidSpan(doc, sp)
    ensures sp.start == sp.end ==> o == Raised(IndexError)
    ensures sp.start < sp.end ==>
      var args := CannotBeArguments(doc, sp.start, sp.end);
      Extracted(o, Strip(JoinTexts(args.0)), Strip(JoinTexts(Filter(args.1, (t: Token) => !t.isPunct))),
                highlights, rel, false)
  {
    if sp.start == sp.end then Raised(IndexError)
    else
      var args := CannotBeArguments(doc, sp.start, sp.end);
      var l, r := Strip(JoinTexts(args.0)), Strip(JoinTexts(Filter(args.1, (t: Token) => !t.isPunct)));
      FinishExtracted(l, r, highlights, rel, false);
      Finish(l, r, highlights, rel, false)
  }

  /** The imperative extraction: the split-word search loop, then the argument strings and the
      grounding loop. */
  method GenerateCannotBe(doc: Doc, sp: Span, highlights: seq<string>, rel: Relation) returns (o: Outcome)
    requires ValidSpan(doc, sp)
    ensures o == CannotBe(doc, sp, highlights, rel)
  {
    if sp.start == sp.end {
      return Raised(IndexError);
    }
    var after := doc[sp.end..];
    var splitIndex := FindSplitWord(after);
    var leftTokens, rightTokens;
    if splitIndex.Some? && splitIndex.value > 0 {
      leftTokens, rightTokens := after[..splitIndex.value], after[splitIndex.value + 1..];
    } else {
      leftTokens, rightTokens := Context(doc, sp.start), after;
    }
    var l, r := GetGroundedTerms(Strip(JoinTexts(leftTokens)),
                                 Strip(JoinTexts(Filter(rightTokens, (t: Token) => !t.isPunct))), highlights);
    if l == "" || r == "" {
      return Raised(ValueError);
    }
    o := Produced(Explanation(rel, [Phrase(l), Phrase(r)], false));
  }

  /** The split rule: a split word found after the first token following the trigger divides the
      tokens after the trigger around it; otherwise the left argument is the last (at most three)
      tokens before the trigger and the right argument is everything after it. */
  lemma CannotBeSplitRule(doc: Doc, start: nat, end: nat)
    requires start <= end <= |doc|
    ensures var args := CannotBeArguments(doc, start, end);
      var after := doc[end..];
      || (exists k :: 0 < k < |after| && IsSplitWord(after[k])
            && (forall i :: 0 <= i < k ==> !IsSplitWord(after[i]))
            && args.0 == after[..k] && args.1 == after[k + 1..])
      || ((after == [] || IsSplitWord(after[0]) || forall i :: 0 <= i < |after| ==> !IsSplitWord(after[i]))
            && |args.0| == Min(3, start) && args.0 == doc[start - |args.0|..start] && args.1 == after)
  {
  }

  /** The trigger spans of the "cannot be" family: each case-insensitive match of the keys in the
      text, turned into the tokens it covers; a match that does not start and end on token
      boundaries is dropped. */
  function AlignedSpans(doc: Doc, ms: seq<Match>): (r: seq<Span>)
    ensures |r| <= |ms|
    ensures forall j :: 0 <= j < |r| ==> ValidSpan(doc, r[j]) && r[j].start < r[j].end
    decreases |ms|
  {
    if ms == [] then []
    else
      var init := AlignedSpans(doc, ms[..|ms| - 1]);
      var last := ms[|ms| - 1];
      match CharSpan(doc, last.start, last.end)
      case Some(sp) => init + [sp]
      case None => init
  }

  /** `CannotBePattern._find_pattern_tokens`. */
  method FindCannotBeSpans(doc: Doc, keys: seq<string>) returns (spans: seq<Span>)
    ensures spans == AlignedSpans(doc, FindIterIgnoreCase(DocText(doc), keys))
  {
    var matches := FindIterIgnoreCase(DocText(doc), keys);
    spans := [];
    for k := 0 to |matches|
      invariant spans == AlignedSpans(doc, matches[..k])
    {
      assert matches[..k + 1][..k] == matches[..k];
      var span := CharSpan(doc, matches[k].start, matches[k].end);
      if span.Some? {
        spans := spans + [span.value];
      }
    }
    assert matches[..|matches|] == matches;
  }

  /** Every kept span is the token run of one of the matches. */
  lemma {:induction false} AlignedSpansFromMatches(doc: Doc, ms: seq<Match>)
    ensures forall sp :: sp in AlignedSpans(doc, ms) ==>
      exists k :: 0 <= k < |ms| && CharSpan(doc, ms[k].start, ms[k].end) == Some(sp)
    decreases |ms|
  {
    if ms != [] {
      var init := ms[..|ms| - 1];
      var last := ms[|ms| - 1];
      AlignedSpansFromMatches(doc, init);
      forall sp | sp in AlignedSpans(doc, ms)
        ensures exists k :: 0 <= k < |ms| && CharSpan(doc, ms[k].start, ms[k].end) == Some(sp)
      {
        if sp in AlignedSpans(doc, init) {
          var k :| 0 <= k < |init| && CharSpan(doc, init[k].start, init[k].end) == Some(sp);
          assert ms[k] == init[k];
        } else {
          assert CharSpan(doc, last.start, last.end) == Some(sp);
        }
      }
    }
  }

  // ---------------------------------------------------------------------------------------------
  // The copula classification hook

  const Forbidden: seq<string> :=
    ["rephrasing", "rephrase", "synonym", "equivalent", "type", "kind", "sort", "form", "same", "exchanged"]

  /** Some forbidden word is a substring of `s` (not necessarily a whole word). */
  predicate MentionsForbidden(s: string) {
    exists j :: 0 <= j < |Forbidden| && Contains(s, Forbidden[j])
  }

  predicate IsNominal(t: Token) {
    t.pos == "NOUN" || t.pos == "PROPN"
  }

  predicate IsComplement(t: Token) {
    t.dep == "attr" || t.dep == "acomp"
  }

  /** `" ".join(tok.lemma_.lower() for tok in ts)`. */
  function LemmaText(ts: seq<Token>): string {
    Join(" ", seq(|ts|, i requires 0 <= i < |ts| => Lower(ts[i].lemmaForm)))
  }

  /** What one token contributes to `_find_additional_classifications`: nothing (`NoValue`), an
      explanation, or the ValueError that ends the whole call. */
  function CopulaAt(doc: Doc, k: nat, highlights: seq<string>, rel: Relation, negate: bool): (o: Outcome)
    requires WellFormed(doc) && k < |doc|
    ensures !(doc[k].lemmaForm == "be" && doc[k].dep == "ROOT") ==> o == NoValue
    ensures o.Raised? ==> o.err == ValueError
    ensures o.Produced? ==>
      && o.e.relationship == rel && o.e.negated == negate && |o.e.predicates| == 2
      && o.e.predicates[0].Phrase? && o.e.predicates[1].Phrase?
      && o.e.predicates[0].text != "" && o.e.predicates[1].text != ""
  {
    var t := doc[k];
    if !(t.lemmaForm == "be" && t.dep == "ROOT") then NoValue
    else
      assert TokenFits(doc, k);
      var kids := Tokens(doc, t.children);
      match (FirstWhere(kids, 0, (c: Token) => c.dep == "nsubj"), FirstWhere(kids, 0, IsComplement))
      case (Some(s), Some(c)) =>
        var subj, comp := t.children[s], t.children[c];
        if !(IsNominal(doc[subj]) && IsNominal(doc[comp])) then NoValue
        else
          assert TokenFits(doc, subj) && TokenFits(doc, comp);
          if MentionsForbidden(LemmaText(Tokens(doc, doc[comp].subtree))) then NoValue
          else
            var l, r := JoinTexts(Tokens(doc, doc[subj].subtree)), JoinTexts(Tokens(doc, doc[comp].subtree));
            FinishExtracted(l, r, highlights, rel, negate);
            Finish(l, r, highlights, rel, negate)
      case _ => NoValue
  }

  /** The copula hook's subject and complement: the first `nsubj` child and the first `attr` or
      `acomp` child of a root `be`, both nominal. */
  predicate CopulaPair(doc: Doc, k: nat, subj: nat, comp: nat)
    requires WellFormed(doc) && k < |doc|
  {
    assert TokenFits(doc, k);
    var kids := doc[k].children;
    && doc[k].lemmaForm == "be" && doc[k].dep == "ROOT"
    && (exists s :: 0 <= s < |kids| && kids[s] == subj && doc[subj].dep == "nsubj"
          && forall i :: 0 <= i < s ==> doc[kids[i]].dep != "nsubj")
    && (exists c :: 0 <= c < |kids| && kids[c] == comp && IsComplement(doc[comp])
          && forall i :: 0 <= i < c ==> !IsComplement(doc[kids[i]]))
    && IsNominal(doc[subj]) && IsNominal(doc[comp])
  }

  /** A token yields something exactly when it is a root `be` whose first subject and first
      complement are nominal and the complement's lemma text mentions no forbidden word; then the
      two sides are the subtree texts of the subject and of the complement, grounded. */
  lemma CopulaCases(doc: Doc, k: nat, highlights: seq<string>, rel: Relation, negate: bool)
    requires WellFormed(doc) && k < |doc|
    ensures var o := CopulaAt(doc, k, highlights, rel, negate);
      !o.NoValue? <==> (exists subj: nat, comp: nat :: subj < |doc| && comp < |doc| && CopulaPair(doc, k, subj, comp)
                          && InDoc(doc, doc[comp].subtree) && !MentionsForbidden(LemmaText(Tokens(doc, doc[comp].subtree))))
    ensures var o := CopulaAt(doc, k, highlights, rel, negate);
      !o.NoValue? ==> (exists subj: nat, comp: nat :: subj < |doc| && comp < |doc| && CopulaPair(doc, k, subj, comp)
                         && InDoc(doc, doc[subj].subtree) && InDoc(doc, doc[comp].subtree)
                         && Extracted(o, JoinTexts(Tokens(doc, doc[subj].subtree)),
                                      JoinTexts(Tokens(doc, doc[comp].subtree)), highlights, rel, negate))
  {
    var o := CopulaAt(doc, k, highlights, rel, negate);
    var t := doc[k];
    assert TokenFits(doc, k);
    if t.lemmaForm == "be" && t.dep == "ROOT" {
      var kids := Tokens(doc, t.children);
      var fs := FirstWhere(kids, 0, (c: Token) => c.dep == "nsubj");
      var fc := FirstWhere(kids, 0, IsComplement);
      if fs.Some? && fc.Some? {
        var subj, comp := t.children[fs.value], t.children[fc.value];
        assert TokenFits(doc, subj) && TokenFits(doc, comp);
        if IsNominal(doc[subj]) && IsNominal(doc[comp]) {
          assert CopulaPair(doc, k, subj, comp);
          if !MentionsForbidden(LemmaText(Tokens(doc, doc[comp].subtree))) {
            FinishExtracted(JoinTexts(Tokens(doc, doc[subj].subtree)), JoinTexts(Tokens(doc, doc[comp].subtree)),
                            highlights, rel, negate);
          }
        }
        CopulaPairUnique(doc, k, subj, comp);
      } else {
        CopulaPairNeedsChildren(doc, k);
      }
    }
  }

  /** The first subject and the first complement are unique. */
  lemma CopulaPairUnique(doc: Doc, k: nat, subj: nat, comp: nat)
    requires WellFormed(doc) && k < |doc| && TokenFits(doc, k)
    requires var kids := doc[k].children;
      exists s :: 0 <= s < |kids| && kids[s] == subj && doc[subj].dep == "nsubj"
        && forall i :: 0 <= i < s ==> doc[kids[i]].dep != "nsubj"
    requires var kids := doc[k].children;
      exists c :: 0 <= c < |kids| && kids[c] == comp && IsComplement(doc[comp])
        && forall i :: 0 <= i < c ==> !IsComplement(doc[kids[i]])
    ensures forall s2: nat, c2: nat :: s2 < |doc| && c2 < |doc| && CopulaPair(doc, k, s2, c2) ==> s2 == subj && c2 == comp
  {
    var kids := doc[k].children;
    forall s2: nat, c2: nat | s2 < |doc| && c2 < |doc| && CopulaPair(doc, k, s2, c2) ensures s2 == subj && c2 == comp {
      var s :| 0 <= s < |kids| && kids[s] == subj && doc[subj].dep == "nsubj"
        && forall i :: 0 <= i < s ==> doc[kids[i]].dep != "nsubj";
      var s' :| 0 <= s' < |kids| && kids[s'] == s2 && doc[s2].dep == "nsubj"
        && forall i :: 0 <= i < s' ==> doc[kids[i]].dep != "nsubj";
      assert s == s';
      var c :| 0 <= c < |kids| && kids[c] == comp && IsComplement(doc[comp])
        && forall i :: 0 <= i < c ==> !IsComplement(doc[kids[i]]);
      var c' :| 0 <= c' < |kids| && kids[c'] == c2 && IsComplement(doc[c2])
        && forall i :: 0 <= i < c' ==> !IsComplement(doc[kids[i]]);
      assert c == c';
    }
  }

  /** Without a subject child or a complement child there is no pair. */
  lemma CopulaPairNeedsChildren(doc: Doc, k: nat)
    requires WellFormed(doc) && k < |doc| && TokenFits(doc, k)
    requires var kids := Tokens(doc, doc[k].children);
      FirstWhere(kids, 0, (c: Token) => c.dep == "nsubj").None? || FirstWhere(kids, 0, IsComplement).None?
    ensures forall subj: nat, comp: nat :: subj < |doc| && comp < |doc| ==> !CopulaPair(doc, k, subj, comp)
  {
  }

  /** What each token of the document contributes to the hook. */
  function CopulaOutcomes(doc: Doc, highlights: seq<string>, rel: Relation, negate: bool): (os: seq<Outcome>)
    requires WellFormed(doc)
    ensures |os| == |doc| && forall k :: 0 <= k < |doc| ==> os[k] == CopulaAt(doc, k, highlights, rel, negate)
  {
    seq(|doc|, k requires 0 <= k < |doc| => CopulaAt(doc, k, highlights, rel, negate))
  }

  /** Collecting per-token outcomes in order: the explanations produced, or the first error. */
  function Collect(os: seq<Outcome>): Result<seq<Explanation>>
    decreases |os|
  {
    if os == [] then Ok([])
    else
      match Collect(os[..|os| - 1])
      case Err(e) => Err(e)
      case Ok(es) =>
        match os[|os| - 1]
        case Produced(e) => Ok(es + [e])
        case NoValue => Ok(es)
        case Raised(err) => Err(err)
  }

  /** `_find_additional_classifications`: the explanations of the document's copulas in token order,
      or the first error. */
  function Classifications(doc: Doc, highlights: seq<string>, rel: Relation, negate: bool): Result<seq<Explanation>>
    requires WellFormed(doc)
  {
    Collect(CopulaOutcomes(doc, highlights, rel, negate))
  }

  /** `ClassificationPattern._find_additional_classifications`: the loop over the tokens, which a
      ValueError ends. */
  method FindAdditionalClassifications(doc: Doc, highlights: seq<string>, rel: Relation, negate: bool)
    returns (r: Result<seq<Explanation>>)
    requires WellFormed(doc)
    ensures r == Classifications(doc, highlights, rel, negate)
  {
    ghost var os := CopulaOutcomes(doc, highlights, rel, negate);
    var explanations := [];
    for k := 0 to |doc|
      invariant Collect(os[..k]) == Ok(explanations)
    {
      assert os[..k + 1][..k] == os[..k];
      var o := CopulaAt(doc, k, highlights, rel, negate);
      if o.Raised? {
        CollectErrStays(os, k + 1, |doc|);
        assert os[..|doc|] == os;
        return Err(o.err);
      }
      if o.Produced? {
        explanations := explanations + [o.e];
      }
    }
    assert os[..|doc|] == os;
    r := Ok(explanations);
  }

  /** Once an error is met, later outcomes change nothing. */
  lemma {:induction false} CollectErrStays(os: seq<Outcome>, n: nat, m: nat)
    requires n <= m <= |os|
    requires Collect(os[..n]).Err?
    ensures Collect(os[..m]) == Collect(os[..n])
    decreases m
  {
    if m > n {
      CollectErrStays(os, n, m - 1);
      assert os[..m][..m - 1] == os[..m - 1];
    }
  }

  /** Collecting fails exactly when some outcome raises, and then with the first such error. */
  lemma {:induction false} CollectErr(os: seq<Outcome>)
    ensures Collect(os).Err? <==> exists k :: 0 <= k < |os| && os[k].Raised?
    ensures Collect(os).Err? ==> (exists k :: 0 <= k < |os| && os[k].Raised? && Collect(os).error == os[k].err
                                    && forall j :: 0 <= j < k ==> !os[j].Raised?)
    decreases |os|
  {
    if os != [] {
      var init := os[..|os| - 1];
      CollectErr(init);
      assert forall k :: 0 <= k < |init| ==> init[k] == os[k];
    }
  }

  /** Collecting keeps exactly the produced explanations, in order. */
  lemma {:induction false} CollectOk(os: seq<Outcome>)
    requires Collect(os).Ok?
    ensures var es := Collect(os).value;
      |es| <= |os| && forall j :: 0 <= j < |es| ==> exists k :: 0 <= k < |os| && os[k] == Produced(es[j])
    decreases |os|
  {
    if os != [] {
      var init := os[..|os| - 1];
      CollectOk(init);
      var es := Collect(os).value;
      var ei := Collect(init).value;
      forall j | 0 <= j < |es| ensures exists k :: 0 <= k < |os| && os[k] == Produced(es[j]) {
        if j < |ei| {
          var k :| 0 <= k < |init| && init[k] == Produced(ei[j]);
          assert os[k] == init[k];
        } else {
          assert os[|os| - 1] == Produced(es[j]);
        }
      }
    }
  }

  /** The hook fails, always with a ValueError, exactly when some token's classification raises;
      otherwise every explanation it returns comes from one of the document's copulas and has the
      pattern's relationship and negation and two non-empty phrases. */
  lemma ClassificationsOutcome(doc: Doc, highlights: seq<string>, rel: Relation, negate: bool)
    requires WellFormed(doc)
    ensures var r := Classifications(doc, highlights, rel, negate);
      && (r.Err? <==> exists k :: 0 <= k < |doc| && CopulaAt(doc, k, highlights, rel, negate).Raised?)
      && (r.Err? ==> r.error == ValueError)
    ensures var r := Classifications(doc, highlights, rel, negate);
      r.Ok? ==> |r.value| <= |doc| && forall j :: 0 <= j < |r.value| ==>
        && (exists k :: 0 <= k < |doc| && CopulaAt(doc, k, highlights, rel, negate) == Produced(r.value[j]))
        && r.value[j].relationship == rel && r.value[j].negated == negate
        && |r.value[j].predicates| == 2
        && r.value[j].predicates[0].Phrase? && r.value[j].predicates[1].Phrase?
        && r.value[j].predicates[0].text != "" && r.value[j].predicates[1].text != ""
  {
    var os := CopulaOutcomes(doc, highlights, rel, negate);
    CollectErr(os);
    if Collect(os).Ok? {
      CollectOk(os);
      var es := Collect(os).value;
      forall j | 0 <= j < |es|
        ensures es[j].relationship == rel && es[j].negated == negate && |es[j].predicates| == 2
        ensures es[j].predicates[0].Phrase? && es[j].predicates[1].Phrase?
        ensures es[j].predicates[0].text != "" && es[j].predicates[1].text != ""
      {
        var k :| 0 <= k < |os| && os[k] == Produced(es[j]);
        assert CopulaAt(doc, k, highlights, rel, negate).Produced?;
      }
    }
  }
}
