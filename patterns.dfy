/**
 * The pattern classes and `AbstractPattern.__call__`: each pattern is a trigger table (regular
 * expression key to anchor word, iterated in insertion order), a relationship symbol, a negation
 * flag and the family whose extraction it uses. A call finds the trigger spans, extracts one
 * explanation per span (skipping spans whose extraction raises), appends what the copula hook
 * finds, and folds everything into one conjunction.
 */
module Patterns {
  import opened Wrappers
  import opened Strings
  import opened Documents
  import opened Explanations
  import opened Extraction
  import opened Vocabulary
  import opened Matching
  import opened Families

  /** Which `_generate_structured_explanation` (and which `_find_pattern_tokens`) a pattern uses.
      The `AsWritten` families are the Rephrasing and XOR extractions as the code stands. */
  datatype Family =
    | RephrasingFamily | RephrasingAsWrittenFamily | ImplicationFamily | EquivalenceFamily
    | ClassificationFamily | IfThenFamily | XorFamily | XorAsWrittenFamily | CannotBeFamily | NotAllFamily

  /** A pattern object after its constructor: `entries` lists the table's assignments in program
      order, so `Table(entries)` is `self.patterns` and `Keys(entries)` its iteration order. */
  datatype Matcher = Matcher(family: Family, entries: seq<Entry>, relationship: Relation, negate: bool)

  // ---------------------------------------------------------------------------------------------
  // The pattern classes

  /** `RephrasingPattern` as the code stands: its extraction appends the trigger's words to both
      arguments. */
  function RephrasingPattern(): Matcher {
    Matcher(RephrasingAsWrittenFamily, RephrasingEntries, Iff, false)
  }

  /** `RephrasingPattern` with the trigger's words dropped from the arguments. */
  function RephrasingPatternCorrected(): Matcher {
    Matcher(RephrasingFamily, RephrasingEntries, Iff, false)
  }

  /** `NotRephrasingPattern` as the code stands: `not` after the first word of every key, negated,
      and the inherited extraction that appends the trigger's words. */
  function NotRephrasingPattern(): Matcher {
    Matcher(RephrasingAsWrittenFamily, RewriteKeys(RephrasingEntries, InsertNot), Iff, true)
  }

  /** `NotRephrasingPattern` over the corrected extraction. */
  function NotRephrasingPatternCorrected(): Matcher {
    Matcher(RephrasingFamily, RewriteKeys(RephrasingEntries, InsertNot), Iff, true)
  }

  function ImplicationPattern(lex: Lexicon): Matcher
    requires ValidLexicon(lex, ImplicationSeeds)
  {
    Matcher(ImplicationFamily, AllInflectedWrites(ImplicationSeeds, lex), Implies, false)
  }

  function NotImplicationPattern(lex: Lexicon): Matcher
    requires ValidLexicon(lex, ImplicationSeeds)
  {
    Matcher(ImplicationFamily, AllNegativeWrites(ImplicationSeeds, lex), Implies, true)
  }

  function NeutralImplicationPattern(lex: Lexicon): Matcher
    requires ValidLexicon(lex, NeutralImplicationSeeds)
  {
    Matcher(ImplicationFamily, AllNegativeWrites(NeutralImplicationSeeds, lex), Implies, true)
  }

  function EquivalencePattern(): Matcher {
    Matcher(EquivalenceFamily, EquivalenceEntries, Subset, false)
  }

  /** `NotEquivalencePattern`: every key prefixed with `not`, relationship `⊈`. */
  function NotEquivalencePattern(): Matcher {
    Matcher(EquivalenceFamily, RewriteKeys(EquivalenceEntries, PrefixNot), NotSubset, false)
  }

  function ClassificationPattern(): Matcher {
    Matcher(ClassificationFamily, ClassificationEntries, Subset, false)
  }

  /** `NotClassificationPattern`: prefixed keys, relationship `⊈`, and the inherited copula hook. */
  function NotClassificationPattern(): Matcher {
    Matcher(ClassificationFamily, RewriteKeys(ClassificationEntries, PrefixNot), NotSubset, false)
  }

  function IfThenPattern(): Matcher {
    Matcher(IfThenFamily, IfThenEntries, Conditional, false)
  }

  /** `XORPattern` as the code stands: its extraction returns `None` without `either` before `or`. */
  function XorPattern(): Matcher {
    Matcher(XorAsWrittenFamily, XorEntries, Xor, false)
  }

  /** `XORPattern` with that case raising ValueError instead. */
  function XorPatternCorrected(): Matcher {
    Matcher(XorFamily, XorEntries, Xor, false)
  }

  function CannotBePattern(): Matcher {
    Matcher(CannotBeFamily, CannotBeEntries, Xor, false)
  }

  function NotAllPattern(): Matcher {
    Matcher(NotAllFamily, NotAllEntries, NotSuperset, false)
  }

  // ---------------------------------------------------------------------------------------------
  // One call

  /** `_find_pattern_tokens`: the windows of the `findall` matches of the keys, or, for "cannot be",
      the token runs of the case-insensitive `finditer` matches. */
  function Spans(m: Matcher, doc: Doc): (r: seq<Span>)
    ensures forall i :: 0 <= i < |r| ==> ValidSpan(doc, r[i])
  {
    if m.family == CannotBeFamily then AlignedSpans(doc, FindIterIgnoreCase(DocText(doc), Keys(m.entries)))
    else Windows(doc, Scan(FitsIn(doc), |doc|, 0, FindAll(DocText(doc), Keys(m.entries))))
  }

  /** `self.patterns.get(str(toks), None)`. */
  function Anchor(m: Matcher, doc: Doc, sp: Span): Option<string>
    requires ValidSpan(doc, sp)
  {
    var t := Table(m.entries);
    var key := SpanText(doc, sp);
    if key in t then Some(t[key]) else None
  }

  /** `self._generate_structured_explanation(anchor_word, doc, toks, highlights)` of the pattern's
      family; only the XOR extraction as written can return `None`. */
  function Extract(m: Matcher, doc: Doc, sp: Span, highlights: seq<string>): (o: Outcome)
    requires WellFormed(doc) && ValidSpan(doc, sp)
    ensures m.family != XorAsWrittenFamily ==> !o.NoValue?
    ensures o.Raised? ==> o.err == ValueError || (m.family == CannotBeFamily && o.err == IndexError)
  {
    var anchor := Anchor(m, doc, sp);
    var rel := m.relationship;
    match m.family
    case RephrasingFamily => Rephrasing(doc, sp, anchor, highlights, rel, m.negate)
    case RephrasingAsWrittenFamily => RephrasingAsWritten(doc, sp, anchor, highlights, rel, m.negate)
    case ImplicationFamily => Implication(doc, sp, anchor, highlights, rel, m.negate)
    case EquivalenceFamily => Equivalence(doc, sp, anchor, highlights, rel)
    case ClassificationFamily => Classification(doc, sp, anchor, highlights, rel, m.negate)
    case IfThenFamily => IfThen(doc, highlights, rel, m.negate)
    case XorFamily => Exclusive(doc, highlights, rel)
    case XorAsWrittenFamily => ExclusiveAsWritten(doc, highlights, rel)
    case CannotBeFamily => CannotBe(doc, sp, highlights, rel)
    case NotAllFamily => NotAll(doc, highlights, rel)
  }

  /** The extraction outcome of every span, in order. */
  function Outcomes(m: Matcher, doc: Doc, spans: seq<Span>, highlights: seq<string>): (os: seq<Outcome>)
    requires WellFormed(doc) && forall i :: 0 <= i < |spans| ==> ValidSpan(doc, spans[i])
    ensures |os| == |spans| && forall i :: 0 <= i < |spans| ==> os[i] == Extract(m, doc, spans[i], highlights)
  {
    seq(|spans|, i requires 0 <= i < |spans| => Extract(m, doc, spans[i], highlights))
  }

  /** The list the loop builds: a produced explanation is appended, `None` is appended as it is, and a
      raised IndexError, StopIteration or ValueError skips the span. */
  function Kept(os: seq<Outcome>): seq<Predicate>
    decreases |os|
  {
    if os == [] then [] else Kept(os[..|os| - 1]) + KeptOne(os[|os| - 1])
  }

  /** What one span's outcome adds to the list. */
  function KeptOne(o: Outcome): seq<Predicate> {
    match o
    case Produced(e) => [Nested(e)]
    case NoValue => [Null]
    case Raised(_) => []
  }

  lemma KeptPrefix(os: seq<Outcome>, i: nat)
    requires i < |os|
    ensures Kept(os[..i + 1]) == Kept(os[..i]) + KeptOne(os[i])
  {
    assert os[..i + 1][..i] == os[..i];
  }

  /** The hook's explanations as predicates. */
  function AsPredicates(es: seq<Explanation>): (r: seq<Predicate>)
    ensures |r| == |es| && forall i :: 0 <= i < |es| ==> r[i] == Nested(es[i])
  {
    seq(|es|, i requires 0 <= i < |es| => Nested(es[i]))
  }

  /** `_find_additional_classifications`: only the classification family (and the negated one that
      inherits it) has a hook. */
  function Extras(m: Matcher, doc: Doc, highlights: seq<string>): Result<seq<Explanation>>
    requires WellFormed(doc)
  {
    if m.family == ClassificationFamily then Classifications(doc, highlights, m.relationship, m.negate)
    else Ok([])
  }

  /** The end of `__call__`: the hook's error, or the concatenation of the kept items followed by
      the hook's explanations. */
  function Assemble(items: seq<Predicate>, extras: Result<seq<Explanation>>): Result<Predicate> {
    match extras
    case Err(e) => Err(e)
    case Ok(es) => Ok(Conjoin(items + AsPredicates(es)))
  }

  /** `AbstractPattern.__call__`: a ValueError of the hook is not caught and ends the call. */
  function Call(m: Matcher, doc: Doc, highlights: seq<string>): Result<Predicate>
    requires WellFormed(doc)
  {
    Assemble(Kept(Outcomes(m, doc, Spans(m, doc), highlights)), Extras(m, doc, highlights))
  }

  /** `_find_pattern_tokens`, dispatched on the family. */
  method FindSpans(m: Matcher, doc: Doc) returns (spans: seq<Span>)
    ensures spans == Spans(m, doc)
  {
    if m.family == CannotBeFamily {
      spans := FindCannotBeSpans(doc, Keys(m.entries));
    } else {
      spans := FindPatternTokens(doc, FindAll(DocText(doc), Keys(m.entries)));
    }
  }

  /** `_find_additional_classifications`, dispatched on the family. */
  method FindExtras(m: Matcher, doc: Doc, highlights: seq<string>) returns (r: Result<seq<Explanation>>)
    requires WellFormed(doc)
    ensures r == Extras(m, doc, highlights)
  {
    if m.family == ClassificationFamily {
      r := FindAdditionalClassifications(doc, highlights, m.relationship, m.negate);
    } else {
      r := Ok([]);
    }
  }

  /** The extraction loop of `__call__` with its exception handler. */
  method ExtractAll(m: Matcher, doc: Doc, spans: seq<Span>, highlights: seq<string>) returns (explanations: seq<Predicate>)
    requires WellFormed(doc) && forall i :: 0 <= i < |spans| ==> ValidSpan(doc, spans[i])
    ensures explanations == Kept(Outcomes(m, doc, spans, highlights))
  {
    ghost var os := Outcomes(m, doc, spans, highlights);
    explanations := [];
    for i := 0 to |spans|
      invariant explanations == Kept(os[..i])
    {
      KeptPrefix(os, i);
      var o := Extract(m, doc, spans[i], highlights);
      match o
      case Produced(e) => explanations := explanations + [Nested(e)];
      case NoValue => explanations := explanations + [Null];
      case Raised(_) =>
    }
    assert os[..|spans|] == os;
  }

  /** `AbstractPattern.__call__`: trigger discovery, the extraction loop, the hook and the
      concatenation. */
  method Invoke(m: Matcher, doc: Doc, highlights: seq<string>) returns (r: Result<Predicate>)
    requires WellFormed(doc)
    ensures r == Call(m, doc, highlights)
  {
    var spans := FindSpans(m, doc);
    var explanations := ExtractAll(m, doc, spans, highlights);
    var extra := FindExtras(m, doc, highlights);
    if extra.Err? {
      return Err(extra.error);
    }
    var folded := Concatenate(explanations + AsPredicates(extra.value));
    r := Ok(folded);
  }

  // ---------------------------------------------------------------------------------------------
  // What a call promises

  /** The loop keeps every span that does not raise, in order: a `None` only for an outcome that is
      `None`, and otherwise the explanation produced. */
  lemma {:induction false} KeptOutcomes(os: seq<Outcome>)
    ensures |Kept(os)| <= |os|
    ensures (forall k :: 0 <= k < |os| ==> !os[k].Raised?) ==> |Kept(os)| == |os|
    ensures Null in Kept(os) <==> exists k :: 0 <= k < |os| && os[k].NoValue?
    ensures forall p :: p in Kept(os) && p != Null ==> p.Nested? && exists k :: 0 <= k < |os| && os[k] == Produced(p.expl)
    decreases |os|
  {
    if os != [] {
      var init := os[..|os| - 1];
      KeptOutcomes(init);
      assert forall k :: 0 <= k < |init| ==> init[k] == os[k];
    }
  }

  /** Spans whose extraction raises contribute nothing. */
  lemma {:induction false} KeptSkipsRaised(os: seq<Outcome>)
    requires forall k :: 0 <= k < |os| ==> os[k].Raised?
    ensures Kept(os) == []
    decreases |os|
  {
    if os != [] {
      KeptSkipsRaised(os[..|os| - 1]);
    }
  }

  /** Outcomes that are all `None` are kept as that many `None`s. */
  lemma {:induction false} KeptNoValues(os: seq<Outcome>)
    requires forall k :: 0 <= k < |os| ==> os[k].NoValue?
    ensures Kept(os) == seq(|os|, _ => Null)
    decreases |os|
  {
    if os != [] {
      KeptNoValues(os[..|os| - 1]);
    }
  }

  /** A call fails exactly when the copula hook raises, which only the classification families have. */
  lemma CallFails(m: Matcher, doc: Doc, highlights: seq<string>)
    requires WellFormed(doc)
    ensures Call(m, doc, highlights).Err? <==>
      m.family == ClassificationFamily &&
      exists k :: 0 <= k < |doc| && CopulaAt(doc, k, highlights, m.relationship, m.negate).Raised?
  {
    ClassificationsOutcome(doc, highlights, m.relationship, m.negate);
  }

  /** The folded result lists the items in order along its left spine. */
  lemma AssembleShape(items: seq<Predicate>, extras: Result<seq<Explanation>>)
    requires extras.Ok?
    ensures var all := items + AsPredicates(extras.value);
      && Assemble(items, extras).Ok?
      && (|all| >= 1 ==> Spine(Assemble(items, extras).value, |all| - 1) == all)
      && (|all| == 0 ==> Assemble(items, extras).value == Nested(Empty))
  {
    var all := items + AsPredicates(extras.value);
    if |all| >= 1 {
      ConjoinSpine(all);
    }
  }

  /** Otherwise its result is the left-nested conjunction of the kept extractions followed by the
      hook's explanations, at most one item per span and per token. */
  lemma CallShape(m: Matcher, doc: Doc, highlights: seq<string>)
    requires WellFormed(doc) && Call(m, doc, highlights).Ok?
    ensures var items := Kept(Outcomes(m, doc, Spans(m, doc), highlights)) + AsPredicates(Extras(m, doc, highlights).value);
      && |items| <= |Spans(m, doc)| + |doc|
      && (|items| >= 1 ==> Spine(Call(m, doc, highlights).value, |items| - 1) == items)
      && (|items| == 0 ==> Call(m, doc, highlights).value == Nested(Empty))
  {
    var os := Outcomes(m, doc, Spans(m, doc), highlights);
    var extras := Extras(m, doc, highlights);
    assert Call(m, doc, highlights) == Assemble(Kept(os), extras);
    assert extras.Ok?;
    assert |Kept(os)| <= |Spans(m, doc)| by {
      KeptLength(os);
    }
    assert |extras.value| <= |doc| by {
      ExtrasBound(m, doc, highlights);
    }
    AssembleShape(Kept(os), extras);
  }

  lemma {:induction false} KeptLength(os: seq<Outcome>)
    ensures |Kept(os)| <= |os|
    decreases |os|
  {
    if os != [] {
      KeptLength(os[..|os| - 1]);
    }
  }

  /** The hook yields at most one explanation per token. */
  lemma ExtrasBound(m: Matcher, doc: Doc, highlights: seq<string>)
    requires WellFormed(doc)
    ensures Extras(m, doc, highlights).Ok? ==> |Extras(m, doc, highlights).value| <= |doc|
  {
    if m.family == ClassificationFamily {
      ClassificationsOutcome(doc, highlights, m.relationship, m.negate);
    }
  }

  /** With every family but the XOR extraction as written, no `None` reaches the conjunction. */
  lemma NoNullWithoutXorAsWritten(m: Matcher, doc: Doc, highlights: seq<string>)
    requires WellFormed(doc) && m.family != XorAsWrittenFamily
    ensures Null !in Kept(Outcomes(m, doc, Spans(m, doc), highlights))
  {
    KeptOutcomes(Outcomes(m, doc, Spans(m, doc), highlights));
  }

  /** Outside "cannot be", every trigger span's text is a key of the table, so its anchor lookup
      always finds a label (the `None` default of `patterns.get` is never used). */
  lemma AnchorAlwaysFound(m: Matcher, doc: Doc, i: nat)
    requires m.family != CannotBeFamily && i < |Spans(m, doc)|
    ensures SpanText(doc, Spans(m, doc)[i]) in Keys(m.entries)
    ensures SpanText(doc, Spans(m, doc)[i]) in Table(m.entries) &&
      Anchor(m, doc, Spans(m, doc)[i]) == Some(Table(m.entries)[SpanText(doc, Spans(m, doc)[i])])
  {
    var matches := FindAll(DocText(doc), Keys(m.entries));
    PatternTokensFromPool(doc, matches);
    KeysOfTable(m.entries);
  }

  /** The "cannot be" spans each cover a case-insensitive occurrence of one of its keys in the
      document's text. */
  lemma CannotBeSpansMatchKeys(doc: Doc, sp: Span)
    requires sp in Spans(CannotBePattern(), doc)
    ensures exists ms: Match ::
      && CharSpan(doc, ms.start, ms.end) == Some(sp) && ms.start <= ms.end <= |DocText(doc)|
      && Lower(DocText(doc)[ms.start..ms.end]) in LowerAll(Keys(CannotBeEntries))
  {
    var ms := FindIterIgnoreCase(DocText(doc), Keys(CannotBeEntries));
    AlignedSpansFromMatches(doc, ms);
    var k :| 0 <= k < |ms| && CharSpan(doc, ms[k].start, ms[k].end) == Some(sp);
    assert ms[k].start <= ms[k].end <= |DocText(doc)|;
  }

  // ---------------------------------------------------------------------------------------------
  // XOR returning None

  /** As written, XOR on a document without `either` before `or` yields one `None` per trigger
      span; two or more such spans fold into a truthy conjunction of `None`s, and a single one makes
      the whole call return `None`. */
  lemma XorAsWrittenLeaksNone(doc: Doc, highlights: seq<string>)
    requires WellFormed(doc) && !Ordered(doc, "either", "or")
    ensures var n := |Spans(XorPattern(), doc)|;
      && Call(XorPattern(), doc, highlights) == Ok(Conjoin(seq(n, _ => Null)))
      && (n == 1 ==> Call(XorPattern(), doc, highlights) == Ok(Null))
      && (n >= 2 ==> var p := Call(XorPattern(), doc, highlights).value;
            p.Nested? && Explanations.Truthy(p.expl) && p.expl.relationship == And && Null in p.expl.predicates)
  {
    var m := XorPattern();
    var os := Outcomes(m, doc, Spans(m, doc), highlights);
    XorAsWrittenOutcomes(doc, Spans(m, doc), highlights);
    assert Extras(m, doc, highlights) == Ok([]);
    AssembleNulls(os);
  }

  /** On such a document every span of the XOR extraction as written comes out `None`. */
  lemma XorAsWrittenOutcomes(doc: Doc, spans: seq<Span>, highlights: seq<string>)
    requires WellFormed(doc) && !Ordered(doc, "either", "or")
    requires forall i :: 0 <= i < |spans| ==> ValidSpan(doc, spans[i])
    ensures forall k :: 0 <= k < |spans| ==> Outcomes(XorPattern(), doc, spans, highlights)[k].NoValue?
  {
    var m := XorPattern();
    forall k | 0 <= k < |spans| ensures Outcomes(m, doc, spans, highlights)[k].NoValue? {
      assert Extract(m, doc, spans[k], highlights) == ExclusiveAsWritten(doc, highlights, m.relationship);
    }
  }

  /** Outcomes that are all `None` conjoin to a conjunction of `None`s. */
  lemma AssembleNulls(os: seq<Outcome>)
    requires forall k :: 0 <= k < |os| ==> os[k].NoValue?
    ensures var r := Assemble(Kept(os), Ok([]));
      && r == Ok(Conjoin(seq(|os|, _ => Null)))
      && (|os| == 1 ==> r == Ok(Null))
      && (|os| >= 2 ==>
            && r.value.Nested? && Explanations.Truthy(r.value.expl) && r.value.expl.relationship == And
            && Null in r.value.expl.predicates)
  {
    KeptNoValues(os);
    var nulls := seq(|os|, _ => Null);
    assert nulls + AsPredicates([]) == nulls;
    ConjoinTruthiness(nulls);
    if |os| >= 2 {
      ConjoinSpine(nulls);
      NullInSpine(Conjoin(nulls), |nulls| - 1);
    }
  }

  /** The right child of a two-place conjunction on the spine appears among its predicates. */
  lemma NullInSpine(p: Predicate, depth: nat)
    requires depth >= 1 && Spine(p, depth) != [] && Spine(p, depth)[|Spine(p, depth)| - 1] == Null
    ensures p.Nested? && Null in p.expl.predicates
  {
    assert p.expl.predicates[1] == Null;
  }

  /** XOR raising instead: on such a document the call yields the falsy empty explanation. */
  lemma XorSkipsUnordered(doc: Doc, highlights: seq<string>)
    requires WellFormed(doc) && !Ordered(doc, "either", "or")
    ensures Call(XorPatternCorrected(), doc, highlights) == Ok(Nested(Empty))
  {
    var m := XorPatternCorrected();
    var os := Outcomes(m, doc, Spans(m, doc), highlights);
    XorOutcomesRaised(doc, Spans(m, doc), highlights);
    KeptSkipsRaised(os);
    assert Extras(m, doc, highlights) == Ok([]);
    assert Assemble([], Ok([])) == Ok(Nested(Empty));
  }

  /** On such a document every span of the corrected XOR extraction raises. */
  lemma XorOutcomesRaised(doc: Doc, spans: seq<Span>, highlights: seq<string>)
    requires WellFormed(doc) && !Ordered(doc, "either", "or")
    requires forall i :: 0 <= i < |spans| ==> ValidSpan(doc, spans[i])
    ensures forall k :: 0 <= k < |spans| ==> Outcomes(XorPatternCorrected(), doc, spans, highlights)[k].Raised?
  {
    var m := XorPatternCorrected();
    forall k | 0 <= k < |spans| ensures Outcomes(m, doc, spans, highlights)[k].Raised? {
      assert Extract(m, doc, spans[k], highlights) == Exclusive(doc, highlights, m.relationship);
    }
  }

  // ---------------------------------------------------------------------------------------------
  // Rephrasing keeping its trigger

  /** As written, `RephrasingPattern` and `NotRephrasingPattern` turn every anchored span whose
      text has words into an explanation when there are no highlights: the appended trigger words
      keep both arguments non-empty. Only the negated class marks the result negated. */
  lemma RephrasingClassesKeepTrigger(negated: bool, doc: Doc, sp: Span)
    requires WellFormed(doc) && ValidSpan(doc, sp) && Split(SpanText(doc, sp)) != []
    requires var m := if negated then NotRephrasingPattern() else RephrasingPattern();
      AnchorToken(doc, sp, Anchor(m, doc, sp)).Some?
    ensures var m := if negated then NotRephrasingPattern() else RephrasingPattern();
      var o := Extract(m, doc, sp, []);
      o.Produced? && o.e.relationship == Iff && o.e.negated == negated
  {
    var m := if negated then NotRephrasingPattern() else RephrasingPattern();
    var anchor := Anchor(m, doc, sp);
    assert Extract(m, doc, sp, []) == RephrasingAsWritten(doc, sp, anchor, [], Iff, negated);
    RephrasingAsWrittenKeepsTrigger(doc, sp, anchor, Iff, negated);
  }
}
