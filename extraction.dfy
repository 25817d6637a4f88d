/**
 * The helpers every pattern family shares: trigger discovery over a pool of match strings, the
 * left and right token scanners, longest-first grounding against the highlights, and the common
 * tail of an extraction (ground both sides, refuse an empty one).
 */
module Extraction {
  import opened Wrappers
  import opened Strings
  import opened Sorting
  import opened Documents
  import opened Explanations

  /** What one extraction yields: an explanation, Python's `None`, or a raised error. */
  datatype Outcome = Produced(e: Explanation) | NoValue | Raised(err: Error)

  /** The tokens at which both scanners stop: punctuation or a conjunction. */
  predicate Stops(t: Token) {
    t.isPunct || t.dep == "punct" || t.pos == "CCONJ" || t.pos == "SCONJ"
  }

  /** The straight and curly double quotes. */
  predicate IsQuote(s: string) {
    s == "\"" || s == "\U{201C}" || s == "\U{201D}"
  }

  function Min(a: nat, b: nat): nat {
    if a < b then a else b
  }

  function Reversed<T>(s: seq<T>): (r: seq<T>)
    ensures |r| == |s| && forall k :: 0 <= k < |s| ==> r[k] == s[|s| - 1 - k]
    decreases |s|
  {
    if s == [] then [] else Reversed(s[1..]) + [s[0]]
  }

  lemma ReversedCons<T>(x: T, s: seq<T>)
    ensures Reversed([x] + s) == Reversed(s) + [x]
  {
    assert ([x] + s)[1..] == s;
  }

  lemma ReversedTwice<T>(s: seq<T>)
    ensures Reversed(Reversed(s)) == s
  {
  }

  /** The first index from `k` on whose token satisfies `p` (`next(tok for tok in doc if ...)`). */
  function FirstWhere(doc: Doc, k: nat, p: Token -> bool): (r: Option<nat>)
    requires k <= |doc|
    ensures r.Some? ==> k <= r.value < |doc| && p(doc[r.value])
    ensures r.Some? ==> forall j :: k <= j < r.value ==> !p(doc[j])
    ensures r.None? ==> forall j :: k <= j < |doc| ==> !p(doc[j])
    decreases |doc| - k
  {
    if k == |doc| then None else if p(doc[k]) then Some(k) else FirstWhere(doc, k + 1, p)
  }

  /** The texts of the tokens `keep` selects, space-joined and stripped. */
  function JoinKept(ts: seq<Token>, keep: Token -> bool): string {
    Strip(JoinTexts(Filter(ts, keep)))
  }

  // ---------------------------------------------------------------------------------------------
  // Left scanner

  /** The start of the run of non-stopping tokens that ends just before `a` and begins at `lo` or
      right after a stopping token. */
  function RunStart(doc: Doc, lo: nat, a: nat): (b: nat)
    requires lo <= a <= |doc|
    ensures lo <= b <= a
    ensures forall k :: b <= k < a ==> !Stops(doc[k])
    ensures b == lo || Stops(doc[b - 1])
    decreases a - lo
  {
    if a == lo || Stops(doc[a - 1]) then a else RunStart(doc, lo, a - 1)
  }

  /** `_get_left_tokens`: walks the anchor's sentence backwards from the anchor, collecting tokens
      until a stopping one, and reverses what it collected. */
  method GetLeftTokens(doc: Doc, a: nat) returns (collected: seq<Token>)
    requires a < |doc| && doc[a].sentStart <= a
    ensures collected == doc[RunStart(doc, doc[a].sentStart, a)..a]
  {
    var lo := doc[a].sentStart;
    var rev: seq<Token> := [];
    var k := a;
    while k > lo && !Stops(doc[k - 1])
      invariant lo <= k <= a
      invariant RunStart(doc, lo, k) == RunStart(doc, lo, a)
      invariant rev == Reversed(doc[k..a])
    {
      LeftStep(doc, lo, k, a);
      rev := rev + [doc[k - 1]];
      k := k - 1;
    }
    assert RunStart(doc, lo, a) == k;
    collected := Reversed(rev);
    assert collected == doc[k..a] by {
      ReversedTwice(doc[k..a]);
    }
  }

  /** One step of the left scanner: the token before `k` joins the run. */
  lemma LeftStep(doc: Doc, lo: nat, k: nat, a: nat)
    requires lo < k <= a <= |doc| && !Stops(doc[k - 1])
    ensures RunStart(doc, lo, k - 1) == RunStart(doc, lo, k)
    ensures Reversed(doc[k..a]) + [doc[k - 1]] == Reversed(doc[k - 1..a])
  {
    assert doc[k - 1..a] == [doc[k - 1]] + doc[k..a];
    ReversedCons(doc[k - 1], doc[k..a]);
  }

  /** The left scanner returns the maximal run of non-stopping tokens of the sentence that ends
      right before the anchor. */
  lemma LeftTokensMaximal(doc: Doc, a: nat)
    requires a < |doc| && doc[a].sentStart <= a
    ensures var b := RunStart(doc, doc[a].sentStart, a);
      && doc[a].sentStart <= b
      && (forall k :: b <= k < a ==> !Stops(doc[k]))
      && (b == doc[a].sentStart || Stops(doc[b - 1]))
  {
  }

  // ---------------------------------------------------------------------------------------------
  // Right scanner

  /** `list(anchor.subtree)[1:]` without the tokens whose text is a trigger word or a quote. */
  function RightCandidates(doc: Doc, a: nat, triggerTexts: seq<string>): seq<Token>
    requires a < |doc| && InDoc(doc, doc[a].subtree)
  {
    var sub := Tokens(doc, doc[a].subtree);
    Filter(if sub == [] then [] else sub[1..], (t: Token) => t.text !in triggerTexts && !IsQuote(t.text))
  }

  /** Length of the leading run of non-stopping tokens. */
  function RunLength(ts: seq<Token>): (n: nat)
    ensures n <= |ts|
    ensures forall k :: 0 <= k < n ==> !Stops(ts[k])
    ensures n == |ts| || Stops(ts[n])
    decreases |ts|
  {
    if ts == [] || Stops(ts[0]) then 0 else 1 + RunLength(ts[1..])
  }

  predicate Skippable(t: Token) {
    var w := Lower(t.text);
    w == "that" || w == "of" || w == "as"
  }

  /** What `_get_right_tokens` keeps of the candidates: one leading `that`/`of`/`as` skipped, then
      the run up to the first stopping token. */
  function RightRun(cands: seq<Token>): seq<Token> {
    var rest := if cands != [] && Skippable(cands[0]) then cands[1..] else cands;
    rest[..RunLength(rest)]
  }

  /** `_get_right_tokens`. */
  method GetRightTokens(doc: Doc, a: nat, triggerTexts: seq<string>) returns (collected: seq<Token>)
    requires a < |doc| && InDoc(doc, doc[a].subtree)
    ensures collected == RightRun(RightCandidates(doc, a, triggerTexts))
  {
    var cands := RightCandidates(doc, a, triggerTexts);
    ghost var from := if cands != [] && Skippable(cands[0]) then 1 else 0;
    var skipped := false;
    collected := [];
    var k := 0;
    while k < |cands|
      invariant 0 <= k <= |cands|
      invariant skipped <==> k > 0
      invariant k == 0 ==> collected == []
      invariant k > 0 ==> from <= k && collected == cands[from..k]
      invariant forall j :: from <= j < k ==> !Stops(cands[j])
      decreases |cands| - k
    {
      var tok := cands[k];
      if !skipped && Skippable(tok) {
        assert collected == cands[1..1];
        skipped := true;
        k := k + 1;
        continue;
      }
      skipped := true;
      if Stops(tok) {
        RightRunAt(cands, collected, k);
        return;
      }
      assert collected + [tok] == cands[from..k + 1] by {
        assert k == 0 ==> from == 0;
        assert cands[from..k + 1] == cands[from..k] + [cands[k]];
      }
      collected := collected + [tok];
      k := k + 1;
    }
    RightRunAt(cands, collected, k);
  }

  lemma RunLengthAt(ts: seq<Token>, n: nat)
    requires n <= |ts| && (forall j :: 0 <= j < n ==> !Stops(ts[j])) && (n == |ts| || Stops(ts[n]))
    ensures RunLength(ts) == n
  {
  }

  /** A stretch of non-stopping candidates that starts after the optional skipped word and ends
      at a stopping token or at the end is exactly the right run. */
  lemma RightRunAt(cands: seq<Token>, collected: seq<Token>, k: nat)
    requires var from := if cands != [] && Skippable(cands[0]) then 1 else 0;
      && from <= k <= |cands| && collected == cands[from..k]
      && (forall j :: from <= j < k ==> !Stops(cands[j])) && (k == |cands| || Stops(cands[k]))
    ensures collected == RightRun(cands)
  {
    var from := if cands != [] && Skippable(cands[0]) then 1 else 0;
    var rest := cands[from..];
    RunLengthAt(rest, k - from);
  }

  /** The right scanner's result is a prefix of the candidates, or of the candidates after one
      skipped `that`/`of`/`as`, that contains no stopping token. */
  lemma RightTokensPrefix(cands: seq<Token>)
    ensures var r := RightRun(cands);
      && (IsPrefixOf(r, cands) || (cands != [] && Skippable(cands[0]) && IsPrefixOf(r, cands[1..])))
      && forall k :: 0 <= k < |r| ==> !Stops(r[k])
  {
  }

  predicate IsPrefixOf<T(==)>(p: seq<T>, s: seq<T>) {
    |p| <= |s| && s[..|p|] == p
  }

  // ---------------------------------------------------------------------------------------------
  // Grounding

  /** The sort order of `sorted(highlights, key=len, reverse=True)`. */
  predicate Longer(a: string, b: string) {
    |a| > |b|
  }

  /** Tries the highlights in order: the first one other than `x` that occurs in `x`, ignoring
      case, replaces it. */
  function GroundIn(x: string, ts: seq<string>): (r: string)
    ensures r == x || (r in ts && r != x && ContainsIgnoreCase(x, r))
    decreases |ts|
  {
    if ts == [] then x
    else if ts[0] != x && ContainsIgnoreCase(x, ts[0]) then ts[0]
    else GroundIn(x, ts[1..])
  }

  /** One side of `_get_grounded_terms`. */
  function Ground(x: string, highlights: seq<string>): string {
    GroundIn(x, Sort(highlights, Longer))
  }

  /** An empty side stays empty: only the empty highlight occurs in it, and that one equals it. */
  lemma GroundOfEmpty(highlights: seq<string>)
    ensures Ground("", highlights) == ""
  {
    var r := Ground("", highlights);
    assert ContainsIgnoreCase("", r) ==> |Lower(r)| <= 0;
  }

  /** Without highlights a side is kept as it is. */
  lemma GroundWithoutHighlights(x: string)
    ensures Ground(x, []) == x
  {
    assert Sort([], Longer) == [];
  }

  /** `_get_grounded_terms`: one pass over the highlights, longest first, replacing each side at
      most once; it stops early once both sides are replaced. */
  method GetGroundedTerms(left: string, right: string, highlights: seq<string>)
    returns (groundedLeft: string, groundedRight: string)
    ensures groundedLeft == Ground(left, highlights) && groundedRight == Ground(right, highlights)
  {
    var sorted := Sort(highlights, Longer);
    groundedLeft, groundedRight := left, right;
    for k := 0 to |sorted|
      invariant groundedLeft == left ==> GroundIn(left, sorted) == GroundIn(left, sorted[k..])
      invariant groundedLeft != left ==> groundedLeft == GroundIn(left, sorted)
      invariant groundedRight == right ==> GroundIn(right, sorted) == GroundIn(right, sorted[k..])
      invariant groundedRight != right ==> groundedRight == GroundIn(right, sorted)
    {
      var term := sorted[k];
      assert sorted[k..][1..] == sorted[k + 1..];
      if groundedLeft == left && ContainsIgnoreCase(left, term) {
        groundedLeft := term;
      }
      if groundedRight == right && ContainsIgnoreCase(right, term) {
        groundedRight := term;
      }
      if groundedRight != right && groundedLeft != left {
        break;
      }
    }
  }

  lemma {:induction false} GroundInUnchanged(x: string, ts: seq<string>)
    ensures GroundIn(x, ts) == x <==> forall h :: h in ts ==> h == x || !ContainsIgnoreCase(x, h)
    decreases |ts|
  {
    if ts != [] {
      GroundInUnchanged(x, ts[1..]);
      assert forall h :: h in ts <==> h == ts[0] || h in ts[1..];
    }
  }

  /** A side stays as it is exactly when no highlight other than itself occurs in it; otherwise it
      becomes a highlight that occurs in it. */
  lemma GroundChoice(x: string, highlights: seq<string>)
    ensures var g := Ground(x, highlights);
      && (g == x <==> forall h :: h in highlights ==> h == x || !ContainsIgnoreCase(x, h))
      && (g != x ==> g in highlights && ContainsIgnoreCase(x, g))
  {
    var sorted := Sort(highlights, Longer);
    GroundInUnchanged(x, sorted);
    assert multiset(sorted) == multiset(highlights);
    forall h ensures h in sorted <==> h in highlights {
      assert h in sorted <==> h in multiset(sorted);
      assert h in highlights <==> h in multiset(highlights);
    }
  }

  lemma LongerIsStrictOrder()
    ensures StrictOrder(Longer)
  {
  }

  /** In a longest-first list, the replacement found is at least as long as every other highlight
      that occurs in the phrase. */
  lemma {:induction false} GroundInLongest(x: string, ts: seq<string>)
    requires SortedBy(ts, Longer)
    requires GroundIn(x, ts) != x
    ensures forall k :: 0 <= k < |ts| && ts[k] != x && ContainsIgnoreCase(x, ts[k]) ==>
      |ts[k]| <= |GroundIn(x, ts)|
    decreases |ts|
  {
    if !(ts[0] != x && ContainsIgnoreCase(x, ts[0])) {
      GroundInLongest(x, ts[1..]);
      forall k | 1 <= k < |ts| && ts[k] != x && ContainsIgnoreCase(x, ts[k])
        ensures |ts[k]| <= |GroundIn(x, ts)|
      {
        assert ts[k] == ts[1..][k - 1];
      }
    }
  }

  /** Longest first: no highlight longer than the replacement occurs in the phrase. */
  lemma GroundLongest(x: string, highlights: seq<string>, h: string)
    requires Ground(x, highlights) != x
    requires h in highlights && h != x && ContainsIgnoreCase(x, h)
    ensures |h| <= |Ground(x, highlights)|
  {
    var sorted := Sort(highlights, Longer);
    LongerIsStrictOrder();
    SortSorted(highlights, Longer);
    assert h in multiset(highlights);
    assert h in multiset(sorted);
    var k :| 0 <= k < |sorted| && sorted[k] == h;
    GroundInLongest(x, sorted);
  }

  /** The first element of `ts` other than `x` that occurs in it. */
  function FirstOccurring(x: string, ts: seq<string>): Option<string>
    decreases |ts|
  {
    if ts == [] then None
    else if ts[0] != x && ContainsIgnoreCase(x, ts[0]) then Some(ts[0])
    else FirstOccurring(x, ts[1..])
  }

  lemma {:induction false} GroundInFirst(x: string, ts: seq<string>)
    ensures GroundIn(x, ts) != x ==> FirstOccurring(x, ts) == Some(GroundIn(x, ts))
    decreases |ts|
  {
    if ts != [] && !(ts[0] != x && ContainsIgnoreCase(x, ts[0])) {
      GroundInFirst(x, ts[1..]);
    }
  }

  /** Filtering keeps the first occurring element when `keep` holds of it. */
  lemma {:induction false} FirstOccurringFilter(x: string, ts: seq<string>, keep: string -> bool)
    requires FirstOccurring(x, ts).Some? && keep(FirstOccurring(x, ts).value)
    ensures FirstOccurring(x, Filter(ts, keep)) == FirstOccurring(x, ts)
    decreases |ts|
  {
    assert ts == [ts[0]] + ts[1..];
    FilterPrepend(ts[0], ts[1..], keep);
    var f, rest := Filter(ts, keep), Filter(ts[1..], keep);
    if keep(ts[0]) {
      assert f == [ts[0]] + rest && f[0] == ts[0] && f[1..] == rest;
    } else {
      assert f == rest;
    }
    if !(ts[0] != x && ContainsIgnoreCase(x, ts[0])) {
      FirstOccurringFilter(x, ts[1..], keep);
    }
  }

  /** Stability: among the highlights as long as the replacement, the replacement is the first,
      in the given order, that occurs in the phrase. */
  lemma GroundStable(x: string, highlights: seq<string>)
    requires Ground(x, highlights) != x
    ensures var g := Ground(x, highlights);
      FirstOccurring(x, Filter(highlights, h => |h| == |g|)) == Some(g)
  {
    var g := Ground(x, highlights);
    var sorted := Sort(highlights, Longer);
    var sameLength := (h: string) => |h| == |g|;
    assert TieClass(sameLength, Longer);
    SortStable(highlights, Longer, sameLength);
    GroundInFirst(x, sorted);
    FirstOccurringFilter(x, sorted, sameLength);
  }

  // ---------------------------------------------------------------------------------------------
  // Trigger discovery

  function WordCount(m: string): nat {
    |Split(m)|
  }

  /** `doc[i:i+len(m.split())]`: the slice, clipped at the end of the document. */
  function Window(doc: Doc, i: nat, m: string): (sp: Span)
    ensures ValidSpan(doc, sp) && sp.start == Min(i, |doc|)
  {
    Span(Min(i, |doc|), Min(i + WordCount(m), |doc|))
  }

  /** The text of the window for `m` at token `i` is `m` itself. */
  predicate Fits(doc: Doc, i: nat, m: string) {
    SpanText(doc, Window(doc, i, m)) == m
  }

  /** The fitting test of a document, as the scan consumes it. */
  function FitsIn(doc: Doc): (nat, string) -> bool {
    (i: nat, m: string) => Fits(doc, i, m)
  }

  /** The fitting test at token `i`. */
  function At(fits: (nat, string) -> bool, i: nat): string -> bool {
    m => fits(i, m)
  }

  /** A match string `m` taken at token `start`. */
  datatype Hit = Hit(start: nat, m: string)

  /** The first match string, from position `j` of the pool on, that `fits`. */
  function FirstFit(fits: string -> bool, pool: seq<string>, j: nat): (r: Option<nat>)
    requires j <= |pool|
    ensures r.Some? ==> j <= r.value < |pool| && fits(pool[r.value])
    ensures r.Some? ==> forall l :: j <= l < r.value ==> !fits(pool[l])
    ensures r.None? ==> forall l :: j <= l < |pool| ==> !fits(pool[l])
    decreases |pool| - j
  {
    if j == |pool| then None else if fits(pool[j]) then Some(j) else FirstFit(fits, pool, j + 1)
  }

  /** What `_find_pattern_tokens` takes at tokens `i` up to `n`, with `pool` the match strings not
      yet consumed: at each token the first fitting string is taken and dropped from the pool, and
      the scan stops once the pool is empty. */
  function Scan(fits: (nat, string) -> bool, n: nat, i: nat, pool: seq<string>): seq<Hit>
    requires i <= n
    decreases n - i
  {
    if i == n || pool == [] then []
    else match FirstFit(At(fits, i), pool, 0)
      case None => Scan(fits, n, i + 1, pool)
      case Some(j) => [Hit(i, pool[j])] + Scan(fits, n, i + 1, pool[..j] + pool[j + 1..])
  }

  /** The spans of the hits, `doc[start:start+len(m.split())]` each. */
  function Windows(doc: Doc, hits: seq<Hit>): (r: seq<Span>)
    ensures |r| == |hits|
    ensures forall k :: 0 <= k < |hits| ==> r[k] == Window(doc, hits[k].start, hits[k].m)
  {
    seq(|hits|, k requires 0 <= k < |hits| => Window(doc, hits[k].start, hits[k].m))
  }

  lemma WindowsSnoc(doc: Doc, hits: seq<Hit>, h: Hit)
    ensures Windows(doc, hits + [h]) == Windows(doc, hits) + [Window(doc, h.start, h.m)]
  {
    var l := hits + [h];
    assert forall k :: 0 <= k < |hits| ==> l[k] == hits[k];
  }

  function Picks(hits: seq<Hit>): (r: seq<string>)
    ensures |r| == |hits| && forall k :: 0 <= k < |hits| ==> r[k] == hits[k].m
  {
    seq(|hits|, k requires 0 <= k < |hits| => hits[k].m)
  }

  /** `list.remove(x)`: drops the first element equal to `x`. */
  function RemoveFirst(s: seq<string>, x: string): (r: seq<string>)
    decreases |s|
  {
    if s == [] then [] else if s[0] == x then s[1..] else [s[0]] + RemoveFirst(s[1..], x)
  }

  /** Removing the first occurrence of an element that does not occur earlier drops that position. */
  lemma {:induction false} RemoveFirstAt(s: seq<string>, j: nat)
    requires j < |s| && forall l :: 0 <= l < j ==> s[l] != s[j]
    ensures RemoveFirst(s, s[j]) == s[..j] + s[j + 1..]
    decreases j
  {
    if j > 0 {
      RemoveFirstAt(s[1..], j - 1);
      assert s[1..][..j - 1] + s[1..][j..] == s[1..j] + s[j + 1..];
      assert s[..j] == [s[0]] + s[1..j];
    }
  }

  /** `_find_pattern_tokens`: for each token, the first unused match string whose word count of
      tokens, starting there, has exactly that text is taken and removed from the pool. */
  method FindPatternTokens(doc: Doc, matches: seq<string>) returns (toks: seq<Span>)
    ensures toks == Windows(doc, Scan(FitsIn(doc), |doc|, 0, matches))
  {
    var pool := matches;
    ghost var hits: seq<Hit> := [];
    toks := [];
    var i := 0;
    while i < |doc|
      invariant i <= |doc|
      invariant hits + Scan(FitsIn(doc), |doc|, i, pool) == Scan(FitsIn(doc), |doc|, 0, matches)
      invariant toks == Windows(doc, hits)
    {
      if pool == [] {
        break;
      }
      var j := FindFit(At(FitsIn(doc), i), pool);
      if j < |pool| {
        var m := pool[j];
        TakeStep(doc, i, pool, j, hits);
        hits := hits + [Hit(i, m)];
        toks := toks + [Window(doc, i, m)];
        pool := RemoveFirst(pool, m);
      } else {
        ScanSkip(FitsIn(doc), |doc|, i, pool);
      }
      i := i + 1;
    }
  }

  /** Taking the first fitting match string at token `i` extends the hits and their windows by one. */
  lemma TakeStep(doc: Doc, i: nat, pool: seq<string>, j: nat, hits: seq<Hit>)
    requires i < |doc| && j < |pool| && FirstFit(At(FitsIn(doc), i), pool, 0) == Some(j)
    requires forall l :: 0 <= l < j ==> pool[l] != pool[j]
    ensures hits + [Hit(i, pool[j])] + Scan(FitsIn(doc), |doc|, i + 1, RemoveFirst(pool, pool[j])) ==
      hits + Scan(FitsIn(doc), |doc|, i, pool)
    ensures Windows(doc, hits + [Hit(i, pool[j])]) == Windows(doc, hits) + [Window(doc, i, pool[j])]
  {
    var h := Hit(i, pool[j]);
    RemoveFirstAt(pool, j);
    ScanTake(FitsIn(doc), |doc|, i, pool, j);
    var rest := Scan(FitsIn(doc), |doc|, i + 1, pool[..j] + pool[j + 1..]);
    assert hits + [h] + rest == hits + ([h] + rest);
    WindowsSnoc(doc, hits, h);
  }

  /** The inner loop of `_find_pattern_tokens`: the position of the first match string that fits
      at the current token, or the pool's length when none does. */
  method FindFit(fits: string -> bool, pool: seq<string>) returns (j: nat)
    ensures j <= |pool|
    ensures FirstFit(fits, pool, 0) == if j < |pool| then Some(j) else None
    ensures j < |pool| ==> forall l :: 0 <= l < j ==> pool[l] != pool[j]
  {
    j := 0;
    while j < |pool| && !fits(pool[j])
      invariant j <= |pool|
      invariant forall l :: 0 <= l < j ==> !fits(pool[l])
    {
      j := j + 1;
    }
    FirstFitIs(fits, pool, j);
  }

  /** The first fitting position is the one before which nothing fits. */
  lemma FirstFitIs(fits: string -> bool, pool: seq<string>, j: nat)
    requires j <= |pool| && (j < |pool| ==> fits(pool[j])) && forall l :: 0 <= l < j ==> !fits(pool[l])
    ensures FirstFit(fits, pool, 0) == if j < |pool| then Some(j) else None
  {
  }

  /** One step of the scan at a token where the `j`-th match string fits. */
  lemma ScanTake(fits: (nat, string) -> bool, n: nat, i: nat, pool: seq<string>, j: nat)
    requires i < n && pool != [] && FirstFit(At(fits, i), pool, 0) == Some(j)
    ensures Scan(fits, n, i, pool) == [Hit(i, pool[j])] + Scan(fits, n, i + 1, pool[..j] + pool[j + 1..])
  {
  }

  /** One step of the scan at a token where no match string fits. */
  lemma ScanSkip(fits: (nat, string) -> bool, n: nat, i: nat, pool: seq<string>)
    requires i < n && pool != [] && FirstFit(At(fits, i), pool, 0) == None
    ensures Scan(fits, n, i, pool) == Scan(fits, n, i + 1, pool)
  {
  }

  /** Strictly increasing starts: document order, at most one hit per token. */
  predicate Ascending(hits: seq<Hit>) {
    forall k, l :: 0 <= k < l < |hits| ==> hits[k].start < hits[l].start
  }

  lemma HitsCons(fits: (nat, string) -> bool, n: nat, i: nat, h: Hit, rest: seq<Hit>)
    requires h.start == i < n && fits(h.start, h.m)
    requires forall k :: 0 <= k < |rest| ==> i < rest[k].start < n && fits(rest[k].start, rest[k].m)
    requires Ascending(rest)
    ensures forall k :: 0 <= k < |rest| + 1 ==>
      i <= ([h] + rest)[k].start < n && fits(([h] + rest)[k].start, ([h] + rest)[k].m)
    ensures Ascending([h] + rest)
  {
    forall k | 0 < k < |rest| + 1 ensures ([h] + rest)[k] == rest[k - 1] {
    }
  }

  /** Every hit lies between `i` and `n`, its string fits there, and the hits come in token
      order. */
  lemma {:induction false} ScanHits(fits: (nat, string) -> bool, n: nat, i: nat, pool: seq<string>)
    requires i <= n
    ensures var r := Scan(fits, n, i, pool);
      && (forall k :: 0 <= k < |r| ==> i <= r[k].start < n && fits(r[k].start, r[k].m))
      && Ascending(r)
    decreases n - i
  {
    if i < n && pool != [] {
      var f := FirstFit(At(fits, i), pool, 0);
      if f.Some? {
        var j := f.value;
        var rest := pool[..j] + pool[j + 1..];
        ScanHits(fits, n, i + 1, rest);
        ScanTake(fits, n, i, pool, j);
        HitsCons(fits, n, i, Hit(i, pool[j]), Scan(fits, n, i + 1, rest));
      } else {
        ScanHits(fits, n, i + 1, pool);
        ScanSkip(fits, n, i, pool);
      }
    }
  }

  /** Taking `s[j]` out and drawing from what is left draws from `s`. */
  lemma DropAt(s: seq<string>, j: nat, m: seq<string>)
    requires j < |s| && multiset(m) <= multiset(s[..j] + s[j + 1..])
    ensures multiset([s[j]] + m) <= multiset(s)
  {
    assert s == s[..j] + [s[j]] + s[j + 1..];
    assert multiset(s) == multiset(s[..j] + s[j + 1..]) + multiset{s[j]};
  }

  /** No more hits than match strings. */
  lemma {:induction false} ScanShorter(fits: (nat, string) -> bool, n: nat, i: nat, pool: seq<string>)
    requires i <= n
    ensures |Scan(fits, n, i, pool)| <= |pool|
    decreases n - i
  {
    if i < n && pool != [] {
      var f := FirstFit(At(fits, i), pool, 0);
      if f.Some? {
        var j := f.value;
        ScanShorter(fits, n, i + 1, pool[..j] + pool[j + 1..]);
        ScanTake(fits, n, i, pool, j);
      } else {
        ScanShorter(fits, n, i + 1, pool);
        ScanSkip(fits, n, i, pool);
      }
    }
  }

  /** Each match string is consumed at most as often as `re.findall` returned it. */
  lemma {:induction false} ScanFromPool(fits: (nat, string) -> bool, n: nat, i: nat, pool: seq<string>)
    requires i <= n
    ensures multiset(Picks(Scan(fits, n, i, pool))) <= multiset(pool)
    decreases n - i
  {
    if i < n && pool != [] {
      var f := FirstFit(At(fits, i), pool, 0);
      if f.Some? {
        var j := f.value;
        var rest := pool[..j] + pool[j + 1..];
        ScanFromPool(fits, n, i + 1, rest);
        ScanTake(fits, n, i, pool, j);
        var hs := Scan(fits, n, i + 1, rest);
        assert Picks([Hit(i, pool[j])] + hs) == [pool[j]] + Picks(hs);
        DropAt(pool, j, Picks(hs));
      } else {
        ScanFromPool(fits, n, i + 1, pool);
        ScanSkip(fits, n, i, pool);
      }
    }
  }

  /** What `_find_pattern_tokens` returns: spans in token order, at most one per starting token,
      each with exactly the text of a match string, and no match string used more often than
      `re.findall` found it. */
  lemma PatternTokensFromPool(doc: Doc, matches: seq<string>)
    ensures var hits := Scan(FitsIn(doc), |doc|, 0, matches);
      var r := Windows(doc, hits);
      && multiset(Picks(hits)) <= multiset(matches)
      && |r| <= |matches|
      && (forall k, l :: 0 <= k < l < |r| ==> r[k].start < r[l].start)
      && (forall k :: 0 <= k < |r| ==> SpanText(doc, r[k]) == hits[k].m && hits[k].m in matches)
  {
    var hits := Scan(FitsIn(doc), |doc|, 0, matches);
    ScanHits(FitsIn(doc), |doc|, 0, matches);
    ScanFromPool(FitsIn(doc), |doc|, 0, matches);
    ScanShorter(FitsIn(doc), |doc|, 0, matches);
    var ms := Picks(hits);
    forall k | 0 <= k < |hits| ensures hits[k].m in matches && Fits(doc, hits[k].start, hits[k].m) {
      assert ms[k] in multiset(ms);
      assert FitsIn(doc)(hits[k].start, hits[k].m);
    }
  }

  // ---------------------------------------------------------------------------------------------
  // Common tail of an extraction

  /** Grounds both sides and builds `StructuredExplanation(relationship, [left, right], negated)`,
      raising ValueError when a grounded side is empty. */
  function Finish(left: string, right: string, highlights: seq<string>, rel: Relation, negated: bool)
    : (o: Outcome)
    ensures o.Raised? <==> Ground(left, highlights) == "" || Ground(right, highlights) == ""
    ensures o.Raised? ==> o.err == ValueError
    ensures !o.NoValue?
    ensures o.Produced? ==>
      o.e == Explanation(rel, [Phrase(Ground(left, highlights)), Phrase(Ground(right, highlights))], negated)
  {
    var l := Ground(left, highlights);
    var r := Ground(right, highlights);
    if l == "" || r == "" then Raised(ValueError) else Produced(Explanation(rel, [Phrase(l), Phrase(r)], negated))
  }
}
