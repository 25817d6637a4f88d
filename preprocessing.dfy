/**
 * The pure helpers of `ESNLIPreprocessor` (preprocessing.py): grouping the `*highlighted*` words of a
 * marked sentence into phrases, mapping a set of word indices to the words of a sentence, and
 * removing punctuation from a list of words. pandas' missing values are `None`.
 */
module Preprocessing {
  import opened Wrappers
  import opened Strings
  import Sorting

  // ---------------------------------------------------------------------------------------------
  // The highlight segments: `re.compile(r'\*(.*?)\*').finditer(text)`

  /** One match: `start` is the opening asterisk, `end` is just past the closing one. */
  datatype Segment = Segment(start: nat, end: nat)

  /** The first index from `i` on holding an asterisk or a line break (`.` does not match `\n`). */
  function StopAt(text: string, i: nat): (r: Option<nat>)
    requires i <= |text|
    ensures r.Some? ==> i <= r.value < |text| && (text[r.value] == '*' || text[r.value] == '\n')
    ensures r.Some? ==> forall k :: i <= k < r.value ==> text[k] != '*' && text[k] != '\n'
    ensures r.None? ==> forall k :: i <= k < |text| ==> text[k] != '*' && text[k] != '\n'
    decreases |text| - i
  {
    if i == |text| then None
    else if text[i] == '*' || text[i] == '\n' then Some(i)
    else StopAt(text, i + 1)
  }

  /** Segments inside the text, each at least two characters long, in order and not overlapping. */
  predicate InOrder(text: string, ss: seq<Segment>) {
    && (forall k :: 0 <= k < |ss| ==> ss[k].start + 2 <= ss[k].end <= |text|)
    && (forall k :: 0 < k < |ss| ==> ss[k - 1].end <= ss[k].start)
  }

  /** Segments in order, from position `from` on. */
  predicate Placed(text: string, from: nat, ss: seq<Segment>) {
    InOrder(text, ss) && forall k :: 0 <= k < |ss| ==> from <= ss[k].start
  }

  /** Each segment is an asterisk, a line free of asterisks, and an asterisk. */
  predicate Delimited(text: string, ss: seq<Segment>) {
    forall k :: 0 <= k < |ss| ==>
      && ss[k].start + 2 <= ss[k].end <= |text|
      && text[ss[k].start] == '*' && text[ss[k].end - 1] == '*'
      && forall j :: ss[k].start < j < ss[k].end - 1 ==> text[j] != '*' && text[j] != '\n'
  }

  /** The matches from position `p` on: at an asterisk, the lazy group stops at the next asterisk
      unless a line break comes first, in which case the search moves on by one character. */
  function Segments(text: string, p: nat): (ss: seq<Segment>)
    requires p <= |text|
    ensures Placed(text, p, ss)
    decreases |text| - p
  {
    if p == |text| then []
    else if text[p] == '*' then
      match StopAt(text, p + 1)
      case Some(q) =>
        if text[q] == '*' then
          var rest := Segments(text, q + 1);
          PlacedCons(text, p, q, rest);
          [Segment(p, q + 1)] + rest
        else Later(text, p, Segments(text, p + 1))
      case None => Later(text, p, Segments(text, p + 1))
    else Later(text, p, Segments(text, p + 1))
  }

  /** Segments found from `p + 1` on are also found from `p` on. */
  function Later(text: string, p: nat, ss: seq<Segment>): (r: seq<Segment>)
    requires Placed(text, p + 1, ss)
    ensures r == ss && Placed(text, p, r)
  {
    ss
  }

  lemma PlacedCons(text: string, p: nat, q: nat, rest: seq<Segment>)
    requires p < q < |text| && Placed(text, q + 1, rest)
    ensures Placed(text, p, [Segment(p, q + 1)] + rest)
  {
    var ss := [Segment(p, q + 1)] + rest;
    forall k | 0 < k < |ss| ensures ss[k] == rest[k - 1] {
    }
  }

  /** Every match `re.finditer` reports for `\*(.*?)\*` is an asterisk-delimited line. */
  lemma {:induction false} SegmentsDelimited(text: string, p: nat)
    requires p <= |text|
    ensures Delimited(text, Segments(text, p))
    decreases |text| - p
  {
    if p < |text| {
      var stop := StopAt(text, p + 1);
      if text[p] == '*' && stop.Some? && text[stop.value] == '*' {
        var q := stop.value;
        SegmentsDelimited(text, q + 1);
        SegmentAt(text, p, q);
        DelimitedCons(text, p, q, Segments(text, q + 1));
      } else {
        SegmentsDelimited(text, p + 1);
        SegmentSkip(text, p);
      }
    }
  }

  lemma DelimitedCons(text: string, p: nat, q: nat, rest: seq<Segment>)
    requires p < q < |text| && text[p] == '*' && text[q] == '*'
    requires forall j :: p < j < q ==> text[j] != '*' && text[j] != '\n'
    requires Delimited(text, rest)
    ensures Delimited(text, [Segment(p, q + 1)] + rest)
  {
    var ss := [Segment(p, q + 1)] + rest;
    forall k | 0 < k < |ss| ensures ss[k] == rest[k - 1] {
    }
  }

  /** `match.group(1)`. */
  function Group(text: string, s: Segment): string
    requires s.start + 2 <= s.end <= |text|
  {
    text[s.start + 1..s.end - 1]
  }

  /** A word wrapped in asterisks is one segment whose group is the word. */
  lemma SegmentsOfWrapped(w: string)
    requires forall i :: 0 <= i < |w| ==> w[i] != '*' && w[i] != '\n'
    ensures var text := "*" + w + "*";
      Segments(text, 0) == [Segment(0, |w| + 2)] && Group(text, Segment(0, |w| + 2)) == w
  {
    var text := "*" + w + "*";
    assert forall k :: 1 <= k < |w| + 1 ==> text[k] == w[k - 1];
    assert text[|w| + 1] == '*';
    assert StopAt(text, 1) == Some(|w| + 1);
    assert Segments(text, |w| + 2) == [];
  }

  // ---------------------------------------------------------------------------------------------
  // Grouping: `_extract_ordered_highlighted_phrases`

  /** A highlight after `strip()`, punctuation removal and `strip()` again. */
  function Clean(g: string): string {
    Strip(RemovePunct(Strip(g)))
  }

  predicate NoPunct(s: string) {
    forall i :: 0 <= i < |s| ==> !IsPunct(s[i])
  }

  /** The loop state: the phrases finished so far and the highlights of the current phrase. */
  datatype Grouping = Grouping(phrases: seq<string>, current: seq<string>)

  /** The text between segment `i - 1` and segment `i`. */
  function Gap(text: string, ss: seq<Segment>, i: nat): string
    requires 0 < i < |ss| && ss[i - 1].end <= ss[i].start <= |text|
  {
    text[ss[i - 1].end..ss[i].start]
  }

  /** What the loop looks at for each match: the cleaned highlight, and whether it follows the
      previous match with only whitespace in between (always so for the first). */
  datatype Item = Item(highlight: string, adjacent: bool)

  function Items(text: string, ss: seq<Segment>): (items: seq<Item>)
    requires InOrder(text, ss)
    ensures |items| == |ss|
    ensures forall i :: 0 <= i < |ss| ==> items[i].highlight == Clean(Group(text, ss[i]))
    ensures forall i :: 0 <= i < |ss| ==> items[i].adjacent == (i == 0 || Strip(Gap(text, ss, i)) == "")
  {
    seq(|ss|, i requires 0 <= i < |ss| => Item(Clean(Group(text, ss[i])), i == 0 || Strip(Gap(text, ss, i)) == ""))
  }

  /** One turn of the loop over the matches. A highlight that cleans to nothing is skipped; an
      adjacent one extends the current phrase; any other one finishes the current phrase and starts
      a new one. With `guarded`, an empty current phrase is not finished. */
  function Step(it: Item, g: Grouping, guarded: bool): Grouping {
    if it.highlight == "" then g
    else if it.adjacent then Grouping(g.phrases, g.current + [it.highlight])
    else if guarded && g.current == [] then Grouping(g.phrases, [it.highlight])
    else Grouping(g.phrases + [Join(" ", g.current)], [it.highlight])
  }

  /** The loop state after the first `n` matches. */
  function Fold(items: seq<Item>, n: nat, guarded: bool): Grouping
    requires n <= |items|
    decreases n
  {
    if n == 0 then Grouping([], []) else Step(items[n - 1], Fold(items, n - 1, guarded), guarded)
  }

  /** After the loop: the last phrase, if any, is appended. */
  function Close(g: Grouping): seq<string> {
    if g.current != [] then g.phrases + [Join(" ", g.current)] else g.phrases
  }

  function HighlightedPhrases(text: Option<string>, guarded: bool): seq<string> {
    match text
    case None => []
    case Some(t) =>
      var ss := Segments(t, 0);
      if ss == [] then [] else Close(Fold(Items(t, ss), |ss|, guarded))
  }

  /** `_extract_ordered_highlighted_phrases` as written. */
  function PhrasesAsWritten(text: Option<string>): seq<string> {
    HighlightedPhrases(text, false)
  }

  /** The same with `if current_phrase:` before finishing a phrase. */
  function Phrases(text: Option<string>): seq<string> {
    HighlightedPhrases(text, true)
  }

  /** `_extract_ordered_highlighted_phrases`; `guarded` selects the corrected finish. */
  method ExtractOrderedHighlightedPhrases(text: Option<string>, guarded: bool) returns (phrases: seq<string>)
    ensures phrases == HighlightedPhrases(text, guarded)
  {
    if text.None? {
      return [];
    }
    var t := text.value;
    var matches := Segments(t, 0);
    if matches == [] {
      return [];
    }
    phrases := GroupMatches(t, matches, guarded);
  }

  /** The loop over the matches and the final append. */
  method GroupMatches(t: string, matches: seq<Segment>, guarded: bool) returns (phrases: seq<string>)
    requires InOrder(t, matches)
    ensures phrases == Close(Fold(Items(t, matches), |matches|, guarded))
  {
    ghost var items := Items(t, matches);
    phrases := [];
    var currentPhrase: seq<string> := [];
    for i := 0 to |matches|
      invariant Grouping(phrases, currentPhrase) == Fold(items, i, guarded)
    {
      var highlightedText, adjacent := Inspect(t, matches, i);
      phrases, currentPhrase := Advance(phrases, currentPhrase, highlightedText, adjacent, guarded);
    }
    if currentPhrase != [] {
      phrases := phrases + [Join(" ", currentPhrase)];
    }
  }

  /** The body of the loop before it touches the phrases: the cleaned highlight of match `i`, and
      whether only whitespace separates it from the previous match. */
  method Inspect(t: string, matches: seq<Segment>, i: nat) returns (highlightedText: string, adjacent: bool)
    requires InOrder(t, matches) && i < |matches|
    ensures Item(highlightedText, adjacent) == Items(t, matches)[i]
  {
    highlightedText := Clean(Group(t, matches[i]));
    if i == 0 {
      adjacent := true;
    } else {
      var inBetween := t[matches[i - 1].end..matches[i].start];
      adjacent := Strip(inBetween) == "";
    }
  }

  /** The body of the loop once the highlight is known: skip it when it cleaned to nothing, extend
      the current phrase when it is adjacent, otherwise finish the current phrase and start anew. */
  method Advance(phrases: seq<string>, currentPhrase: seq<string>, highlightedText: string, adjacent: bool, guarded: bool)
    returns (phrases': seq<string>, currentPhrase': seq<string>)
    ensures Grouping(phrases', currentPhrase') ==
      Step(Item(highlightedText, adjacent), Grouping(phrases, currentPhrase), guarded)
  {
    phrases', currentPhrase' := phrases, currentPhrase;
    if highlightedText == "" {
      return;
    }
    if adjacent {
      currentPhrase' := currentPhrase + [highlightedText];
    } else {
      if !guarded || currentPhrase != [] {
        phrases' := phrases + [Join(" ", currentPhrase)];
      }
      currentPhrase' := [highlightedText];
    }
  }

  lemma StripNoPunct(s: string)
    requires NoPunct(s)
    ensures NoPunct(Strip(s))
  {
    var a := LeadEnd(s, IsSpace, 0);
    var t := s[a..];
    assert forall i :: 0 <= i < |t| ==> t[i] == s[a + i];
  }

  /** A cleaned highlight has no punctuation. */
  lemma CleanNoPunct(g: string)
    ensures NoPunct(Clean(g))
  {
    StripNoPunct(RemovePunct(Strip(g)));
  }

  /** Joining with spaces keeps strings free of punctuation, and is non-empty when the first
      string is. */
  lemma {:induction false} JoinNoPunct(xs: seq<string>)
    requires forall k :: 0 <= k < |xs| ==> NoPunct(xs[k])
    ensures NoPunct(Join(" ", xs))
    ensures xs != [] && xs[0] != "" ==> Join(" ", xs) != ""
    decreases |xs|
  {
    if |xs| > 1 {
      JoinNoPunct(xs[1..]);
      var j := Join(" ", xs[1..]);
      assert Join(" ", xs) == xs[0] + " " + j;
      assert forall i :: 0 <= i < |xs[0]| ==> Join(" ", xs)[i] == xs[0][i];
      assert forall i :: 0 <= i < |j| ==> Join(" ", xs)[|xs[0]| + 1 + i] == j[i];
    }
  }

  /** What the loop keeps: the current phrase holds cleaned, non-empty highlights; no phrase has
      punctuation; at most one phrase per kept match; once a phrase is finished the current phrase
      is never empty; and with the guard no finished phrase is empty, while without it only the
      first one can be. */
  predicate FoldInvariant(g: Grouping, n: nat, guarded: bool) {
    && (forall k :: 0 <= k < |g.current| ==> g.current[k] != "" && NoPunct(g.current[k]))
    && (forall k :: 0 <= k < |g.phrases| ==> NoPunct(g.phrases[k]))
    && |g.phrases| + (if g.current != [] then 1 else 0) <= n
    && (g.phrases != [] ==> g.current != [])
    && (forall k :: 0 <= k < |g.phrases| && (guarded || k > 0) ==> g.phrases[k] != "")
  }

  /** Cleaned highlights: no punctuation; the first one counts as adjacent. */
  predicate CleanItems(items: seq<Item>) {
    && (forall k :: 0 <= k < |items| ==> NoPunct(items[k].highlight))
    && (items != [] ==> items[0].adjacent)
  }

  lemma ItemsClean(text: string, ss: seq<Segment>)
    requires InOrder(text, ss)
    ensures CleanItems(Items(text, ss))
  {
    forall k | 0 <= k < |ss| ensures NoPunct(Clean(Group(text, ss[k]))) {
      CleanNoPunct(Group(text, ss[k]));
    }
  }

  lemma {:induction false} FoldKeeps(items: seq<Item>, n: nat, guarded: bool)
    requires CleanItems(items) && n <= |items|
    ensures FoldInvariant(Fold(items, n, guarded), n, guarded)
    decreases n
  {
    if n > 0 {
      FoldKeeps(items, n - 1, guarded);
      StepKeeps(items[n - 1], Fold(items, n - 1, guarded), n - 1, guarded);
      assert Fold(items, n, guarded) == Step(items[n - 1], Fold(items, n - 1, guarded), guarded);
    }
  }

  lemma StepKeeps(it: Item, g: Grouping, n: nat, guarded: bool)
    requires NoPunct(it.highlight) && FoldInvariant(g, n, guarded) && (n == 0 ==> it.adjacent)
    ensures FoldInvariant(Step(it, g, guarded), n + 1, guarded)
  {
    var h := it.highlight;
    if h == "" {
    } else if it.adjacent {
      var c := g.current + [h];
      assert forall k :: 0 <= k < |g.current| ==> c[k] == g.current[k];
    } else if guarded && g.current == [] {
    } else {
      JoinNoPunct(g.current);
      var ps := g.phrases + [Join(" ", g.current)];
      assert forall k :: 0 <= k < |g.phrases| ==> ps[k] == g.phrases[k];
    }
  }

  /** Closing a loop state that keeps the invariant. */
  lemma CloseKeeps(g: Grouping, n: nat, guarded: bool)
    requires FoldInvariant(g, n, guarded)
    ensures var ps := Close(g);
      |ps| <= n && forall k :: 0 <= k < |ps| ==> NoPunct(ps[k]) && (guarded || k > 0 ==> ps[k] != "")
  {
    if g.current != [] {
      JoinNoPunct(g.current);
      var ps := Close(g);
      assert forall k :: 0 <= k < |g.phrases| ==> ps[k] == g.phrases[k];
    }
  }

  /** The phrases, corrected: never empty, never with punctuation, at most one per match. */
  lemma PhrasesClean(text: Option<string>)
    ensures var ps := Phrases(text);
      forall k :: 0 <= k < |ps| ==> ps[k] != "" && NoPunct(ps[k])
    ensures text.Some? ==> |Phrases(text)| <= |Segments(text.value, 0)|
  {
    if text.Some? {
      var ss := Segments(text.value, 0);
      if ss != [] {
        var items := Items(text.value, ss);
        ItemsClean(text.value, ss);
        FoldKeeps(items, |ss|, true);
        CloseKeeps(Fold(items, |ss|, true), |ss|, true);
      }
    }
  }

  /** As written, the phrases have no punctuation, only the first one can be empty, there is at
      most one per match, and the first one is empty exactly when the first match whose highlight
      survives cleaning is not the first match and is not adjacent (see `FirstPhraseEmpty`). */
  lemma PhrasesAsWrittenShape(text: Option<string>)
    ensures var ps := PhrasesAsWritten(text);
      forall k :: 0 <= k < |ps| ==> NoPunct(ps[k]) && (k > 0 ==> ps[k] != "")
    ensures text.Some? ==> |PhrasesAsWritten(text)| <= |Segments(text.value, 0)|
    ensures text.Some? ==>
      var items := Items(text.value, Segments(text.value, 0));
      var ps := PhrasesAsWritten(text);
      (ps != [] && ps[0] == "") <==> FirstKeptDetached(items)
  {
    if text.Some? {
      var ss := Segments(text.value, 0);
      var ps := PhrasesAsWritten(text);
      assert (forall k :: 0 <= k < |ps| ==> NoPunct(ps[k]) && (k > 0 ==> ps[k] != "")) && |ps| <= |ss| by {
        if ss != [] {
          var items := Items(text.value, ss);
          ItemsClean(text.value, ss);
          FoldKeeps(items, |ss|, false);
          CloseKeeps(Fold(items, |ss|, false), |ss|, false);
        }
      }
    }
    FirstPhraseEmpty(text);
  }

  // ---------------------------------------------------------------------------------------------
  // The grouping rule

  /** A match whose highlight survives cleaning. */
  predicate HasText(it: Item) {
    it.highlight != ""
  }

  /** The kept matches split into runs: a run starts at the first one and at every one separated
      from the previous match by more than whitespace; any other one extends the last run. */
  function Runs(kept: seq<Item>): seq<seq<Item>>
    decreases |kept|
  {
    if kept == [] then []
    else
      var rs := Runs(kept[..|kept| - 1]);
      var x := kept[|kept| - 1];
      if rs == [] || !x.adjacent then rs + [[x]]
      else rs[..|rs| - 1] + [rs[|rs| - 1] + [x]]
  }

  function Flatten<T>(gs: seq<seq<T>>): seq<T>
    decreases |gs|
  {
    if gs == [] then [] else Flatten(gs[..|gs| - 1]) + gs[|gs| - 1]
  }

  /** The highlights of a run, in order. */
  function Highlights(run: seq<Item>): (hs: seq<string>)
    ensures |hs| == |run| && forall i :: 0 <= i < |run| ==> hs[i] == run[i].highlight
  {
    seq(|run|, i requires 0 <= i < |run| => run[i].highlight)
  }

  /** One phrase per run: its highlights joined with spaces. */
  function RunPhrases(rs: seq<seq<Item>>): (ps: seq<string>)
    ensures |ps| == |rs| && forall r :: 0 <= r < |rs| ==> ps[r] == Join(" ", Highlights(rs[r]))
  {
    seq(|rs|, r requires 0 <= r < |rs| => Join(" ", Highlights(rs[r])))
  }

  /** Without the guard, the empty phrase finished when the first kept match is not adjacent. */
  function Lead(kept: seq<Item>, guarded: bool): seq<string> {
    if !guarded && kept != [] && !kept[0].adjacent then [""] else []
  }

  /** The runs partition the kept matches in order, and break exactly before the matches separated
      from the previous one by more than whitespace. */
  lemma RunsPartition(kept: seq<Item>)
    ensures var rs := Runs(kept);
      && Flatten(rs) == kept
      && (forall r :: 0 <= r < |rs| ==> rs[r] != [])
      && (forall r :: 0 < r < |rs| ==> !rs[r][0].adjacent)
      && (forall r, i :: 0 <= r < |rs| && 0 < i < |rs[r]| ==> rs[r][i].adjacent)
  {
    RunsFlatten(kept);
    RunsBreaks(kept);
    assert RunsBreakAtGaps(Runs(kept));
  }

  lemma {:induction false} RunsFlatten(kept: seq<Item>)
    ensures Flatten(Runs(kept)) == kept
    decreases |kept|
  {
    if kept != [] {
      var front := kept[..|kept| - 1];
      var x := kept[|kept| - 1];
      RunsFlatten(front);
      var rs0 := Runs(front);
      var rs := Runs(kept);
      assert kept == front + [x];
      if rs0 == [] || !x.adjacent {
        assert rs == rs0 + [[x]];
        assert rs[..|rs| - 1] == rs0;
      } else {
        var m := |rs0| - 1;
        assert rs == rs0[..m] + [rs0[m] + [x]];
        assert rs[..|rs| - 1] == rs0[..m];
        assert Flatten(rs0) == Flatten(rs0[..m]) + rs0[m];
        assert Flatten(rs) == Flatten(rs0[..m]) + (rs0[m] + [x]);
      }
    }
  }

  /** Every run is non-empty, every run after the first starts with a match that is not adjacent,
      and every other match of a run is adjacent. */
  predicate RunsBreakAtGaps(rs: seq<seq<Item>>) {
    && (forall r :: 0 <= r < |rs| ==> rs[r] != [])
    && (forall r :: 0 < r < |rs| ==> !rs[r][0].adjacent)
    && (forall r, i :: 0 <= r < |rs| && 0 < i < |rs[r]| ==> rs[r][i].adjacent)
  }

  lemma {:induction false} RunsBreaks(kept: seq<Item>)
    ensures RunsBreakAtGaps(Runs(kept))
    decreases |kept|
  {
    if kept != [] {
      var front := kept[..|kept| - 1];
      var x := kept[|kept| - 1];
      RunsBreaks(front);
      var rs0 := Runs(front);
      var rs := Runs(kept);
      var m := if rs0 == [] || !x.adjacent then |rs0| else |rs0| - 1;
      var last := if rs0 == [] || !x.adjacent then [x] else rs0[m] + [x];
      assert rs == rs0[..m] + [last];
      forall r | 0 <= r < m
        ensures rs[r] == rs0[r]
      {
        assert rs[r] == rs0[..m][r];
      }
      assert rs[m] == last;
      forall i | 0 < i < |last|
        ensures last[i].adjacent
      {
        if i < |last| - 1 {
          assert last[i] == rs0[m][i];
        }
      }
    }
  }

  /** A loop state read through the runs of the matches kept so far: the finished phrases are the
      lead and the joined runs but the last, and the current phrase holds the last run's
      highlights. */
  predicate Tracks(kept: seq<Item>, g: Grouping, guarded: bool) {
    var rs := Runs(kept);
    && (rs == [] ==> g == Grouping([], []))
    && (rs != [] ==> g.phrases == Lead(kept, guarded) + RunPhrases(rs[..|rs| - 1])
                     && g.current == Highlights(rs[|rs| - 1]))
  }

  /** One turn of the loop keeps the reading: a match with text joins the kept ones. */
  lemma TracksStep(kept: seq<Item>, it: Item, g: Grouping, guarded: bool)
    requires Tracks(kept, g, guarded)
    ensures Tracks(kept + if HasText(it) then [it] else [], Step(it, g, guarded), guarded)
  {
    if !HasText(it) {
      assert kept + [] == kept;
    } else if kept == [] {
      TracksStart(it, g, guarded);
    } else if it.adjacent {
      TracksExtend(kept, it, g, guarded);
    } else {
      TracksBreak(kept, it, g, guarded);
    }
  }

  lemma TracksStart(it: Item, g: Grouping, guarded: bool)
    requires HasText(it) && Tracks([], g, guarded)
    ensures Tracks([] + [it], Step(it, g, guarded), guarded)
  {
    assert [] + [it] == [it];
    assert [it][..0] == [];
    assert Runs([it]) == [[it]];
    assert Highlights([it]) == [it.highlight];
  }

  /** An adjacent match extends the last run. */
  lemma TracksExtend(kept: seq<Item>, it: Item, g: Grouping, guarded: bool)
    requires HasText(it) && it.adjacent && kept != [] && Tracks(kept, g, guarded)
    ensures Tracks(kept + [it], Step(it, g, guarded), guarded)
  {
    var kept' := kept + [it];
    assert kept'[..|kept'| - 1] == kept;
    assert kept'[0] == kept[0];
    var rs0 := Runs(kept);
    var rs := Runs(kept');
    var m := |rs0| - 1;
    assert rs == rs0[..m] + [rs0[m] + [it]];
    assert rs[..|rs| - 1] == rs0[..m];
    assert Highlights(rs0[m] + [it]) == Highlights(rs0[m]) + [it.highlight];
  }

  /** A match that is not adjacent finishes the last run and starts a new one. */
  lemma TracksBreak(kept: seq<Item>, it: Item, g: Grouping, guarded: bool)
    requires HasText(it) && !it.adjacent && kept != [] && Tracks(kept, g, guarded)
    ensures Tracks(kept + [it], Step(it, g, guarded), guarded)
  {
    var kept' := kept + [it];
    var rs0 := Runs(kept);
    var rs := Runs(kept');
    RunsBreakStep(kept, it);
    assert Lead(kept', guarded) == Lead(kept, guarded) by {
      assert kept'[0] == kept[0];
    }
    assert g.current != [] && g.phrases + [Join(" ", g.current)] == Lead(kept, guarded) + RunPhrases(rs0) by {
      LastRunNonEmpty(kept);
      RunPhrasesLast(rs0);
      assert g.current == Highlights(rs0[|rs0| - 1]);
    }
    assert Step(it, g, guarded) == Grouping(g.phrases + [Join(" ", g.current)], [it.highlight]);
    assert Highlights([it]) == [it.highlight];
  }

  /** A match that is not adjacent starts a run of its own. */
  lemma RunsBreakStep(kept: seq<Item>, it: Item)
    requires kept != [] && !it.adjacent
    ensures var rs := Runs(kept + [it]);
      rs != [] && rs[..|rs| - 1] == Runs(kept) && rs[|rs| - 1] == [it]
  {
    var kept' := kept + [it];
    assert kept'[..|kept'| - 1] == kept;
    var rs := Runs(kept');
    assert rs == Runs(kept) + [[it]];
  }

  /** The last run of a non-empty sequence of kept matches is non-empty. */
  lemma LastRunNonEmpty(kept: seq<Item>)
    requires kept != []
    ensures Runs(kept) != [] && Runs(kept)[|Runs(kept)| - 1] != []
  {
  }

  lemma RunPhrasesLast(rs: seq<seq<Item>>)
    requires rs != []
    ensures RunPhrases(rs) == RunPhrases(rs[..|rs| - 1]) + [Join(" ", Highlights(rs[|rs| - 1]))]
  {
  }

  /** The loop state after `n` matches is read through the runs of the matches kept so far. */
  lemma {:induction false} FoldRuns(items: seq<Item>, n: nat, guarded: bool)
    requires n <= |items|
    ensures Tracks(Sorting.Filter(items[..n], HasText), Fold(items, n, guarded), guarded)
    decreases n
  {
    if n == 0 {
      assert Runs(Sorting.Filter(items[..0], HasText)) == [];
    } else {
      FoldRuns(items, n - 1, guarded);
      assert items[..n][..n - 1] == items[..n - 1];
      assert items[..n][n - 1] == items[n - 1];
      TracksStep(Sorting.Filter(items[..n - 1], HasText), items[n - 1], Fold(items, n - 1, guarded), guarded);
    }
  }

  /** Closing a tracked loop state gives the lead and one phrase per run. */
  lemma CloseRuns(kept: seq<Item>, g: Grouping, guarded: bool)
    requires Tracks(kept, g, guarded)
    ensures Close(g) == Lead(kept, guarded) + RunPhrases(Runs(kept))
  {
    var rs := Runs(kept);
    if kept != [] {
      LastRunNonEmpty(kept);
      RunPhrasesLast(rs);
      assert g.current == Highlights(rs[|rs| - 1]) != [];
    }
  }

  /** The extraction, guarded or not, is the lead and one phrase per run of the kept matches. */
  lemma HighlightedRuns(t: string, guarded: bool)
    ensures var kept := Sorting.Filter(Items(t, Segments(t, 0)), HasText);
      HighlightedPhrases(Some(t), guarded) == Lead(kept, guarded) + RunPhrases(Runs(kept))
  {
    var ss := Segments(t, 0);
    var items := Items(t, ss);
    assert items[..|ss|] == items;
    var kept := Sorting.Filter(items, HasText);
    if ss != [] {
      FoldRuns(items, |ss|, guarded);
      CloseRuns(kept, Fold(items, |ss|, guarded), guarded);
    } else {
      assert kept == [];
    }
  }

  /** The grouping rule of `_extract_ordered_highlighted_phrases`: the highlights that survive
      cleaning are split into runs (see `RunsPartition`), and each phrase is one run's highlights
      joined with spaces, in order. As written, an empty phrase comes first exactly when the first
      surviving highlight is separated from the previous match by more than whitespace. */
  lemma PhrasesGrouping(t: string)
    ensures var kept := Sorting.Filter(Items(t, Segments(t, 0)), HasText);
      && Phrases(Some(t)) == RunPhrases(Runs(kept))
      && PhrasesAsWritten(Some(t)) == Lead(kept, false) + RunPhrases(Runs(kept))
  {
    var kept := Sorting.Filter(Items(t, Segments(t, 0)), HasText);
    var qs := RunPhrases(Runs(kept));
    assert Phrases(Some(t)) == qs by {
      HighlightedRuns(t, true);
      assert Lead(kept, true) + qs == qs;
    }
    assert PhrasesAsWritten(Some(t)) == Lead(kept, false) + qs by {
      HighlightedRuns(t, false);
    }
  }

  /** Read as text, the phrases of non-empty runs are their highlights joined with spaces. */
  lemma {:induction false} RunsText(rs: seq<seq<Item>>)
    requires forall r :: 0 <= r < |rs| ==> rs[r] != []
    ensures Join(" ", RunPhrases(rs)) == Join(" ", Highlights(Flatten(rs)))
    decreases |rs|
  {
    if rs != [] {
      var front := rs[..|rs| - 1];
      var last := rs[|rs| - 1];
      RunPhrasesLast(rs);
      JoinAppend(" ", RunPhrases(front), Join(" ", Highlights(last)));
      assert Highlights(Flatten(rs)) == Highlights(Flatten(front)) + Highlights(last);
      if front == [] {
        assert Flatten(front) == [];
        assert Highlights(Flatten(front)) + Highlights(last) == Highlights(last);
      } else {
        RunsText(front);
        assert Flatten(front) == Flatten(front[..|front| - 1]) + front[|front| - 1];
        JoinConcat(" ", Highlights(Flatten(front)), Highlights(last));
      }
    }
  }

  /** The content of the grouping: the phrases, joined with spaces, are the non-empty cleaned
      highlights joined with spaces, in the order of the matches. */
  lemma PhrasesText(t: string)
    ensures Join(" ", Phrases(Some(t))) ==
      Join(" ", Highlights(Sorting.Filter(Items(t, Segments(t, 0)), HasText)))
  {
    var kept := Sorting.Filter(Items(t, Segments(t, 0)), HasText);
    PhrasesGrouping(t);
    RunsPartition(kept);
    RunsText(Runs(kept));
  }

  /** The first match whose highlight has text is not the first match, and more than whitespace
      separates it from the match before it. */
  predicate FirstKeptDetached(items: seq<Item>) {
    exists k :: 0 < k < |items| && items[k].highlight != "" && !items[k].adjacent
      && forall j :: 0 <= j < k ==> items[j].highlight == ""
  }

  /** The lead is there exactly when the first match with text is not the first match and follows
      the previous one with more than whitespace. */
  lemma LeadWhen(items: seq<Item>)
    requires items != [] ==> items[0].adjacent
    ensures Lead(Sorting.Filter(items, HasText), false) == [""] <==> FirstKeptDetached(items)
  {
    var kept := Sorting.Filter(items, HasText);
    Sorting.FilterFirst(items, HasText);
    if Lead(kept, false) == [""] {
      var k :| 0 <= k < |items| && HasText(items[k]) && (forall j :: 0 <= j < k ==> !HasText(items[j]))
        && kept[0] == items[k];
      assert k > 0;
    }
    if FirstKeptDetached(items) {
      var k :| 0 < k < |items| && items[k].highlight != "" && !items[k].adjacent
        && forall j :: 0 <= j < k ==> items[j].highlight == "";
      assert HasText(items[k]);
      var k' :| 0 <= k' < |items| && HasText(items[k']) && (forall j :: 0 <= j < k' ==> !HasText(items[j]))
        && kept[0] == items[k'];
      assert k' == k;
    }
  }

  /** A list of non-empty phrases after the lead starts with an empty phrase exactly when the lead
      is there. */
  lemma LeadFirst(ps: seq<string>, lead: seq<string>, qs: seq<string>)
    requires ps == lead + qs && (lead == [] || lead == [""])
    requires forall k :: 0 <= k < |qs| ==> qs[k] != ""
    ensures (ps != [] && ps[0] == "") <==> lead == [""]
  {
    if lead == [] {
      assert ps == qs;
    }
  }

  /** As written, the first phrase is empty exactly when the first match whose highlight survives
      cleaning is not the first match and follows the previous one with more than whitespace. */
  lemma FirstPhraseEmpty(text: Option<string>)
    ensures text.Some? ==>
      var items := Items(text.value, Segments(text.value, 0));
      var ps := PhrasesAsWritten(text);
      (ps != [] && ps[0] == "") <==> FirstKeptDetached(items)
  {
    if text.Some? {
      var t := text.value;
      var items := Items(t, Segments(t, 0));
      var kept := Sorting.Filter(items, HasText);
      var lead, qs := Lead(kept, false), RunPhrases(Runs(kept));
      var ps := PhrasesAsWritten(text);
      assert ps == lead + qs by {
        PhrasesGrouping(t);
      }
      assert forall k :: 0 <= k < |qs| ==> qs[k] != "" by {
        PhrasesGrouping(t);
        PhrasesClean(text);
      }
      LeadFirst(ps, lead, qs);
      assert items != [] ==> items[0].adjacent;
      LeadWhen(items);
    }
  }

  /** A highlight that cleans to nothing, followed by other text and a real highlight, leaves an
      empty first phrase as written; the guard drops it. */
  lemma EmptyFirstPhrase()
    ensures PhrasesAsWritten(Some("*!* x *b*")) == ["", "b"]
    ensures Phrases(Some("*!* x *b*")) == ["b"]
  {
    var t := "*!* x *b*";
    var ss := [Segment(0, 3), Segment(6, 9)];
    ExampleSegments();
    ExampleItems();
    assert Join(" ", ["b"]) == "b";
    assert Join(" ", []) == "";
  }

  /** At an asterisk whose line reaches another asterisk, a segment starts. */
  lemma SegmentAt(text: string, p: nat, q: nat)
    requires p < q < |text| && text[p] == '*' && text[q] == '*' && StopAt(text, p + 1) == Some(q)
    ensures Segments(text, p) == [Segment(p, q + 1)] + Segments(text, q + 1)
  {
  }

  /** Away from an asterisk, or at one whose line has no closing asterisk, the search moves on. */
  lemma SegmentSkip(text: string, p: nat)
    requires p < |text|
    requires !(text[p] == '*' && StopAt(text, p + 1).Some? && text[StopAt(text, p + 1).value] == '*')
    ensures Segments(text, p) == Segments(text, p + 1)
  {
  }

  lemma ExampleSegments()
    ensures Segments("*!* x *b*", 0) == [Segment(0, 3), Segment(6, 9)]
  {
    ExampleFront();
    ExampleSkips();
    ExampleBack();
  }

  lemma ExampleFront()
    ensures Segments("*!* x *b*", 0) == [Segment(0, 3)] + Segments("*!* x *b*", 3)
  {
    ExampleStops();
    SegmentAt("*!* x *b*", 0, 2);
  }

  lemma ExampleBack()
    ensures Segments("*!* x *b*", 6) == [Segment(6, 9)]
  {
    var t := "*!* x *b*";
    ExampleStops();
    SegmentAt(t, 6, 8);
    assert Segments(t, 9) == [];
  }

  lemma ExampleStops()
    ensures StopAt("*!* x *b*", 1) == Some(2) && StopAt("*!* x *b*", 7) == Some(8)
  {
    var t := "*!* x *b*";
    assert StopAt(t, 2) == Some(2);
    assert StopAt(t, 8) == Some(8);
  }

  lemma ExampleSkips()
    ensures Segments("*!* x *b*", 3) == Segments("*!* x *b*", 6)
  {
    var t := "*!* x *b*";
    SegmentSkip(t, 3);
    SegmentSkip(t, 4);
    SegmentSkip(t, 5);
  }

  lemma ExampleItems()
    ensures Items("*!* x *b*", [Segment(0, 3), Segment(6, 9)]) == [Item("", true), Item("b", false)]
  {
    ExampleHighlights();
  }

  lemma ExampleHighlights()
    ensures var t, ss := "*!* x *b*", [Segment(0, 3), Segment(6, 9)];
      Clean(Group(t, ss[0])) == "" && Clean(Group(t, ss[1])) == "b" && Strip(Gap(t, ss, 1)) != ""
  {
    var t := "*!* x *b*";
    var ss := [Segment(0, 3), Segment(6, 9)];
    assert Group(t, ss[0]) == "!";
    assert Group(t, ss[1]) == "b";
    assert Gap(t, ss, 1) == " x ";
    CleanBang();
    CleanB();
    GapNotBlank();
  }

  lemma CleanBang()
    ensures Clean("!") == ""
  {
    assert Strip("!") == "!" by {
      StripNoSpaceEnds("!");
    }
    assert RemovePunct("!") == "";
  }

  lemma CleanB()
    ensures Clean("b") == "b"
  {
    StripNoSpaceEnds("b");
    assert RemovePunct("b") == "b";
  }

  lemma GapNotBlank()
    ensures Strip(" x ") != ""
  {
    StripAllSpace(" x ");
    assert !IsSpace(" x "[1]);
  }

  // ---------------------------------------------------------------------------------------------
  // `_parse_highlighted_words`

  /** `[int(idx) for idx in parts]`, or `None` for the ValueError of a part that is not an integer. */
  function ParseAll(parts: seq<string>): (r: Option<seq<int>>)
    ensures r.Some? ==> |r.value| == |parts|
  {
    if forall k :: 0 <= k < |parts| ==> ParseInt(parts[k]).Some? then
      Some(seq(|parts|, k requires 0 <= k < |parts| => ParseInt(parts[k]).value))
    else None
  }

  /** `[words[idx] for idx in indices if 0 <= idx < len(words)]`. */
  function Select(words: seq<string>, indices: seq<int>): (r: seq<string>)
    decreases |indices|
  {
    if indices == [] then []
    else
      var idx := indices[|indices| - 1];
      Select(words, indices[..|indices| - 1]) + (if 0 <= idx < |words| then [words[idx]] else [])
  }

  /** The indices text: surrounding braces and spaces stripped, split on commas, each part parsed. */
  function ParseIndices(s: string): Option<seq<int>> {
    ParseAll(SplitOn(StripChars(s, "{} "), ','))
  }

  /** `_parse_highlighted_words`: a missing value or a malformed index list gives no words. */
  function ParseHighlightedWords(highlightedIndices: Option<string>, sentence: Option<string>): seq<string> {
    if highlightedIndices.None? || sentence.None? then []
    else
      match ParseIndices(highlightedIndices.value)
      case None => []
      case Some(indices) => Select(Split(sentence.value), indices)
  }

  /** Selecting keeps, in order, the word at each index that is in range and drops the others. */
  lemma {:induction false} SelectSpec(words: seq<string>, indices: seq<int>)
    ensures |Select(words, indices)| <= |indices|
    ensures forall j :: 0 <= j < |Select(words, indices)| ==>
      exists k :: 0 <= k < |indices| && 0 <= indices[k] < |words| && Select(words, indices)[j] == words[indices[k]]
    ensures (forall k :: 0 <= k < |indices| ==> 0 <= indices[k] < |words|) ==>
      |Select(words, indices)| == |indices| &&
      forall k :: 0 <= k < |indices| ==> Select(words, indices)[k] == words[indices[k]]
    decreases |indices|
  {
    if indices != [] {
      var init := indices[..|indices| - 1];
      SelectSpec(words, init);
      assert forall k :: 0 <= k < |init| ==> init[k] == indices[k];
      var r := Select(words, indices);
      var ri := Select(words, init);
      forall j | 0 <= j < |r|
        ensures exists k :: 0 <= k < |indices| && 0 <= indices[k] < |words| && r[j] == words[indices[k]]
      {
        if j < |ri| {
          var k :| 0 <= k < |init| && 0 <= init[k] < |words| && ri[j] == words[init[k]];
          assert r[j] == ri[j];
        } else {
          assert r[j] == words[indices[|indices| - 1]];
        }
      }
    }
  }

  /** `str(idx)` for every index. */
  function Numerals(ns: seq<nat>): (r: seq<string>)
    ensures |r| == |ns| && forall k :: 0 <= k < |ns| ==> r[k] == NatToString(ns[k])
  {
    seq(|ns|, k requires 0 <= k < |ns| => NatToString(ns[k]))
  }

  /** The indices text e-SNLI stores: `{i,j,...}`. */
  function IndexText(ns: seq<nat>): string {
    "{" + Join(",", Numerals(ns)) + "}"
  }

  lemma ParseAllNumerals(ns: seq<nat>)
    ensures ParseAll(Numerals(ns)) == Some(ns)
  {
    var parts := Numerals(ns);
    forall k | 0 <= k < |ns| ensures ParseInt(parts[k]) == Some(ns[k] as int) {
      ParseIntOfNat(ns[k]);
    }
    assert ParseAll(parts).value == ns;
  }

  /** Stripping characters leaves a string whose ends are not among them unchanged. */
  lemma StripCharsKeeps(s: string, chars: string)
    requires s != [] && s[0] !in chars && s[|s| - 1] !in chars
    ensures StripChars(s, chars) == s
  {
  }

  /** Stripping the braces of an index text leaves the comma-joined numerals. */
  lemma StripBraces(ns: seq<nat>)
    requires ns != []
    ensures StripChars(IndexText(ns), "{} ") == Join(",", Numerals(ns))
  {
    var body := Join(",", Numerals(ns));
    var s := IndexText(ns);
    var drop := (c: char) => c in "{} ";
    BodyEnds(Numerals(ns));
    assert s[1..|s| - 1] == body;
    assert drop(s[0]);
    assert LeadEnd(s, drop, 1) == 1;
    assert LeadEnd(s, drop, 0) == 1;
    var t := s[1..];
    assert t[..|t| - 1] == body;
    assert TrailStart(t, drop, |t| - 1) == |t| - 1;
    assert TrailStart(t, drop, |t|) == |t| - 1;
  }

  /** Comma-joined numerals begin and end with a digit. */
  lemma {:induction false} BodyEnds(xs: seq<string>)
    requires xs != [] && forall k :: 0 <= k < |xs| ==> xs[k] != "" && forall i :: 0 <= i < |xs[k]| ==> IsDigit(xs[k][i])
    ensures var b := Join(",", xs); b != [] && IsDigit(b[0]) && IsDigit(b[|b| - 1])
    decreases |xs|
  {
    if |xs| > 1 {
      BodyEnds(xs[1..]);
      var j := Join(",", xs[1..]);
      assert Join(",", xs) == xs[0] + "," + j;
    }
  }

  /** Round trip: the index text of a non-empty list of indices gives back the words at those
      indices that are in range. */
  lemma ParseIndexText(ns: seq<nat>, sentence: string)
    requires ns != []
    ensures ParseHighlightedWords(Some(IndexText(ns)), Some(sentence)) == Select(Split(sentence), ns)
  {
    StripBraces(ns);
    var parts := Numerals(ns);
    assert forall k :: 0 <= k < |parts| ==> ',' !in parts[k] by {
      forall k | 0 <= k < |parts| ensures ',' !in parts[k] {
        assert forall i :: 0 <= i < |parts[k]| ==> IsDigit(parts[k][i]);
      }
    }
    assert Join(",", parts) == Join([','], parts);
    SplitOnJoin(parts, ',');
    ParseAllNumerals(ns);
  }

  /** An empty index set, `{}`, is not a list of integers: no words. */
  lemma EmptyIndexSet(sentence: string)
    ensures ParseHighlightedWords(Some("{}"), Some(sentence)) == []
  {
    assert StripChars("{}", "{} ") == "";
    assert SplitOn("", ',') == [""];
    assert Strip("") == "";
  }

  /** Any part that is not an integer voids the whole list, and otherwise each part gives its
      value in place. */
  lemma ParseAllSpec(parts: seq<string>)
    ensures ParseAll(parts).None? <==> exists k :: 0 <= k < |parts| && ParseInt(parts[k]).None?
    ensures ParseAll(parts).Some? ==> forall k :: 0 <= k < |parts| ==> Some(ParseAll(parts).value[k]) == ParseInt(parts[k])
  {
  }

  // ---------------------------------------------------------------------------------------------
  // `_remove_punctuation`

  function RemovePunctuation(words: seq<string>): (r: seq<string>)
    ensures |r| == |words|
    ensures forall k :: 0 <= k < |r| ==> r[k] == RemovePunct(words[k])
    ensures forall k :: 0 <= k < |r| ==> NoPunct(r[k]) && |r[k]| <= |words[k]|
  {
    seq(|words|, k requires 0 <= k < |words| => RemovePunct(words[k]))
  }

  /** Removing punctuation twice is removing it once, and words without punctuation are kept. */
  lemma RemovePunctuationIdempotent(words: seq<string>)
    ensures RemovePunctuation(RemovePunctuation(words)) == RemovePunctuation(words)
    ensures (forall k :: 0 <= k < |words| ==> NoPunct(words[k])) ==> RemovePunctuation(words) == words
  {
    forall k | 0 <= k < |words| ensures RemovePunct(RemovePunct(words[k])) == RemovePunct(words[k]) {
      RemovePunctIdempotent(words[k]);
    }
    if forall k :: 0 <= k < |words| ==> NoPunct(words[k]) {
      forall k | 0 <= k < |words| ensures RemovePunct(words[k]) == words[k] {
        RemovePunctNoop(words[k]);
      }
    }
  }
}
