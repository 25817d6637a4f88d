/**
 * Python's `re.finditer` / `re.findall` for a pattern that is an alternation of literal phrases
 * (`'|'.join(table)`): at the leftmost position where some alternative matches, the first such
 * alternative in the list wins, and the search resumes where that match ended. An empty
 * alternative matches the empty string; after an empty match the engine must advance, so at the
 * same position only a non-empty alternative may match next.
 *
 * Also the order in which a dictionary hands out its keys: the order of first insertion.
 */
module Matching {
  import opened Wrappers
  import opened Strings
  import opened Vocabulary

  /** `p` occurs in `text` at position `pos`. */
  predicate OccursAt(text: string, pos: nat, p: string) {
    pos + |p| <= |text| && text[pos..pos + |p|] == p
  }

  /** The first alternative, from index `j` of the list on, that occurs at `pos`. */
  function FirstAlternative(text: string, pos: nat, alts: seq<string>, j: nat): (r: Option<nat>)
    requires j <= |alts|
    ensures r.Some? ==> j <= r.value < |alts| && OccursAt(text, pos, alts[r.value])
    ensures r.Some? ==> forall l :: j <= l < r.value ==> !OccursAt(text, pos, alts[l])
    ensures r.None? ==> forall l :: j <= l < |alts| ==> !OccursAt(text, pos, alts[l])
    decreases |alts| - j
  {
    if j == |alts| then None
    else if OccursAt(text, pos, alts[j]) then Some(j)
    else FirstAlternative(text, pos, alts, j + 1)
  }

  /** A match, as character offsets into the searched text. */
  datatype Match = Match(start: nat, end: nat)

  predicate NonEmpty(alts: seq<string>) {
    forall j :: 0 <= j < |alts| ==> alts[j] != ""
  }

  function NonEmptyOnly(alts: seq<string>): (r: seq<string>)
    ensures NonEmpty(r) && forall j :: 0 <= j < |r| ==> r[j] in alts
    decreases |alts|
  {
    if alts == [] then []
    else (if alts[0] != "" then [alts[0]] else []) + NonEmptyOnly(alts[1..])
  }

  /** `finditer` from `pos`. */
  function FindIter(text: string, alts: seq<string>, pos: nat): seq<Match>
    requires pos <= |text|
    decreases |text| - pos, 1
  {
    match FirstAlternative(text, pos, alts, 0)
    case None => if pos == |text| then [] else FindIter(text, alts, pos + 1)
    case Some(j) =>
      if alts[j] != "" then [Match(pos, pos + |alts[j]|)] + FindIter(text, alts, pos + |alts[j]|)
      else [Match(pos, pos)] + Advance(text, alts, pos)
  }

  /** The search right after an empty match at `pos`: a non-empty match at `pos`, or move on. */
  function Advance(text: string, alts: seq<string>, pos: nat): seq<Match>
    requires pos <= |text|
    decreases |text| - pos, 0
  {
    var ne := NonEmptyOnly(alts);
    match FirstAlternative(text, pos, ne, 0)
    case Some(j) => [Match(pos, pos + |ne[j]|)] + FindIter(text, alts, pos + |ne[j]|)
    case None => if pos == |text| then [] else FindIter(text, alts, pos + 1)
  }

  /** The matches lie in the text, from `pos` on, each covering one of the alternatives, one after
      the other without overlapping. */
  predicate Sound(text: string, alts: seq<string>, pos: nat, ms: seq<Match>) {
    && (forall k :: 0 <= k < |ms| ==>
          pos <= ms[k].start <= ms[k].end <= |text| && text[ms[k].start..ms[k].end] in alts)
    && (forall k :: 0 < k < |ms| ==> ms[k - 1].end <= ms[k].start)
  }

  lemma SoundCons(text: string, alts: seq<string>, pos: nat, m: Match, rest: seq<Match>)
    requires pos <= m.start <= m.end <= |text| && text[m.start..m.end] in alts
    requires Sound(text, alts, m.end, rest)
    ensures Sound(text, alts, pos, [m] + rest)
  {
    var ms := [m] + rest;
    forall k | 0 < k < |ms| ensures ms[k] == rest[k - 1] {
    }
  }

  lemma SoundLater(text: string, alts: seq<string>, pos: nat, later: nat, ms: seq<Match>)
    requires pos <= later && Sound(text, alts, later, ms)
    ensures Sound(text, alts, pos, ms)
  {
  }

  lemma {:induction false} FindIterSound(text: string, alts: seq<string>, pos: nat)
    requires pos <= |text|
    ensures Sound(text, alts, pos, FindIter(text, alts, pos))
    decreases |text| - pos, 1
  {
    match FirstAlternative(text, pos, alts, 0)
    case None =>
      if pos < |text| {
        FindIterSound(text, alts, pos + 1);
        SoundLater(text, alts, pos, pos + 1, FindIter(text, alts, pos + 1));
      }
    case Some(j) =>
      if alts[j] != "" {
        FindIterSound(text, alts, pos + |alts[j]|);
        SoundCons(text, alts, pos, Match(pos, pos + |alts[j]|), FindIter(text, alts, pos + |alts[j]|));
      } else {
        AdvanceSound(text, alts, pos);
        assert text[pos..pos] == alts[j];
        SoundCons(text, alts, pos, Match(pos, pos), Advance(text, alts, pos));
      }
  }

  lemma {:induction false} AdvanceSound(text: string, alts: seq<string>, pos: nat)
    requires pos <= |text|
    ensures Sound(text, alts, pos, Advance(text, alts, pos))
    decreases |text| - pos, 0
  {
    var ne := NonEmptyOnly(alts);
    match FirstAlternative(text, pos, ne, 0)
    case Some(j) =>
      FindIterSound(text, alts, pos + |ne[j]|);
      SoundCons(text, alts, pos, Match(pos, pos + |ne[j]|), FindIter(text, alts, pos + |ne[j]|));
    case None =>
      if pos < |text| {
        FindIterSound(text, alts, pos + 1);
        SoundLater(text, alts, pos, pos + 1, FindIter(text, alts, pos + 1));
      }
  }

  /** No alternative occurs at any position from `lo` up to (not including) `hi`. */
  predicate NoneIn(text: string, alts: seq<string>, lo: nat, hi: nat) {
    forall p, l :: lo <= p < hi && 0 <= l < |alts| ==> !OccursAt(text, p, alts[l])
  }

  /** With non-empty alternatives the search is leftmost-first: nothing is found exactly when no
      alternative occurs from `pos` on; otherwise the first match is at the least position where an
      alternative occurs, covers the first alternative (in list order) occurring there, and the
      rest is the search resumed at its end. */
  lemma {:induction false} FindIterLeftmost(text: string, alts: seq<string>, pos: nat)
    requires pos <= |text| && NonEmpty(alts)
    ensures var ms := FindIter(text, alts, pos);
      && (ms == [] <==> NoneIn(text, alts, pos, |text| + 1))
      && (ms != [] ==>
            && NoneIn(text, alts, pos, ms[0].start)
            && (exists j :: 0 <= j < |alts| && OccursAt(text, ms[0].start, alts[j])
                 && ms[0].end == ms[0].start + |alts[j]|
                 && (forall l :: 0 <= l < j ==> !OccursAt(text, ms[0].start, alts[l])))
            && ms[1..] == FindIter(text, alts, ms[0].end))
    decreases |text| - pos
  {
    var ms := FindIter(text, alts, pos);
    match FirstAlternative(text, pos, alts, 0)
    case None =>
      if pos == |text| {
        assert NoneIn(text, alts, pos, |text| + 1);
      } else {
        assert ms == FindIter(text, alts, pos + 1);
        FindIterLeftmost(text, alts, pos + 1);
        assert ms == [] ==> NoneIn(text, alts, pos, |text| + 1) by {
          if ms == [] {
            NoneInStep(text, alts, pos, |text| + 1);
          }
        }
        assert ms != [] ==> NoneIn(text, alts, pos, ms[0].start) by {
          if ms != [] {
            FindIterSound(text, alts, pos + 1);
            NoneInStep(text, alts, pos, ms[0].start);
          }
        }
      }
    case Some(j) =>
      var rest := FindIter(text, alts, pos + |alts[j]|);
      assert ms == [Match(pos, pos + |alts[j]|)] + rest;
      assert ms[1..] == rest;
      assert !NoneIn(text, alts, pos, |text| + 1);
  }

  /** Nothing occurs from `pos` on when nothing occurs at `pos` nor after it. */
  lemma NoneInStep(text: string, alts: seq<string>, pos: nat, hi: nat)
    requires pos < hi && NoneIn(text, alts, pos + 1, hi)
    requires forall l :: 0 <= l < |alts| ==> !OccursAt(text, pos, alts[l])
    ensures NoneIn(text, alts, pos, hi)
  {
  }

  /** `re.findall`: the matched texts. */
  function FindAll(text: string, alts: seq<string>): (r: seq<string>)
    ensures forall k :: 0 <= k < |r| ==> r[k] in alts
  {
    var ms := FindIter(text, alts, 0);
    FindIterSound(text, alts, 0);
    seq(|ms|, k requires 0 <= k < |ms| => text[ms[k].start..ms[k].end])
  }

  function LowerAll(alts: seq<string>): (r: seq<string>)
    ensures |r| == |alts| && forall j :: 0 <= j < |alts| ==> r[j] == Lower(alts[j])
  {
    seq(|alts|, j requires 0 <= j < |alts| => Lower(alts[j]))
  }

  /** `re.finditer` with `re.IGNORECASE`, for alternatives made of characters whose only case
      partners are their ASCII partners: matching the lower-cased text against the lower-cased
      alternatives. Lower-casing keeps every offset. */
  function FindIterIgnoreCase(text: string, alts: seq<string>): (ms: seq<Match>)
    ensures forall k :: 0 <= k < |ms| ==>
      ms[k].start <= ms[k].end <= |text| && Lower(text[ms[k].start..ms[k].end]) in LowerAll(alts)
  {
    var lt := Lower(text);
    var ms := FindIter(lt, LowerAll(alts), 0);
    FindIterSound(lt, LowerAll(alts), 0);
    forall k | 0 <= k < |ms| ensures Lower(text[ms[k].start..ms[k].end]) == lt[ms[k].start..ms[k].end] {
    }
    ms
  }

  // ---------------------------------------------------------------------------------------------
  // Dictionary key order

  /** The keys of `Table(es)` in the order a Python dictionary iterates them: by first insertion
      (a later write to a present key keeps its place). */
  function Keys(es: seq<Entry>): seq<string>
    decreases |es|
  {
    if es == [] then []
    else
      var ks := Keys(es[..|es| - 1]);
      if es[|es| - 1].0 in ks then ks else ks + [es[|es| - 1].0]
  }

  predicate Distinct(ks: seq<string>) {
    forall i, j :: 0 <= i < j < |ks| ==> ks[i] != ks[j]
  }

  /** The key list holds every key of the table exactly once. */
  lemma {:induction false} KeysOfTable(es: seq<Entry>)
    ensures Distinct(Keys(es))
    ensures forall k :: k in Keys(es) <==> k in Table(es)
    decreases |es|
  {
    if es != [] {
      var init := es[..|es| - 1];
      KeysOfTable(init);
      ApplyAppend(map[], init, [es[|es| - 1]]);
      assert es == init + [es[|es| - 1]];
      assert [es[|es| - 1]][..0] == [];
    }
  }

  /** A key comes before another in iteration order exactly when its first write does. */
  lemma {:induction false} KeysFirstWrite(es: seq<Entry>, i: nat)
    requires i < |es| && forall l :: 0 <= l < i ==> es[l].0 != es[i].0
    ensures es[i].0 in Keys(es)
    ensures forall l :: 0 <= l < i ==> es[l].0 in Keys(es)[..IndexIn(Keys(es), es[i].0)]
    decreases |es|
  {
    var init := es[..|es| - 1];
    var ks := Keys(init);
    if i < |es| - 1 {
      KeysFirstWrite(init, i);
      KeysPrefix(init, es[|es| - 1]);
      var a := IndexIn(ks, es[i].0);
      IndexInPrefix(ks, Keys(es), es[i].0);
      assert Keys(es)[..a] == ks[..a];
    } else {
      KeysOfInit(init);
      KeysPrefix(init, es[|es| - 1]);
      var a := IndexIn(Keys(es), es[i].0);
      assert es[i].0 !in ks by {
        KeysFrom(init, es[i].0);
      }
      assert Keys(es) == ks + [es[i].0];
      IndexInLast(ks, es[i].0);
      assert Keys(es)[..a] == ks;
      forall l | 0 <= l < i ensures es[l].0 in ks {
        KeysHas(init, l);
      }
    }
  }

  /** Every written key is in the key list. */
  lemma KeysHas(es: seq<Entry>, l: nat)
    requires l < |es|
    ensures es[l].0 in Keys(es)
  {
    KeysOfTable(es);
    TableKeys(es, es[l].0);
  }

  /** A key in the list was written. */
  lemma KeysFrom(es: seq<Entry>, k: string)
    ensures k in Keys(es) ==> exists l :: 0 <= l < |es| && es[l].0 == k
  {
    KeysOfTable(es);
    TableKeys(es, k);
  }

  lemma KeysOfInit(es: seq<Entry>)
    ensures Distinct(Keys(es))
  {
    KeysOfTable(es);
  }

  /** One more write only ever appends to the key list. */
  lemma KeysPrefix(es: seq<Entry>, e: Entry)
    ensures Keys(es + [e]) == Keys(es) || Keys(es + [e]) == Keys(es) + [e.0]
    ensures |Keys(es)| <= |Keys(es + [e])| && Keys(es + [e])[..|Keys(es)|] == Keys(es)
  {
    assert (es + [e])[..|es|] == es;
  }

  /** Position of `x` in `s`. */
  function IndexIn(s: seq<string>, x: string): (i: nat)
    requires x in s
    ensures i < |s| && s[i] == x && x !in s[..i]
  {
    if s[0] == x then 0 else 1 + IndexIn(s[1..], x)
  }

  lemma {:induction false} IndexInPrefix(s: seq<string>, t: seq<string>, x: string)
    requires x in s && |s| <= |t| && t[..|s|] == s
    ensures x in t && IndexIn(t, x) == IndexIn(s, x)
    decreases |s|
  {
    assert t[0] == s[0];
    if s[0] != x {
      assert t[1..][..|s| - 1] == s[1..];
      IndexInPrefix(s[1..], t[1..], x);
    }
  }

  lemma IndexInLast(s: seq<string>, x: string)
    requires x !in s
    ensures IndexIn(s + [x], x) == |s|
  {
    var i := IndexIn(s + [x], x);
    assert forall k :: 0 <= k < |s| ==> (s + [x])[k] == s[k];
  }

  /** A table whose entries have distinct keys iterates its entries in order. */
  lemma {:induction false} KeysOfDistinct(es: seq<Entry>)
    requires forall i, j :: 0 <= i < j < |es| ==> es[i].0 != es[j].0
    ensures |Keys(es)| == |es| && forall i :: 0 <= i < |es| ==> Keys(es)[i] == es[i].0
    decreases |es|
  {
    if es != [] {
      var init := es[..|es| - 1];
      KeysOfDistinct(init);
      forall i | 0 <= i < |Keys(init)| ensures Keys(init)[i] != es[|es| - 1].0 {
        assert init[i].0 == es[i].0;
      }
    }
  }
}
