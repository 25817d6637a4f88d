/**
 * Pattern tables: the trigger phrase -> anchor label dictionaries of every pattern family,
 * the two generators that expand a seed table (inflected verb forms; negated auxiliaries)
 * and the `not` rewrites of the negated families.
 *
 * A dictionary filled in place is modelled by the ordered list of its assignments, `Entries`,
 * and by `Table`, the dictionary those assignments leave behind (a later equal key overwrites).
 */
module Vocabulary {
  import opened Wrappers
  import opened Strings

  type Entry = (string, string)

  /** Assigns the entries in order, `m[k] = v` for each. */
  function Apply(m: map<string, string>, es: seq<Entry>): map<string, string>
    decreases |es|
  {
    if es == [] then m else Apply(m, es[..|es| - 1])[es[|es| - 1].0 := es[|es| - 1].1]
  }

  /** The dictionary built by assigning `es` in order to an empty one. */
  function Table(es: seq<Entry>): map<string, string> {
    Apply(map[], es)
  }

  lemma {:induction false} ApplyAppend(m: map<string, string>, a: seq<Entry>, b: seq<Entry>)
    ensures Apply(m, a + b) == Apply(Apply(m, a), b)
    decreases |b|
  {
    if b == [] {
      assert a + b == a;
    } else {
      assert (a + b)[..|a + b| - 1] == a + b[..|b| - 1];
      ApplyAppend(m, a, b[..|b| - 1]);
    }
  }

  /** A key is in the table exactly when some assignment wrote it. */
  lemma {:induction false} TableKeys(es: seq<Entry>, k: string)
    ensures k in Table(es) <==> exists i :: 0 <= i < |es| && es[i].0 == k
    decreases |es|
  {
    if es != [] {
      var init := es[..|es| - 1];
      TableKeys(init, k);
      if k in Table(init) {
        var i :| 0 <= i < |init| && init[i].0 == k;
        assert es[i].0 == k;
      }
      if k != es[|es| - 1].0 && exists i :: 0 <= i < |es| && es[i].0 == k {
        var i :| 0 <= i < |es| && es[i].0 == k;
        assert init[i].0 == k;
      }
    }
  }

  /** Every value in the table was written, under its key, by some assignment. */
  lemma {:induction false} TableWritten(es: seq<Entry>, k: string)
    requires k in Table(es)
    ensures exists i :: 0 <= i < |es| && es[i] == (k, Table(es)[k])
    decreases |es|
  {
    var last := es[|es| - 1];
    if last.0 != k {
      var init := es[..|es| - 1];
      TableWritten(init, k);
      var i :| 0 <= i < |init| && init[i] == (k, Table(init)[k]);
      assert es[i] == init[i];
    }
  }

  /** The last assignment to a key decides its value. */
  lemma {:induction false} TableLastWrite(es: seq<Entry>, i: nat)
    requires i < |es|
    requires forall j :: i < j < |es| ==> es[j].0 != es[i].0
    ensures es[i].0 in Table(es) && Table(es)[es[i].0] == es[i].1
    decreases |es|
  {
    if i < |es| - 1 {
      var init := es[..|es| - 1];
      assert forall j :: i < j < |init| ==> init[j].0 != init[i].0;
      TableLastWrite(init, i);
    }
  }

  /** Writes the entries into `m` one by one. */
  method Assign(m0: map<string, string>, es: seq<Entry>) returns (m: map<string, string>)
    ensures m == Apply(m0, es)
  {
    m := m0;
    for j := 0 to |es|
      invariant m == Apply(m0, es[..j])
    {
      assert es[..j + 1][..j] == es[..j];
      m := m[es[j].0 := es[j].1];
    }
    assert es[..|es|] == es;
  }

  /** The first verb of a trigger phrase as the linguistic analysis reports it: its text, which is
      never empty, and its inflections `VB`, `VBZ`, `VBG`, `VBD` and `VBN`, each of which may be
      missing. */
  datatype Verb = Verb(text: string, vb: Option<string>, vbz: Option<string>, vbg: Option<string>,
                       vbd: Option<string>, vbn: Option<string>)

  /** The analysis of a phrase: its first verb, or None when it has none. */
  type Lexicon = string -> Option<Verb>

  /** A lexicon whose verbs have non-empty text, as every token has. */
  predicate ValidLexicon(lex: Lexicon, seeds: seq<Entry>) {
    forall i :: 0 <= i < |seeds| ==> lex(seeds[i].0).Some? ==> lex(seeds[i].0).value.text != ""
  }

  /** A Python value that is neither None nor the empty string. */
  predicate Truthy(f: Option<string>) {
    f.Some? && f.value != ""
  }

  /** `list(filter(None, fs))`: the truthy values, in order. */
  function KeepTruthy(fs: seq<Option<string>>): (r: seq<string>)
    ensures |r| <= |fs|
    ensures forall j :: 0 <= j < |r| ==> r[j] != ""
    ensures |r| == |fs| <==> forall j :: 0 <= j < |fs| ==> Truthy(fs[j])
  {
    if fs == [] then []
    else (if Truthy(fs[0]) then [fs[0].value] else []) + KeepTruthy(fs[1..])
  }

  /** `filter(None, [VB, VBZ, VBG, VBD, VBN])`. */
  function Forms(v: Verb): (fs: seq<string>)
    ensures |fs| <= 5
    ensures forall j :: 0 <= j < |fs| ==> fs[j] != ""
  {
    KeepTruthy([v.vb, v.vbz, v.vbg, v.vbd, v.vbn])
  }

  /** `f"{pre} {w} {post}".strip()`. */
  function KeyPhrase(pre: string, w: string, post: string): string {
    Strip(pre + " " + w + " " + post)
  }

  /** The words before the verb: `pattern.split(verb)[0].strip()`. */
  function Pre(p: string, v: Verb): string {
    Strip(PieceBefore(p, v.text))
  }

  /** The words after the verb: `pattern.split(verb)[-1].strip()`. */
  function Post(p: string, v: Verb): string
    requires v.text != ""
  {
    Strip(LastPiece(p, v.text))
  }

  /** The three keys written for one inflected form `f`, all labelled with `f`. */
  function Triple(pre: string, post: string, f: string): seq<Entry> {
    [(KeyPhrase(pre, f, post), f), (KeyPhrase(pre, "can " + f, post), f), (KeyPhrase(pre, "could " + f, post), f)]
  }

  function FormWrites(pre: string, post: string, fs: seq<string>): seq<Entry>
    decreases |fs|
  {
    if fs == [] then [] else FormWrites(pre, post, fs[..|fs| - 1]) + Triple(pre, post, fs[|fs| - 1])
  }

  lemma ApplyThree(m: map<string, string>, a: Entry, b: Entry, c: Entry)
    ensures Apply(m, [a, b, c]) == m[a.0 := a.1][b.0 := b.1][c.0 := c.1]
  {
    assert [a][..0] == [];
    assert Apply(m, [a]) == m[a.0 := a.1];
    assert [a, b][..1] == [a];
    assert Apply(m, [a, b]) == Apply(m, [a])[b.0 := b.1];
    assert [a, b, c][..2] == [a, b];
  }

  /** The assignments `_generate_inflected_patterns` makes for one seed phrase. */
  function InflectedWrites(p: string, lex: Lexicon): seq<Entry>
    requires lex(p).Some? ==> lex(p).value.text != ""
  {
    match lex(p)
    case None => [(p, p)]
    case Some(v) => FormWrites(Pre(p, v), Post(p, v), Forms(v))
  }

  function AllInflectedWrites(seeds: seq<Entry>, lex: Lexicon): seq<Entry>
    requires ValidLexicon(lex, seeds)
    decreases |seeds|
  {
    if seeds == [] then []
    else
      var init := seeds[..|seeds| - 1];
      assert ValidLexicon(lex, init);
      AllInflectedWrites(init, lex) + InflectedWrites(seeds[|seeds| - 1].0, lex)
  }

  /** The inner loop of `_generate_inflected_patterns`: three assignments per form. */
  method WriteForms(m0: map<string, string>, pre: string, post: string, forms: seq<string>)
    returns (m: map<string, string>)
    ensures m == Apply(m0, FormWrites(pre, post, forms))
  {
    m := m0;
    for j := 0 to |forms|
      invariant m == Apply(m0, FormWrites(pre, post, forms[..j]))
    {
      var f := forms[j];
      assert forms[..j + 1][..j] == forms[..j];
      ApplyAppend(m0, FormWrites(pre, post, forms[..j]), Triple(pre, post, f));
      ApplyThree(m, (KeyPhrase(pre, f, post), f), (KeyPhrase(pre, "can " + f, post), f), (KeyPhrase(pre, "could " + f, post), f));
      m := m[KeyPhrase(pre, f, post) := f];
      m := m[KeyPhrase(pre, "can " + f, post) := f];
      m := m[KeyPhrase(pre, "could " + f, post) := f];
    }
    assert forms[..|forms|] == forms;
  }

  /** `_generate_inflected_patterns(seeds)`. */
  method GenerateInflectedPatterns(seeds: seq<Entry>, lex: Lexicon) returns (m: map<string, string>)
    requires ValidLexicon(lex, seeds)
    ensures m == Table(AllInflectedWrites(seeds, lex))
  {
    m := map[];
    for i := 0 to |seeds|
      invariant ValidLexicon(lex, seeds[..i])
      invariant m == Table(AllInflectedWrites(seeds[..i], lex))
    {
      var p := seeds[i].0;
      assert seeds[..i + 1][..i] == seeds[..i];
      assert AllInflectedWrites(seeds[..i + 1], lex) == AllInflectedWrites(seeds[..i], lex) + InflectedWrites(p, lex);
      ApplyAppend(map[], AllInflectedWrites(seeds[..i], lex), InflectedWrites(p, lex));
      match lex(p) {
        case None =>
          m := m[p := p];
        case Some(v) =>
          m := WriteForms(m, Pre(p, v), Post(p, v), Forms(v));
      }
    }
    assert seeds[..|seeds|] == seeds;
  }

  /** The form writes: three keys per truthy form, in order, each labelled with the form itself. */
  lemma {:induction false} FormWritesShape(pre: string, post: string, fs: seq<string>)
    ensures |FormWrites(pre, post, fs)| == 3 * |fs|
    ensures forall j, d :: 0 <= j < |fs| && 0 <= d < 3 ==>
      FormWrites(pre, post, fs)[3 * j + d] == Triple(pre, post, fs[j])[d]
    decreases |fs|
  {
    if fs != [] {
      var init := fs[..|fs| - 1];
      FormWritesShape(pre, post, init);
      var w, t := FormWrites(pre, post, init), Triple(pre, post, fs[|fs| - 1]);
      assert FormWrites(pre, post, fs) == w + t;
      forall j, d | 0 <= j < |fs| && 0 <= d < 3
        ensures (w + t)[3 * j + d] == Triple(pre, post, fs[j])[d]
      {
        if j < |init| {
          assert (w + t)[3 * j + d] == w[3 * j + d];
          assert fs[j] == init[j];
        } else {
          assert (w + t)[3 * j + d] == t[d];
        }
      }
    }
  }

  /** A seed without a verb keeps its own phrase, labelled with itself; a seed with a verb writes
      three keys per truthy inflection, labelled with the inflection rather than the seed's label. */
  lemma InflectedSeed(p: string, lex: Lexicon)
    requires lex(p).Some? ==> lex(p).value.text != ""
    ensures lex(p).None? ==> InflectedWrites(p, lex) == [(p, p)]
    ensures lex(p).Some? ==>
      var v := lex(p).value;
      var fs := Forms(v);
      var ws := InflectedWrites(p, lex);
      && |ws| == 3 * |fs|
      && forall q :: 0 <= q < |fs| ==>
           && ws[3 * q] == (KeyPhrase(Pre(p, v), fs[q], Post(p, v)), fs[q])
           && ws[3 * q + 1] == (KeyPhrase(Pre(p, v), "can " + fs[q], Post(p, v)), fs[q])
           && ws[3 * q + 2] == (KeyPhrase(Pre(p, v), "could " + fs[q], Post(p, v)), fs[q])
  {
    if lex(p).Some? {
      var v := lex(p).value;
      var fs := Forms(v);
      FormWritesShape(Pre(p, v), Post(p, v), fs);
      forall q | 0 <= q < |fs|
        ensures FormWrites(Pre(p, v), Post(p, v), fs)[3 * q] == Triple(Pre(p, v), Post(p, v), fs[q])[0]
        ensures FormWrites(Pre(p, v), Post(p, v), fs)[3 * q + 1] == Triple(Pre(p, v), Post(p, v), fs[q])[1]
        ensures FormWrites(Pre(p, v), Post(p, v), fs)[3 * q + 2] == Triple(Pre(p, v), Post(p, v), fs[q])[2]
      {
        assert 3 * q == 3 * q + 0;
      }
    }
  }

  /** A seed that is its own verb (`imply`, `mean`) has no words around the verb. */
  lemma BareVerb(p: string, v: Verb)
    requires v.text == p && p != ""
    ensures Pre(p, v) == "" && Post(p, v) == ""
  {
    assert IsPrefix(p, p[0..]);
    assert Find(p, p) == Some(0);
    assert p[|p|..] == "";
    assert Find("", p) == None;
  }

  /** `f"{prefix} {pattern}"` for a verbless seed. */
  const VerblessNegations: seq<string> :=
    ["does not", "doesn't", "did not", "didn't", "cannot", "can not", "can't"]

  /** The auxiliaries put before the verb's base form (including the literal `could't`). */
  const Auxiliaries: seq<string> :=
    ["do not", "don't", "does not", "doesn't", "did not", "didn't", "cannot", "can not", "can't",
     "couldnot", "could not", "could't"]

  /** `verb_token._.inflect("VB") or verb_token.text`. */
  function BaseVerb(v: Verb): (b: string)
    ensures b == v.text || (v.vb.Some? && b == v.vb.value && b != "")
  {
    if Truthy(v.vb) then v.vb.value else v.text
  }

  /** The assignments `_generate_negative_patterns` makes for one seed, all labelled `anchor`. */
  function NegativeWrites(p: string, anchor: string, lex: Lexicon): seq<Entry>
    requires lex(p).Some? ==> lex(p).value.text != ""
  {
    match lex(p)
    case None =>
      seq(|VerblessNegations|, j requires 0 <= j < |VerblessNegations| => (VerblessNegations[j] + " " + p, anchor))
    case Some(v) =>
      var pre := Pre(p, v);
      var post := Post(p, v);
      var base := BaseVerb(v);
      seq(|Auxiliaries|, j requires 0 <= j < |Auxiliaries| => (KeyPhrase(pre, Auxiliaries[j] + " " + base, post), anchor))
        + (if Truthy(v.vbg) then [(KeyPhrase(pre, "not " + v.vbg.value, post), anchor)] else [])
  }

  function AllNegativeWrites(seeds: seq<Entry>, lex: Lexicon): seq<Entry>
    requires ValidLexicon(lex, seeds)
    decreases |seeds|
  {
    if seeds == [] then []
    else
      var init := seeds[..|seeds| - 1];
      assert ValidLexicon(lex, init);
      var last := seeds[|seeds| - 1];
      AllNegativeWrites(init, lex) + NegativeWrites(last.0, last.1, lex)
  }

  /** `_generate_negative_patterns(seeds)`. */
  method GenerateNegativePatterns(seeds: seq<Entry>, lex: Lexicon) returns (m: map<string, string>)
    requires ValidLexicon(lex, seeds)
    ensures m == Table(AllNegativeWrites(seeds, lex))
  {
    m := map[];
    for i := 0 to |seeds|
      invariant ValidLexicon(lex, seeds[..i])
      invariant m == Table(AllNegativeWrites(seeds[..i], lex))
    {
      var p, anchor := seeds[i].0, seeds[i].1;
      assert seeds[..i + 1][..i] == seeds[..i];
      ApplyAppend(map[], AllNegativeWrites(seeds[..i], lex), NegativeWrites(p, anchor, lex));
      m := Assign(m, NegativeWrites(p, anchor, lex));
    }
    assert seeds[..|seeds|] == seeds;
  }

  /** A verbless seed yields exactly the seven prefixed keys; a verb seed yields the twelve
      auxiliary keys and, when the gerund exists, `pre not gerund post`. */
  lemma NegativeSeed(p: string, anchor: string, lex: Lexicon)
    requires lex(p).Some? ==> lex(p).value.text != ""
    ensures lex(p).None? ==>
      var ws := NegativeWrites(p, anchor, lex);
      |ws| == 7 && forall j :: 0 <= j < 7 ==> ws[j].0 == VerblessNegations[j] + " " + p
    ensures lex(p).Some? ==>
      var v := lex(p).value;
      var ws := NegativeWrites(p, anchor, lex);
      && |ws| == (if Truthy(v.vbg) then 13 else 12)
      && (forall j :: 0 <= j < 12 ==> ws[j].0 == KeyPhrase(Pre(p, v), Auxiliaries[j] + " " + BaseVerb(v), Post(p, v)))
      && (Truthy(v.vbg) ==> ws[12].0 == KeyPhrase(Pre(p, v), "not " + v.vbg.value, Post(p, v)))
    ensures forall j :: 0 <= j < |NegativeWrites(p, anchor, lex)| ==> NegativeWrites(p, anchor, lex)[j].1 == anchor
  {
  }

  /** Every key of the negative table maps to the anchor of a seed that produced it. */
  lemma {:induction false} NegativeLabels(seeds: seq<Entry>, lex: Lexicon, k: string)
    requires ValidLexicon(lex, seeds)
    requires k in Table(AllNegativeWrites(seeds, lex))
    ensures exists i :: 0 <= i < |seeds| && Table(AllNegativeWrites(seeds, lex))[k] == seeds[i].1
  {
    var ws := AllNegativeWrites(seeds, lex);
    TableWritten(ws, k);
    var j :| 0 <= j < |ws| && ws[j] == (k, Table(ws)[k]);
    NegativeWriteFrom(seeds, lex, j);
  }

  lemma {:induction false} NegativeWriteFrom(seeds: seq<Entry>, lex: Lexicon, j: nat)
    requires ValidLexicon(lex, seeds)
    requires j < |AllNegativeWrites(seeds, lex)|
    ensures exists i :: 0 <= i < |seeds| && AllNegativeWrites(seeds, lex)[j].1 == seeds[i].1
    decreases |seeds|
  {
    var init := seeds[..|seeds| - 1];
    var last := seeds[|seeds| - 1];
    var before := AllNegativeWrites(init, lex);
    if j < |before| {
      NegativeWriteFrom(init, lex, j);
      var i :| 0 <= i < |init| && before[j].1 == init[i].1;
      assert seeds[i] == init[i];
    } else {
      assert AllNegativeWrites(seeds, lex)[j] == NegativeWrites(last.0, last.1, lex)[j - |before|];
      assert NegativeWrites(last.0, last.1, lex)[j - |before|].1 == last.1 by {
        NegativeSeed(last.0, last.1, lex);
      }
      assert AllNegativeWrites(seeds, lex)[j].1 == seeds[|seeds| - 1].1;
    }
  }

  /** `' '.join(k.split()[0:1] + ['not'] + k.split()[1:])`: `not` after the first word. */
  function InsertNot(k: string): string {
    var ws := Split(k);
    Join(" ", ws[..if ws == [] then 0 else 1] + ["not"] + (if ws == [] then [] else ws[1..]))
  }

  /** `' '.join(['not'] + k.split())`. */
  function PrefixNot(k: string): string {
    Join(" ", ["not"] + Split(k))
  }

  /** Applies a key rewrite to every entry of a table, keeping the labels (a dict comprehension). */
  function RewriteKeys(es: seq<Entry>, rewrite: string -> string): (r: seq<Entry>)
    ensures |r| == |es|
    ensures forall i :: 0 <= i < |es| ==> r[i] == (rewrite(es[i].0), es[i].1)
  {
    seq(|es|, i requires 0 <= i < |es| => (rewrite(es[i].0), es[i].1))
  }

  /** `InsertNot` puts `not` right after the first word of a phrase. */
  lemma InsertNotWords(k: string, ws: seq<string>)
    requires Split(k) == ws && |ws| >= 1
    ensures InsertNot(k) == Join(" ", [ws[0], "not"] + ws[1..])
  {
    assert ws[..1] + ["not"] + ws[1..] == [ws[0], "not"] + ws[1..];
  }

  /** `PrefixNot` puts `not ` in front of a phrase that has a word. */
  lemma PrefixNotWords(k: string, ws: seq<string>)
    requires Split(k) == ws && |ws| >= 1
    ensures PrefixNot(k) == "not " + Join(" ", ws)
  {
    assert (["not"] + ws)[1..] == ws;
  }

  /** Both rewrites act on the words only: a phrase rebuilt from its words is rewritten the same. */
  lemma RewritesSeeWords(ws: seq<string>)
    requires |ws| >= 1 && forall k :: 0 <= k < |ws| ==> IsWord(ws[k])
    ensures InsertNot(Join(" ", ws)) == Join(" ", [ws[0], "not"] + ws[1..])
    ensures PrefixNot(Join(" ", ws)) == "not " + Join(" ", ws)
  {
    var k := Join(" ", ws);
    SplitJoin(ws);
    InsertNotWords(k, ws);
    PrefixNotWords(k, ws);
  }

  // The seed tables, as the pattern families declare them.

  const RephrasingEntries: seq<Entry> := [
    ("is a rephrasing of", "rephrasing"), ("is rephrasing of", "rephrasing"),
    ("is a rephrase of", "rephrase"), ("is rephrase of", "rephrase"),
    ("is a way to rephrase", "rephrase"), ("is way to rephrase", "rephrase"),
    ("is a way of saying", "saying"), ("is way of saying", "saying"),
    ("is short for", "short"), ("is an abbreviation for", "abbreviation"),
    ("is abbreviation for", "abbreviation"), ("stanfor", "acronym")]

  const ImplicationSeeds: seq<Entry> := [
    ("imply that", "imply"), ("imply", "imply"), ("suggest that", "suggest"), ("suggest", "suggest"),
    ("indicate that", "indicate"), ("indicate", "indicate"), ("result in", "result"),
    ("entail that", "entail"), ("entail", "entail"), ("infer", "infer"), ("infer as", "infer"),
    ("mean", "mean")]

  const NeutralImplicationSeeds: seq<Entry> := [
    ("imply that", "imply"), ("imply", "imply"), ("necessarily imply", "imply"),
    ("suggest that", "suggest"), ("suggest", "suggest"), ("indicate that", "indicate"),
    ("indicate", "indicate"), ("result in", "result"), ("entail that", "entail"), ("entail", "entail"),
    ("infer", "infer"), ("infer as", "infer"), ("mean", "mean"), ("necessarily mean", "mean")]

  const EquivalenceEntries: seq<Entry> := [
    ("same as", "same"), ("synonym of", "synonym"), ("exchanged with", "exchanged"),
    ("equivalent to", "equivalent")]

  const ClassificationEntries: seq<Entry> := [
    ("type of", "type"), ("kind of", "kind"), ("sort of", "sort"), ("form of", "form")]

  const IfThenEntries: seq<Entry> := [("then", "then")]

  const XorEntries: seq<Entry> := [("or", "or")]

  const CannotBeEntries: seq<Entry> := [
    ("can not be", "cannot_be"), ("cannot be", "cannot_be"), ("can't be", "cannot_be")]

  const NotAllEntries: seq<Entry> := [("are", "are")]
}
