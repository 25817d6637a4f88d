/**
 * The parsed sentence the pattern engine reads. Tokenization, tags, lemmas and the dependency tree
 * come from an external linguistic analysis; here they are plain data on each token.
 */
module Documents {
  import opened Wrappers
  import opened Strings

  /** One token. The tree relations are token indices into the same document. */
  datatype Token = Token(
    text: string,
    spaceAfter: bool,      // the token is followed by one space in the text
    isPunct: bool,         // `is_punct`
    dep: string,           // dependency label
    pos: string,           // coarse part-of-speech tag
    lemmaForm: string,     // the dictionary form (`lemma_`)
    head: Option<nat>,     // the nearest ancestor; None for a sentence root
    lefts: seq<nat>,       // the children before the token, in order
    children: seq<nat>,    // all children, in order
    subtree: seq<nat>,     // the token and its descendants, in document order
    sentStart: nat)        // index of the first token of the token's sentence

  type Doc = seq<Token>

  /** A slice `doc[start:end]` of tokens. */
  datatype Span = Span(start: nat, end: nat)

  predicate InDoc(doc: Doc, ks: seq<nat>) {
    forall j :: 0 <= j < |ks| ==> ks[j] < |doc|
  }

  predicate TokenFits(doc: Doc, k: nat)
    requires k < |doc|
  {
    var t := doc[k];
    && (t.head.Some? ==> t.head.value < |doc|)
    && InDoc(doc, t.lefts) && InDoc(doc, t.children) && InDoc(doc, t.subtree)
    && t.sentStart <= k
  }

  /** What the analysis guarantees: every index it hands out points into the document. */
  predicate WellFormed(doc: Doc) {
    forall k :: 0 <= k < |doc| ==> TokenFits(doc, k)
  }

  predicate ValidSpan(doc: Doc, sp: Span) {
    sp.start <= sp.end <= |doc|
  }

  /** The tokens at the given indices. */
  function Tokens(doc: Doc, ks: seq<nat>): (ts: seq<Token>)
    requires InDoc(doc, ks)
    ensures |ts| == |ks| && forall j :: 0 <= j < |ks| ==> ts[j] == doc[ks[j]]
  {
    seq(|ks|, j requires 0 <= j < |ks| => doc[ks[j]])
  }

  function Texts(ts: seq<Token>): (r: seq<string>)
    ensures |r| == |ts| && forall j :: 0 <= j < |ts| ==> r[j] == ts[j].text
  {
    seq(|ts|, j requires 0 <= j < |ts| => ts[j].text)
  }

  /** `" ".join(tok.text for tok in ts)`. */
  function JoinTexts(ts: seq<Token>): string {
    Join(" ", Texts(ts))
  }

  function WithSpace(t: Token): string {
    t.text + (if t.spaceAfter then " " else "")
  }

  /** The text the tokens cover, each followed by its own whitespace. */
  function Concat(ts: seq<Token>): string
    decreases |ts|
  {
    if ts == [] then "" else Concat(ts[..|ts| - 1]) + WithSpace(ts[|ts| - 1])
  }

  /** `doc.text`. */
  function DocText(doc: Doc): string {
    Concat(doc)
  }

  /** `doc[start:end].text`: the covered text without the last token's trailing space. */
  function SpanText(doc: Doc, sp: Span): string
    requires ValidSpan(doc, sp)
  {
    if sp.start == sp.end then "" else Concat(doc[sp.start..sp.end - 1]) + doc[sp.end - 1].text
  }

  /** Character offset at which token `k` starts (`token.idx`). */
  function StartChar(doc: Doc, k: nat): nat
    requires k <= |doc|
  {
    |Concat(doc[..k])|
  }

  /** Character offset just past token `k`'s text. */
  function EndChar(doc: Doc, k: nat): nat
    requires k < |doc|
  {
    StartChar(doc, k) + |doc[k].text|
  }

  /** The first token, from `k` on, that starts at character `c`. */
  function TokenStartingAt(doc: Doc, c: nat, k: nat): (r: Option<nat>)
    requires k <= |doc|
    ensures r.Some? ==> k <= r.value < |doc| && StartChar(doc, r.value) == c
    ensures r.Some? ==> forall j :: k <= j < r.value ==> StartChar(doc, j) != c
    ensures r.None? ==> forall j :: k <= j < |doc| ==> StartChar(doc, j) != c
    decreases |doc| - k
  {
    if k == |doc| then None
    else if StartChar(doc, k) == c then Some(k)
    else TokenStartingAt(doc, c, k + 1)
  }

  /** The first token, from `k` on, whose text ends at character `c`. */
  function TokenEndingAt(doc: Doc, c: nat, k: nat): (r: Option<nat>)
    requires k <= |doc|
    ensures r.Some? ==> k <= r.value < |doc| && EndChar(doc, r.value) == c
    ensures r.Some? ==> forall j :: k <= j < r.value ==> EndChar(doc, j) != c
    ensures r.None? ==> forall j :: k <= j < |doc| ==> EndChar(doc, j) != c
    decreases |doc| - k
  {
    if k == |doc| then None
    else if EndChar(doc, k) == c then Some(k)
    else TokenEndingAt(doc, c, k + 1)
  }

  /** `doc.char_span(start, end)` in its strict mode: the tokens from the one starting at `start`
      to the one ending at `end`, or None when either offset falls inside a token or on whitespace. */
  function CharSpan(doc: Doc, start: nat, end: nat): (r: Option<Span>)
    ensures r.Some? ==> ValidSpan(doc, r.value) && r.value.start < r.value.end
    ensures r.Some? ==> StartChar(doc, r.value.start) == start && EndChar(doc, r.value.end - 1) == end
    ensures ((exists k :: 0 <= k < |doc| && StartChar(doc, k) == start) &&
             (exists k :: 0 <= k < |doc| && EndChar(doc, k) == end) &&
             r.None?) ==> exists k, m :: 0 <= m < k < |doc| && StartChar(doc, k) == start && EndChar(doc, m) == end
  {
    match (TokenStartingAt(doc, start, 0), TokenEndingAt(doc, end, 0))
    case (Some(k), Some(m)) => if k <= m then Some(Span(k, m + 1)) else None
    case _ => None
  }
}
