/**
 * The structured explanation: a relation symbol over predicates that are phrases or nested
 * explanations, its rendering, its truthiness, its order-insensitive-for-conjunction equality and
 * the left-nested conjunction fold (patterns/abstract.py).
 */
module Explanations {
  import opened Strings
  import opened Sorting

  /** The relation symbols the families use; `Blank` is the empty relationship of the sentinel. */
  datatype Relation = Blank | And | Implies | Iff | Subset | NotSubset | Xor | Conditional | NotSuperset

  function Symbol(r: Relation): string {
    match r
    case Blank => ""
    case And => "∧"
    case Implies => "→"
    case Iff => "↔"
    case Subset => "⊆"
    case NotSubset => "⊈"
    case Xor => "⊕"
    case Conditional => "⇒"
    case NotSuperset => "⊉"
  }

  /** Comparing relations is comparing their symbols. */
  lemma SymbolInjective(r: Relation, s: Relation)
    ensures Symbol(r) == Symbol(s) <==> r == s
  {
  }

  datatype Explanation = Explanation(relationship: Relation, predicates: seq<Predicate>, negated: bool)

  /** A predicate is a phrase, a nested explanation, or Python's `None` (which a family that
      returns `None` leaves in the list of explanations). */
  datatype Predicate = Phrase(text: string) | Nested(expl: Explanation) | Null

  /** The "nothing extracted" sentinel `StructuredExplanation('', [])`. */
  const Empty := Explanation(Blank, [], false)

  /** `__str__`: the predicates joined by the padded symbol, wrapped in `¬(...)` when negated. */
  function Render(e: Explanation): string
    decreases e
  {
    var parts := seq(|e.predicates|, i requires 0 <= i < |e.predicates| => RenderPredicate(e.predicates[i]));
    var rep := Join(" " + Symbol(e.relationship) + " ", parts);
    if e.negated then "¬(" + rep + ")" else rep
  }

  function RenderPredicate(p: Predicate): string
    decreases p
  {
    match p
    case Phrase(t) => t
    case Nested(e) => Render(e)
    case Null => "None"
  }

  /** `__bool__`. */
  predicate Truthy(e: Explanation) {
    e.relationship != Blank && |e.predicates| > 0
  }

  /** Python's `<` on strings: lexicographic by code point. */
  predicate LexLess(a: string, b: string)
    decreases |a|
  {
    if a == [] then b != []
    else if b == [] then false
    else if a[0] != b[0] then a[0] < b[0]
    else LexLess(a[1..], b[1..])
  }

  lemma {:induction false} LexLessTotal(a: string, b: string)
    ensures a == b || LexLess(a, b) || LexLess(b, a)
    ensures !(LexLess(a, b) && LexLess(b, a))
    decreases |a|
  {
    if a != [] && b != [] && a[0] == b[0] {
      LexLessTotal(a[1..], b[1..]);
      assert a == [a[0]] + a[1..] && b == [b[0]] + b[1..];
    }
  }

  /** The sort key of `sorted(predicates, key=str)`. */
  predicate RenderedBefore(p: Predicate, q: Predicate) {
    LexLess(RenderPredicate(p), RenderPredicate(q))
  }

  function SortedByRendering(ps: seq<Predicate>): (r: seq<Predicate>)
    ensures multiset(r) == multiset(ps) && |r| == |ps|
    ensures forall i :: 0 <= i < |r| ==> r[i] in ps
  {
    var r := Sort(ps, RenderedBefore);
    assert forall i :: 0 <= i < |r| ==> r[i] in multiset(ps);
    r
  }

  /** `__eq__`: same relationship, negation and arity; then, for `∧`, the predicates sorted by their
      rendering compared position by position, and for every other relationship the predicates
      compared position by position. */
  predicate Eq(a: Explanation, b: Explanation)
    decreases a
  {
    && a.relationship == b.relationship
    && a.negated == b.negated
    && |a.predicates| == |b.predicates|
    && if a.relationship == And then
         var sa := SortedByRendering(a.predicates);
         var sb := SortedByRendering(b.predicates);
         forall i :: 0 <= i < |sa| ==> PredicateEq(sa[i], sb[i])
       else
         forall i :: 0 <= i < |a.predicates| ==> PredicateEq(a.predicates[i], b.predicates[i])
  }

  /** `==` between list elements: strings by value, `None` only with `None`, explanations by `Eq`. */
  predicate PredicateEq(p: Predicate, q: Predicate)
    decreases p
  {
    match p
    case Phrase(t) => q.Phrase? && q.text == t
    case Null => q.Null?
    case Nested(e) => q.Nested? && Eq(e, q.expl)
  }

  /** An element of a permutation of `a.predicates` is smaller than `a`. */
  lemma SortedSmaller(a: Explanation, i: nat)
    requires i < |SortedByRendering(a.predicates)|
    ensures SortedByRendering(a.predicates)[i] < a
  {
    var s := SortedByRendering(a.predicates);
    assert s[i] in multiset(a.predicates);
  }

  /** Explanations that differ in relationship, negation or arity are unequal. */
  lemma EqNeedsSameShape(a: Explanation, b: Explanation)
    requires a.relationship != b.relationship || a.negated != b.negated || |a.predicates| != |b.predicates|
    ensures !Eq(a, b)
  {
  }

  lemma {:induction false} EqReflexive(a: Explanation)
    ensures Eq(a, a)
    decreases a
  {
    var s := SortedByRendering(a.predicates);
    forall i | 0 <= i < |s| ensures PredicateEq(s[i], s[i]) {
      SortedSmaller(a, i);
      PredicateEqReflexive(s[i]);
    }
    forall i | 0 <= i < |a.predicates| ensures PredicateEq(a.predicates[i], a.predicates[i]) {
      PredicateEqReflexive(a.predicates[i]);
    }
  }

  lemma {:induction false} PredicateEqReflexive(p: Predicate)
    ensures PredicateEq(p, p)
    decreases p
  {
    if p.Nested? {
      EqReflexive(p.expl);
    }
  }

  lemma {:induction false} EqSymmetric(a: Explanation, b: Explanation)
    requires Eq(a, b)
    ensures Eq(b, a)
    decreases a
  {
    if a.relationship == And {
      var sa, sb := SortedByRendering(a.predicates), SortedByRendering(b.predicates);
      forall i | 0 <= i < |sb| ensures PredicateEq(sb[i], sa[i]) {
        SortedSmaller(a, i);
        PredicateEqSymmetric(sa[i], sb[i]);
      }
    } else {
      forall i | 0 <= i < |b.predicates| ensures PredicateEq(b.predicates[i], a.predicates[i]) {
        PredicateEqSymmetric(a.predicates[i], b.predicates[i]);
      }
    }
  }

  lemma {:induction false} PredicateEqSymmetric(p: Predicate, q: Predicate)
    requires PredicateEq(p, q)
    ensures PredicateEq(q, p)
    decreases p
  {
    if p.Nested? {
      EqSymmetric(p.expl, q.expl);
    }
  }

  lemma {:induction false} EqTransitive(a: Explanation, b: Explanation, c: Explanation)
    requires Eq(a, b) && Eq(b, c)
    ensures Eq(a, c)
    decreases a
  {
    if a.relationship == And {
      var sa, sb, sc := SortedByRendering(a.predicates), SortedByRendering(b.predicates), SortedByRendering(c.predicates);
      forall i | 0 <= i < |sa| ensures PredicateEq(sa[i], sc[i]) {
        SortedSmaller(a, i);
        PredicateEqTransitive(sa[i], sb[i], sc[i]);
      }
    } else {
      forall i | 0 <= i < |a.predicates| ensures PredicateEq(a.predicates[i], c.predicates[i]) {
        PredicateEqTransitive(a.predicates[i], b.predicates[i], c.predicates[i]);
      }
    }
  }

  lemma {:induction false} PredicateEqTransitive(p: Predicate, q: Predicate, r: Predicate)
    requires PredicateEq(p, q) && PredicateEq(q, r)
    ensures PredicateEq(p, r)
    decreases p
  {
    if p.Nested? {
      EqTransitive(p.expl, q.expl, r.expl);
    }
  }

  /** Conjunction is commutative: swapping two predicates whose renderings differ keeps `∧`
      explanations equal. */
  lemma ConjunctionCommutes(x: Predicate, y: Predicate, negated: bool)
    requires RenderPredicate(x) != RenderPredicate(y)
    ensures Eq(Explanation(And, [x, y], negated), Explanation(And, [y, x], negated))
  {
    LexLessTotal(RenderPredicate(x), RenderPredicate(y));
    var a := Explanation(And, [x, y], negated);
    var b := Explanation(And, [y, x], negated);
    assert [x, y][..1] == [x] && [y, x][..1] == [y];
    assert Sort([x], RenderedBefore) == [x];
    assert Sort([y], RenderedBefore) == [y];
    var s := SortedByRendering(a.predicates);
    assert s == SortedByRendering(b.predicates);
    forall i | 0 <= i < 2 ensures PredicateEq(s[i], s[i]) {
      PredicateEqReflexive(s[i]);
    }
  }

  /** Every other relationship is order-sensitive: swapping two unequal predicates breaks equality. */
  lemma OtherRelationsKeepOrder(r: Relation, x: Predicate, y: Predicate, negated: bool)
    requires r != And
    requires !PredicateEq(x, y)
    ensures !Eq(Explanation(r, [x, y], negated), Explanation(r, [y, x], negated))
  {
    var a := Explanation(r, [x, y], negated);
    var b := Explanation(r, [y, x], negated);
    assert !PredicateEq(a.predicates[0], b.predicates[0]);
  }

  /** `concatenate_explanations`, as a value: nothing gives the sentinel, one item is returned as it
      is, and more items are nested to the left, `((e0 ∧ e1) ∧ e2) ∧ ...`. */
  function Conjoin(items: seq<Predicate>): Predicate
    decreases |items|
  {
    if |items| == 0 then Nested(Empty)
    else if |items| == 1 then items[0]
    else if |items| == 2 then Nested(Explanation(And, items, false))
    else Nested(Explanation(And, [Conjoin(items[..|items| - 1]), items[|items| - 1]], false))
  }

  /** Walks `depth` levels down the left spine of two-place conjunctions and lists the leftmost
      subtree followed by the right children met on the way back up. */
  function Spine(p: Predicate, depth: nat): seq<Predicate>
    decreases depth
  {
    if depth == 0 then [p]
    else if p.Nested? && p.expl.relationship == And && |p.expl.predicates| == 2 && !p.expl.negated then
      Spine(p.expl.predicates[0], depth - 1) + [p.expl.predicates[1]]
    else []
  }

  /** The fold of n >= 1 items is a left-nested conjunction n - 1 levels deep whose leaves, read left
      to right, are the items in order. */
  lemma {:induction false} ConjoinSpine(items: seq<Predicate>)
    requires |items| >= 1
    ensures Spine(Conjoin(items), |items| - 1) == items
    decreases |items|
  {
    var n := |items|;
    if n == 1 {
      assert items == [items[0]];
    } else if n == 2 {
      assert Spine(items[0], 0) == [items[0]];
      assert items == [items[0], items[1]];
    } else {
      ConjoinSpine(items[..n - 1]);
      assert items[..n - 1] + [items[n - 1]] == items;
    }
  }

  /** Nothing folds to the falsy sentinel; two or more items fold to a truthy conjunction. */
  lemma ConjoinTruthiness(items: seq<Predicate>)
    ensures |items| == 0 ==> Conjoin(items) == Nested(Empty) && !Truthy(Empty)
    ensures |items| >= 2 ==>
      (Conjoin(items).Nested? && Truthy(Conjoin(items).expl) && Conjoin(items).expl.relationship == And)
  {
  }

  /** `concatenate_explanations`: the loop that re-wraps the running conjunction. */
  method Concatenate(items: seq<Predicate>) returns (r: Predicate)
    ensures r == Conjoin(items)
    ensures |items| >= 1 ==> Spine(r, |items| - 1) == items
  {
    if |items| == 0 {
      return Nested(Empty);
    }
    if |items| == 1 {
      return items[0];
    }
    var concat := Nested(Explanation(And, items[0..2], false));
    var i := 2;
    while i < |items|
      invariant 2 <= i <= |items|
      invariant concat == Conjoin(items[..i])
    {
      assert items[..i + 1][..i] == items[..i];
      concat := Nested(Explanation(And, [concat, items[i]], false));
      i := i + 1;
    }
    assert items[..i] == items;
    ConjoinSpine(items);
    r := concat;
  }
}
