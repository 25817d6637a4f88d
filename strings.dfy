/**
 * The parts of Python's `str` that the pattern engine and the highlight parsers rely on:
 * whitespace splitting and joining, stripping, ASCII lower-casing, substring search,
 * `str.split(sep)`, `string.punctuation` removal and `int()` on decimal text.
 */
module Strings {
  import opened Wrappers

  /** Python's `str.isspace()` for one character. */
  predicate IsSpace(c: char) {
    c == ' ' || '\U{9}' <= c <= '\U{D}' || '\U{1C}' <= c <= '\U{1F}' || c == '\U{85}' || c == '\U{A0}'
    || c == '\U{1680}' || '\U{2000}' <= c <= '\U{200A}' || c == '\U{2028}' || c == '\U{2029}'
    || c == '\U{202F}' || c == '\U{205F}' || c == '\U{3000}'
  }

  predicate AllSpace(s: string) {
    forall i :: 0 <= i < |s| ==> IsSpace(s[i])
  }

  /** A word as `str.split()` returns it: non-empty, without whitespace. */
  predicate IsWord(w: string) {
    |w| > 0 && forall i :: 0 <= i < |w| ==> !IsSpace(w[i])
  }

  /** Lower-casing of one character (ASCII letters only). */
  function LowerChar(c: char): char {
    if 'A' <= c <= 'Z' then (c as int + 32) as char else c
  }

  function Lower(s: string): (r: string)
    ensures |r| == |s|
    ensures forall i :: 0 <= i < |s| ==> r[i] == LowerChar(s[i])
  {
    seq(|s|, i requires 0 <= i < |s| => LowerChar(s[i]))
  }

  /** The first index, from `i` on, whose character `drop` does not remove. */
  function LeadEnd(s: string, drop: char -> bool, i: nat): (r: nat)
    requires i <= |s|
    ensures i <= r <= |s|
    decreases |s| - i
  {
    if i < |s| && drop(s[i]) then LeadEnd(s, drop, i + 1) else i
  }

  /** The index just past the last character, before `j`, that `drop` does not remove. */
  function TrailStart(s: string, drop: char -> bool, j: nat): (r: nat)
    requires j <= |s|
    ensures r <= j
  {
    if j > 0 && drop(s[j - 1]) then TrailStart(s, drop, j - 1) else j
  }

  lemma {:induction false} LeadEndSpec(s: string, drop: char -> bool, i: nat)
    requires i <= |s|
    ensures LeadEnd(s, drop, i) == |s| || !drop(s[LeadEnd(s, drop, i)])
    ensures forall k :: i <= k < LeadEnd(s, drop, i) ==> drop(s[k])
    decreases |s| - i
  {
    if i < |s| && drop(s[i]) {
      LeadEndSpec(s, drop, i + 1);
    }
  }

  lemma {:induction false} TrailStartSpec(s: string, drop: char -> bool, j: nat)
    requires j <= |s|
    ensures TrailStart(s, drop, j) == 0 || !drop(s[TrailStart(s, drop, j) - 1])
    ensures forall k :: TrailStart(s, drop, j) <= k < j ==> drop(s[k])
  {
    if j > 0 && drop(s[j - 1]) {
      TrailStartSpec(s, drop, j - 1);
    }
  }

  /** Drops the leading characters that satisfy `drop` (`str.lstrip`). */
  function TrimLeft(s: string, drop: char -> bool): string {
    s[LeadEnd(s, drop, 0)..]
  }

  /** Drops the trailing characters that satisfy `drop` (`str.rstrip`). */
  function TrimRight(s: string, drop: char -> bool): string {
    s[..TrailStart(s, drop, |s|)]
  }

  /** `str.strip()`: whitespace removed at both ends. */
  function Strip(s: string): string {
    TrimRight(TrimLeft(s, IsSpace), IsSpace)
  }

  /** `str.strip(chars)`. */
  function StripChars(s: string, chars: string): string {
    TrimRight(TrimLeft(s, c => c in chars), c => c in chars)
  }

  /** `strip()` empties exactly the all-whitespace strings. */
  lemma StripAllSpace(s: string)
    ensures Strip(s) == [] <==> AllSpace(s)
  {
    var a := LeadEnd(s, IsSpace, 0);
    LeadEndSpec(s, IsSpace, 0);
    var t := s[a..];
    TrailStartSpec(t, IsSpace, |t|);
    if Strip(s) == [] && a < |s| {
      assert false;
    }
  }

  /** Python's `str.strip()` leaves a string whose ends are not whitespace unchanged. */
  lemma StripNoSpaceEnds(s: string)
    requires s != [] ==> !IsSpace(s[0]) && !IsSpace(s[|s| - 1])
    ensures Strip(s) == s
  {
  }

  /** Length of the leading run of non-whitespace characters. */
  function WordLen(s: string): (n: nat)
    ensures n <= |s|
    ensures forall i :: 0 <= i < n ==> !IsSpace(s[i])
    ensures n == |s| || IsSpace(s[n])
    decreases |s|
  {
    if s == [] || IsSpace(s[0]) then 0 else 1 + WordLen(s[1..])
  }

  /** `str.split()` with no separator: the maximal runs of non-whitespace characters. */
  function Split(s: string): (ws: seq<string>)
    ensures forall k :: 0 <= k < |ws| ==> IsWord(ws[k])
    decreases |s|
  {
    if s == [] then []
    else if IsSpace(s[0]) then Split(s[1..])
    else
      var n := WordLen(s);
      [s[..n]] + Split(s[n..])
  }

  /** `sep.join(ws)`. */
  function Join(sep: string, ws: seq<string>): string
    decreases |ws|
  {
    if ws == [] then ""
    else if |ws| == 1 then ws[0]
    else ws[0] + sep + Join(sep, ws[1..])
  }

  lemma JoinAppend(sep: string, ws: seq<string>, w: string)
    ensures Join(sep, ws + [w]) == if ws == [] then w else Join(sep, ws) + sep + w
    decreases |ws|
  {
    if |ws| > 1 {
      assert (ws + [w])[1..] == ws[1..] + [w];
      JoinAppend(sep, ws[1..], w);
    } else if |ws| == 1 {
      assert (ws + [w])[1..] == [w];
    }
  }

  /** Joining two non-empty lists is joining each and putting the separator between. */
  lemma {:induction false} JoinConcat(sep: string, a: seq<string>, b: seq<string>)
    requires a != [] && b != []
    ensures Join(sep, a + b) == Join(sep, a) + sep + Join(sep, b)
    decreases |a|
  {
    var ab := a + b;
    assert ab[0] == a[0];
    if |a| == 1 {
      assert ab[1..] == b;
    } else {
      assert ab[1..] == a[1..] + b;
      JoinConcat(sep, a[1..], b);
      var x, y, z := Join(sep, a[1..]), Join(sep, b), a[0] + sep;
      assert Join(sep, ab) == z + (x + sep + y);
      assert Join(sep, a) == z + x;
    }
  }

  /** A word followed by whitespace (or nothing) splits off as one word. */
  lemma {:induction false} SplitWordThen(w: string, rest: string)
    requires IsWord(w)
    requires rest == [] || IsSpace(rest[0])
    ensures Split(w + rest) == [w] + Split(rest)
  {
    var s := w + rest;
    WordLenOfWord(w, rest);
    assert s[..|w|] == w;
    assert s[|w|..] == rest;
  }

  lemma {:induction false} WordLenOfWord(w: string, rest: string)
    requires forall i :: 0 <= i < |w| ==> !IsSpace(w[i])
    requires rest == [] || IsSpace(rest[0])
    ensures WordLen(w + rest) == |w|
    decreases |w|
  {
    if w != [] {
      assert (w + rest)[1..] == w[1..] + rest;
      WordLenOfWord(w[1..], rest);
    }
  }

  /** A leading space does not change the split. */
  lemma SplitSpace(s: string)
    ensures Split(" " + s) == Split(s)
  {
    assert (" " + s)[1..] == s;
  }

  /** Splitting a space-joined list of words gives the words back. */
  lemma {:induction false} SplitJoin(ws: seq<string>)
    requires forall k :: 0 <= k < |ws| ==> IsWord(ws[k])
    ensures Split(Join(" ", ws)) == ws
    decreases |ws|
  {
    if |ws| == 1 {
      assert Split(Join(" ", ws)) == ws by {
        SplitWordThen(ws[0], "");
        assert ws[0] + "" == ws[0];
      }
    } else if |ws| > 1 {
      var tail := Join(" ", ws[1..]);
      assert Join(" ", ws) == ws[0] + (" " + tail);
      assert Split(ws[0] + (" " + tail)) == [ws[0]] + Split(" " + tail) by {
        SplitWordThen(ws[0], " " + tail);
      }
      assert Split(" " + tail) == ws[1..] by {
        SplitSpace(tail);
        SplitJoin(ws[1..]);
      }
      assert ws == [ws[0]] + ws[1..];
    }
  }

  predicate IsPrefix(p: string, s: string) {
    |p| <= |s| && s[..|p|] == p
  }

  /** `sub` occurs in `s` at index `k`. */
  predicate OccursAt(s: string, sub: string, k: nat) {
    k + |sub| <= |s| && s[k..k + |sub|] == sub
  }

  /** Index of the first occurrence of `sub` in `s` at or after `i`. */
  function FindFrom(s: string, sub: string, i: nat): (r: Option<nat>)
    requires i <= |s|
    ensures r.Some? ==> i <= r.value && OccursAt(s, sub, r.value)
    ensures r.Some? ==> forall k :: i <= k < r.value ==> !OccursAt(s, sub, k)
    ensures r.None? ==> forall k :: i <= k <= |s| ==> !OccursAt(s, sub, k)
    decreases |s| - i
  {
    if OccursAt(s, sub, i) then Some(i)
    else if i == |s| then None
    else FindFrom(s, sub, i + 1)
  }

  /** Index of the first occurrence of `sub` in `s` (`str.find`). */
  function Find(s: string, sub: string): (r: Option<nat>)
    ensures r.Some? ==> OccursAt(s, sub, r.value)
    ensures r.Some? ==> forall k :: 0 <= k < r.value ==> !OccursAt(s, sub, k)
    ensures r.None? ==> forall k :: 0 <= k <= |s| ==> !OccursAt(s, sub, k)
  {
    FindFrom(s, sub, 0)
  }

  /** `sub in s`. */
  predicate Contains(s: string, sub: string) {
    Find(s, sub).Some?
  }

  lemma ContainsAt(s: string, sub: string, i: nat)
    requires i + |sub| <= |s| && s[i..i + |sub|] == sub
    ensures Contains(s, sub)
  {
    assert OccursAt(s, sub, i);
  }

  /** A case-insensitive `re.search(sub, s)` for a literal `sub`. */
  predicate ContainsIgnoreCase(s: string, sub: string) {
    Contains(Lower(s), Lower(sub))
  }

  /** `s.split(sep)[0]`: the text before the first occurrence of `sep`. */
  function PieceBefore(s: string, sep: string): (r: string)
    ensures IsPrefix(r, s)
  {
    match Find(s, sep)
    case None => s
    case Some(i) => s[..i]
  }

  /** Where the last piece of `s[from..].split(sep)` starts, as an index into `s`: the scan
      skips past each non-overlapping occurrence of `sep`, found from the left. */
  function LastStartFrom(s: string, sep: string, from: nat): (p: nat)
    requires |sep| > 0 && from <= |s|
    ensures from <= p <= |s|
    decreases |s| - from
  {
    var found := FindFrom(s, sep, from);
    if found.None? then from
    else LastStartFrom(s, sep, found.value + |sep|)
  }

  /** Unless the scan stops where it began, a separator ends where the last piece starts. */
  lemma {:induction false} LastStartAfterSep(s: string, sep: string, from: nat)
    requires |sep| > 0 && from <= |s|
    ensures var p := LastStartFrom(s, sep, from);
      p == from || (from + |sep| <= p && OccursAt(s, sep, p - |sep|))
    decreases |s| - from
  {
    var found := FindFrom(s, sep, from);
    if found.Some? {
      var e := found.value + |sep|;
      var p := LastStartFrom(s, sep, e);
      assert LastStartFrom(s, sep, from) == p;
      LastStartAfterSep(s, sep, e);
      if p == e {
        assert p - |sep| == found.value;
      }
    }
  }

  /** No separator occurs from the start of the last piece on. */
  lemma {:induction false} LastStartNoSep(s: string, sep: string, from: nat)
    requires |sep| > 0 && from <= |s|
    ensures forall k :: LastStartFrom(s, sep, from) <= k <= |s| ==> !OccursAt(s, sep, k)
    decreases |s| - from
  {
    var found := FindFrom(s, sep, from);
    if found.Some? {
      LastStartNoSep(s, sep, found.value + |sep|);
    }
  }

  /** `s.split(sep)[-1]`: a suffix of `s` that holds no `sep` (`LastPieceHasNoSep`) and, unless it
      is all of `s`, comes right after a `sep` (`LastPieceAfterSep`). */
  function LastPiece(s: string, sep: string): (r: string)
    requires |sep| > 0
    ensures |r| <= |s| && r == s[|s| - |r|..]
  {
    s[LastStartFrom(s, sep, 0)..]
  }

  /** Unless the last piece is all of `s`, a separator comes right before it. */
  lemma LastPieceAfterSep(s: string, sep: string)
    requires |sep| > 0
    ensures var r := LastPiece(s, sep);
      |r| < |s| ==> |sep| <= |s| - |r| && OccursAt(s, sep, |s| - |r| - |sep|)
  {
    LastStartAfterSep(s, sep, 0);
    assert |s| - |LastPiece(s, sep)| == LastStartFrom(s, sep, 0);
  }

  /** The last piece holds no separator. */
  lemma LastPieceHasNoSep(s: string, sep: string)
    requires |sep| > 0
    ensures Find(LastPiece(s, sep), sep).None?
  {
    var p := LastStartFrom(s, sep, 0);
    var r := LastPiece(s, sep);
    LastStartNoSep(s, sep, 0);
    var found := Find(r, sep);
    if found.Some? {
      var j := found.value;
      assert r[j..j + |sep|] == s[p + j..p + j + |sep|];
      assert OccursAt(s, sep, p + j);
      assert false;
    }
  }

  /** Index of the first `c` in `s`. */
  function IndexOf(s: string, c: char): (i: nat)
    requires c in s
    ensures i < |s| && s[i] == c && c !in s[..i]
  {
    if s[0] == c then 0 else 1 + IndexOf(s[1..], c)
  }

  /** `s.split(sep)` for a one-character separator: keeps empty pieces. */
  function SplitOn(s: string, sep: char): (parts: seq<string>)
    ensures |parts| >= 1
    ensures forall k :: 0 <= k < |parts| ==> sep !in parts[k]
    decreases |s|
  {
    if sep !in s then [s]
    else
      var i := IndexOf(s, sep);
      [s[..i]] + SplitOn(s[i + 1..], sep)
  }

  /** Splitting on a separator that none of the parts contains gives the parts back. */
  lemma {:induction false} SplitOnJoin(parts: seq<string>, sep: char)
    requires |parts| >= 1
    requires forall k :: 0 <= k < |parts| ==> sep !in parts[k]
    ensures SplitOn(Join([sep], parts), sep) == parts
    decreases |parts|
  {
    if |parts| > 1 {
      var s := Join([sep], parts);
      var tail := Join([sep], parts[1..]);
      assert s == parts[0] + [sep] + tail;
      assert s[|parts[0]|] == sep;
      assert s[..|parts[0]|] == parts[0];
      assert IndexOf(s, sep) == |parts[0]|;
      assert s[|parts[0]| + 1..] == tail;
      SplitOnJoin(parts[1..], sep);
    }
  }

  /** A character of Python's `string.punctuation`. */
  predicate IsPunct(c: char) {
    '!' <= c <= '/' || ':' <= c <= '@' || '[' <= c <= '`' || '{' <= c <= '~'
  }

  /** `s.translate(str.maketrans('', '', string.punctuation))`. */
  function RemovePunct(s: string): (r: string)
    ensures forall i :: 0 <= i < |r| ==> !IsPunct(r[i])
    ensures |r| <= |s|
    decreases |s|
  {
    if s == [] then []
    else (if IsPunct(s[0]) then [] else [s[0]]) + RemovePunct(s[1..])
  }

  /** Removing punctuation from a string that has none changes nothing. */
  lemma {:induction false} RemovePunctNoop(s: string)
    requires forall i :: 0 <= i < |s| ==> !IsPunct(s[i])
    ensures RemovePunct(s) == s
    decreases |s|
  {
    if s != [] {
      RemovePunctNoop(s[1..]);
    }
  }

  /** Removing punctuation works character by character: it distributes over concatenation and
      keeps exactly the characters that are not punctuation. */
  lemma {:induction false} RemovePunctAppend(a: string, b: string)
    ensures RemovePunct(a + b) == RemovePunct(a) + RemovePunct(b)
    ensures forall c :: RemovePunct([c]) == if IsPunct(c) then [] else [c]
    decreases |a|
  {
    if a == [] {
      assert a + b == b;
    } else {
      var head: string := if IsPunct(a[0]) then [] else [a[0]];
      var ab := a + b;
      assert ab[0] == a[0] && ab[1..] == a[1..] + b;
      RemovePunctAppend(a[1..], b);
      calc {
        RemovePunct(ab);
        head + RemovePunct(a[1..] + b);
        head + (RemovePunct(a[1..]) + RemovePunct(b));
        (head + RemovePunct(a[1..])) + RemovePunct(b);
        { assert RemovePunct(a) == head + RemovePunct(a[1..]); }
        RemovePunct(a) + RemovePunct(b);
      }
    }
    forall c ensures RemovePunct([c]) == if IsPunct(c) then [] else [c] {
      RemovePunctChar(c);
    }
  }

  lemma RemovePunctChar(c: char)
    ensures RemovePunct([c]) == if IsPunct(c) then [] else [c]
  {
    assert [c][1..] == [];
  }

  lemma RemovePunctIdempotent(s: string)
    ensures RemovePunct(RemovePunct(s)) == RemovePunct(s)
  {
    RemovePunctNoop(RemovePunct(s));
  }

  predicate IsDigit(c: char) {
    '0' <= c <= '9'
  }

  function DigitValue(c: char): nat
    requires IsDigit(c)
  {
    c as int - '0' as int
  }

  function DigitChar(d: nat): (c: char)
    requires d < 10
    ensures IsDigit(c) && DigitValue(c) == d
  {
    ('0' as int + d) as char
  }

  /** The digit text `int()` accepts in base 10: digits, with single underscores between them. */
  predicate IsDigitRun(s: string) {
    && IsDigitText(s)
    && |s| > 0
    && IsDigit(s[0])
    && IsDigit(s[|s| - 1])
    && forall i :: 0 <= i < |s| ==> IsDigit(s[i]) || (s[i] == '_' && i + 1 < |s| && IsDigit(s[i + 1]))
  }

  predicate IsDigitText(s: string) {
    forall i :: 0 <= i < |s| ==> IsDigit(s[i]) || s[i] == '_'
  }

  /** The value of a run of digits, underscores ignored. */
  function DigitsValue(s: string): nat
    requires IsDigitText(s)
    decreases |s|
  {
    if s == [] then 0
    else if s[|s| - 1] == '_' then DigitsValue(s[..|s| - 1])
    else DigitsValue(s[..|s| - 1]) * 10 + DigitValue(s[|s| - 1])
  }

  /** Python's `int(s)` in base 10 (ASCII digits): `None` stands for the ValueError. */
  function ParseInt(s: string): Option<int> {
    var t := Strip(s);
    if t == [] then None
    else
      var negative := t[0] == '-';
      var digits := if t[0] == '-' || t[0] == '+' then t[1..] else t;
      if IsDigitRun(digits) then
        var v: int := DigitsValue(digits);
        Some(if negative then -v else v)
      else None
  }

  /** `str(n)` for a natural number. */
  function NatToString(n: nat): (s: string)
    ensures |s| > 0
    ensures forall i :: 0 <= i < |s| ==> IsDigit(s[i])
  {
    if n < 10 then [DigitChar(n)] else NatToString(n / 10) + [DigitChar(n % 10)]
  }

  lemma {:induction false} DigitsValueOfNat(n: nat)
    ensures DigitsValue(NatToString(n)) == n
  {
    var s := NatToString(n);
    if n < 10 {
      assert s[..0] == [];
    } else {
      assert s[..|s| - 1] == NatToString(n / 10);
      DigitsValueOfNat(n / 10);
    }
  }

  /** `int(str(n)) == n`. */
  lemma ParseIntOfNat(n: nat)
    ensures ParseInt(NatToString(n)) == Some(n)
  {
    var s := NatToString(n);
    assert !IsSpace(s[0]) && !IsSpace(s[|s| - 1]);
    StripNoSpaceEnds(s);
    assert s[0] != '-' && s[0] != '+';
    assert IsDigitRun(s);
    DigitsValueOfNat(n);
  }
}
