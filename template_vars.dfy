/**
 * The variable scanner and validator of a `textarea` field
 * (src/nodes/base/BaseNode.jsx, lines 112-159).
 *
 * The text is scanned with the global, lazy pattern `\{\{(.*?)\}\}` under
 * the ECMAScript RegExp rules (ECMA-262 section 22.2), in which `.` matches
 * any character but a line terminator. Every captured name is checked
 * against a strict identifier rule (for the error text) and a loose one
 * (for the dynamic target handles).
 */
module TemplateVars {
  import opened Wrappers

  // ---------------------------------------------------------------------------
  // Characters
  // ---------------------------------------------------------------------------

  /** The line terminators of ECMA-262 section 12.3: LF, CR, LS and PS. */
  predicate IsLineTerminator(c: char) {
    c == '\n' || c == '\r' || c == '\U{2028}' || c == '\U{2029}'
  }

  predicate IsAsciiLetter(c: char) {
    ('a' <= c <= 'z') || ('A' <= c <= 'Z')
  }

  predicate IsAsciiDigit(c: char) {
    '0' <= c <= '9'
  }

  /** The class `[a-zA-Z0-9_]`. */
  predicate IsWordChar(c: char) {
    IsAsciiLetter(c) || IsAsciiDigit(c) || c == '_'
  }

  predicate StartsWith(s: string, prefix: string) {
    |prefix| <= |s| && s[..|prefix|] == prefix
  }

  // ---------------------------------------------------------------------------
  // The pattern `\{\{(.*?)\}\}`
  // ---------------------------------------------------------------------------

  predicate OpensAt(s: string, p: int) {
    0 <= p && p + 2 <= |s| && s[p] == '{' && s[p + 1] == '{'
  }

  predicate ClosesAt(s: string, j: int) {
    0 <= j && j + 2 <= |s| && s[j] == '}' && s[j + 1] == '}'
  }

  /**
   * The pattern matches at `p` with its closing `}}` at `j`: `{{` at `p`,
   * `}}` at `j`, no line terminator in between (`.` refuses them) and no
   * earlier `}}` in between (the lazy `*?` stops at the first one).
   */
  ghost predicate IsMatch(s: string, p: int, j: int) {
    && OpensAt(s, p)
    && p + 2 <= j
    && ClosesAt(s, j)
    && (forall q :: p + 2 <= q < j ==> !IsLineTerminator(s[q]))
    && (forall q :: p + 2 <= q < j ==> !ClosesAt(s, q))
  }

  /** The nearest `}}` at or after `k` that no line terminator precedes. */
  function FindClose(s: string, k: nat): (r: Option<nat>)
    requires k <= |s|
    ensures r.Some? ==> k <= r.value && ClosesAt(s, r.value)
    ensures r.Some? ==> forall q :: k <= q < r.value ==> !IsLineTerminator(s[q])
    ensures r.Some? ==> forall q :: k <= q < r.value ==> !ClosesAt(s, q)
    ensures r.None? ==> forall j :: k <= j && ClosesAt(s, j) ==>
      exists q :: k <= q < j && IsLineTerminator(s[q])
    decreases |s| - k
  {
    if k + 2 > |s| then None
    else if ClosesAt(s, k) then Some(k)
    else if IsLineTerminator(s[k]) then None
    else FindClose(s, k + 1)
  }

  /** The attempt of the pattern at position `p`: the position of its closing `}}`, if any. */
  function MatchAt(s: string, p: nat): (r: Option<nat>)
    requires p <= |s|
    ensures !OpensAt(s, p) ==> r.None?
    ensures r.Some? ==> OpensAt(s, p) && p + 2 <= r.value && ClosesAt(s, r.value)
  {
    if OpensAt(s, p) then FindClose(s, p + 2) else None
  }

  /** The attempt at `p` succeeds exactly on the one match that starts at `p`. */
  lemma MatchAtIsMatch(s: string, p: nat, j: int)
    requires p <= |s|
    ensures MatchAt(s, p) == Some(j) <==> IsMatch(s, p, j)
  {
  }

  /** A match `p..j` of the pattern: the capture group is `s[open + 2 .. close]`. */
  datatype Span = Span(open: nat, close: nat)

  /**
   * `String.prototype.matchAll` with the global flag: the attempt at `i`
   * either matches, and scanning resumes after its `}}`, or fails, and
   * scanning moves on by one character.
   */
  function ScanFrom(s: string, i: nat): (spans: seq<Span>)
    requires i <= |s|
    ensures forall k :: 0 <= k < |spans| ==>
      && i <= spans[k].open
      && spans[k].open + 2 <= spans[k].close
      && spans[k].close + 2 <= |s|
      && IsMatch(s, spans[k].open, spans[k].close)
    ensures forall k, l :: 0 <= k < l < |spans| ==> spans[k].close + 2 <= spans[l].open
    decreases |s| - i
  {
    if i + 2 > |s| then []
    else
      match MatchAt(s, i)
      case Some(j) =>
        MatchAtIsMatch(s, i, j);
        [Span(i, j)] + ScanFrom(s, j + 2)
      case None => ScanFrom(s, i + 1)
  }

  /** Position `p` lies inside one of the spans, between its `{{` and the end of its `}}`. */
  ghost predicate Covered(spans: seq<Span>, p: int) {
    exists k :: 0 <= k < |spans| && spans[k].open <= p < spans[k].close + 2
  }

  /** Every span is a match that starts at or after `from`. */
  ghost predicate AllMatches(s: string, from: nat, spans: seq<Span>) {
    forall k :: 0 <= k < |spans| ==> from <= spans[k].open && IsMatch(s, spans[k].open, spans[k].close)
  }

  /** The spans are in order and do not overlap. */
  ghost predicate InOrder(spans: seq<Span>) {
    forall k, l :: 0 <= k < l < |spans| ==> spans[k].close + 2 <= spans[l].open
  }

  /** Some match of the pattern starts at `p`. */
  ghost predicate MatchStartsAt(s: string, p: int) {
    exists j :: IsMatch(s, p, j)
  }

  /** Every match that starts at or after `from` starts inside one of the spans. */
  ghost predicate NoneSkipped(s: string, from: nat, spans: seq<Span>) {
    forall p :: from <= p && MatchStartsAt(s, p) ==> Covered(spans, p)
  }

  /**
   * The declarative meaning of a global scan from `from`: the spans are
   * matches, in order and non-overlapping, and none is skipped.
   */
  ghost predicate IsLeftmostScan(s: string, from: nat, spans: seq<Span>) {
    AllMatches(s, from, spans) && InOrder(spans) && NoneSkipped(s, from, spans)
  }

  /** Adding a span in front keeps every covered position covered. */
  lemma CoveredCons(first: Span, rest: seq<Span>, p: int)
    requires Covered(rest, p)
    ensures Covered([first] + rest, p)
  {
    var k :| 0 <= k < |rest| && rest[k].open <= p < rest[k].close + 2;
    assert ([first] + rest)[k + 1] == rest[k];
  }

  /** No match that starts at or after `i` is skipped by the scan. */
  lemma {:induction false} ScanCovers(s: string, i: nat, p: nat, j: int)
    requires i <= p <= |s| && IsMatch(s, p, j)
    ensures Covered(ScanFrom(s, i), p)
    decreases |s| - i
  {
    match MatchAt(s, i)
    case Some(m) =>
      var rest := ScanFrom(s, m + 2);
      assert ScanFrom(s, i) == [Span(i, m)] + rest;
      if p < m + 2 {
        assert ([Span(i, m)] + rest)[0] == Span(i, m);
      } else {
        ScanCovers(s, m + 2, p, j);
        CoveredCons(Span(i, m), rest, p);
      }
    case None =>
      MatchAtIsMatch(s, p, j);
      ScanCovers(s, i + 1, p, j);
  }

  /** The scan finds every match, leftmost first, without overlaps. */
  lemma ScanIsLeftmost(s: string, i: nat)
    requires i <= |s|
    ensures IsLeftmostScan(s, i, ScanFrom(s, i))
  {
    forall p | i <= p && MatchStartsAt(s, p) ensures Covered(ScanFrom(s, i), p) {
      var j :| IsMatch(s, p, j);
      ScanCovers(s, i, p, j);
    }
  }

  /** The first span of a leftmost scan starts at the first match at or after `from`. */
  lemma LeftmostScanFirst(s: string, from: nat, a: seq<Span>, p: nat, j: int)
    requires IsLeftmostScan(s, from, a)
    requires from <= p && IsMatch(s, p, j)
    ensures a != [] && a[0].open <= p
  {
    assert MatchStartsAt(s, p);
    assert Covered(a, p);
    var k :| 0 <= k < |a| && a[k].open <= p < a[k].close + 2;
    if k != 0 {
      assert a[0].close + 2 <= a[k].open;
      assert IsMatch(s, a[0].open, a[0].close);
    }
  }

  /** Two leftmost scans from the same place start with the same match. */
  lemma LeftmostScanHead(s: string, from: nat, a: seq<Span>, b: seq<Span>)
    requires IsLeftmostScan(s, from, a) && IsLeftmostScan(s, from, b)
    requires a != []
    ensures b != [] && a[0] == b[0]
  {
    var pa, ja := a[0].open, a[0].close;
    assert IsMatch(s, pa, ja);
    LeftmostScanFirst(s, from, b, pa, ja);
    var pb, jb := b[0].open, b[0].close;
    assert IsMatch(s, pb, jb);
    LeftmostScanFirst(s, from, a, pb, jb);
    assert pa == pb;
    MatchAtIsMatch(s, pa, ja);
    MatchAtIsMatch(s, pa, jb);
  }

  /** What follows the first match of a leftmost scan is a leftmost scan from after its `}}`. */
  lemma LeftmostScanTail(s: string, from: nat, a: seq<Span>)
    requires IsLeftmostScan(s, from, a) && a != []
    ensures IsLeftmostScan(s, a[0].close + 2, a[1..])
  {
    AllMatchesTail(s, from, a);
    InOrderTail(a);
    NoneSkippedTail(s, from, a);
  }

  lemma AllMatchesTail(s: string, from: nat, a: seq<Span>)
    requires AllMatches(s, from, a) && InOrder(a) && a != []
    ensures AllMatches(s, a[0].close + 2, a[1..])
  {
    forall k | 0 <= k < |a| - 1
      ensures a[0].close + 2 <= a[1..][k].open && IsMatch(s, a[1..][k].open, a[1..][k].close)
    {
      assert a[1..][k] == a[k + 1];
    }
  }

  lemma InOrderTail(a: seq<Span>)
    requires InOrder(a) && a != []
    ensures InOrder(a[1..])
  {
  }

  lemma NoneSkippedTail(s: string, from: nat, a: seq<Span>)
    requires NoneSkipped(s, from, a) && a != [] && from <= a[0].open <= a[0].close
    ensures NoneSkipped(s, a[0].close + 2, a[1..])
  {
    var next := a[0].close + 2;
    forall p | next <= p && MatchStartsAt(s, p) ensures Covered(a[1..], p) {
      var k :| 0 <= k < |a| && a[k].open <= p < a[k].close + 2;
      assert a[1..][k - 1] == a[k];
    }
  }

  /** Two leftmost scans of the same text from the same place are equal. */
  lemma {:induction false} LeftmostScanUnique(s: string, from: nat, a: seq<Span>, b: seq<Span>)
    requires IsLeftmostScan(s, from, a) && IsLeftmostScan(s, from, b)
    ensures a == b
    decreases |a|
  {
    if a != [] {
      LeftmostScanHead(s, from, a, b);
      LeftmostScanTail(s, from, a);
      LeftmostScanTail(s, from, b);
      LeftmostScanUnique(s, a[0].close + 2, a[1..], b[1..]);
      assert a == [a[0]] + a[1..] && b == [b[0]] + b[1..];
    } else if b != [] {
      LeftmostScanHead(s, from, b, a);
    }
  }

  /** The captured names, in match order (`[...v.matchAll(re)].map(m => m[1])`). */
  function Captures(s: string): (names: seq<string>)
    ensures |names| == |ScanFrom(s, 0)|
  {
    var spans := ScanFrom(s, 0);
    seq(|spans|, k requires 0 <= k < |spans| => s[spans[k].open + 2 .. spans[k].close])
  }

  /** Each captured name sits between a `{{` and the nearest `}}`, on one line. */
  lemma CaptureIsDelimited(s: string, k: nat)
    requires k < |Captures(s)|
    ensures var sp := ScanFrom(s, 0)[k];
      && Captures(s)[k] == s[sp.open + 2 .. sp.close]
      && s[sp.open .. sp.open + 2] == "{{" && s[sp.close .. sp.close + 2] == "}}"
      && (forall q :: 0 <= q < |Captures(s)[k]| ==> !IsLineTerminator(Captures(s)[k][q]))
      && (forall q :: 0 <= q && q + 1 < |Captures(s)[k]| ==> !(Captures(s)[k][q] == '}' && Captures(s)[k][q + 1] == '}'))
  {
    var sp := ScanFrom(s, 0)[k];
    var name := Captures(s)[k];
    assert IsMatch(s, sp.open, sp.close);
    forall q | 0 <= q < |name| ensures !IsLineTerminator(name[q]) {
      assert name[q] == s[sp.open + 2 + q];
    }
    forall q | 0 <= q && q + 1 < |name| ensures !(name[q] == '}' && name[q + 1] == '}') {
      assert name[q] == s[sp.open + 2 + q] && name[q + 1] == s[sp.open + 2 + q + 1];
      assert !ClosesAt(s, sp.open + 2 + q);
    }
  }

  // ---------------------------------------------------------------------------
  // The two identifier rules
  // ---------------------------------------------------------------------------

  /** `^[a-zA-Z_][a-zA-Z0-9_]{2,49}$`: the rule behind the error text. */
  predicate IsStrictName(name: string) {
    && 3 <= |name| <= 50
    && (IsAsciiLetter(name[0]) || name[0] == '_')
    && forall k :: 1 <= k < |name| ==> IsWordChar(name[k])
  }

  /** `^[a-zA-Z_$][a-zA-Z0-9_$]*$`: the rule behind the dynamic handles. */
  predicate IsHandleName(name: string) {
    && 1 <= |name|
    && (IsAsciiLetter(name[0]) || name[0] == '_' || name[0] == '$')
    && forall k :: 1 <= k < |name| ==> IsWordChar(name[k]) || name[k] == '$'
  }

  /** Every strictly valid name also gets a handle; the converse fails on `$` and on length. */
  lemma StrictNameIsHandleName(name: string)
    ensures IsStrictName(name) ==> IsHandleName(name)
    ensures IsHandleName("$ab") && !IsStrictName("$ab")
    ensures IsHandleName("ab") && !IsStrictName("ab")
    ensures !IsHandleName("") && !IsStrictName("")
  {
  }

  // ---------------------------------------------------------------------------
  // Filtering, joining
  // ---------------------------------------------------------------------------

  /** `Array.prototype.filter`: the elements that pass, in order, repeats kept. */
  function Filter(keep: string -> bool, xs: seq<string>): (ys: seq<string>)
    ensures |ys| <= |xs|
    ensures forall k :: 0 <= k < |ys| ==> keep(ys[k])
  {
    if xs == [] then []
    else (if keep(xs[0]) then [xs[0]] else []) + Filter(keep, xs[1..])
  }

  /** Filtering keeps every element that passes, as often as it occurs, and drops the others. */
  lemma {:induction false} FilterCount(keep: string -> bool, xs: seq<string>)
    ensures forall x :: multiset(Filter(keep, xs))[x] == if keep(x) then multiset(xs)[x] else 0
  {
    if xs != [] {
      FilterCount(keep, xs[1..]);
      assert xs == [xs[0]] + xs[1..];
    }
  }

  /** An element that passes stays in the filtered list. */
  lemma {:induction false} FilterKeeps(keep: string -> bool, xs: seq<string>, x: string)
    requires x in xs && keep(x)
    ensures x in Filter(keep, xs)
  {
    if xs[0] != x {
      FilterKeeps(keep, xs[1..], x);
    }
  }

  /** What the filtered list holds comes from the list and passes. */
  lemma {:induction false} FilterKept(keep: string -> bool, xs: seq<string>, x: string)
    requires x in Filter(keep, xs)
    ensures x in xs && keep(x)
  {
    if xs[0] != x || !keep(x) {
      FilterKept(keep, xs[1..], x);
    }
  }

  /** Filtering keeps the order: it distributes over concatenation. */
  lemma {:induction false} FilterAppend(keep: string -> bool, xs: seq<string>, ys: seq<string>)
    ensures Filter(keep, xs + ys) == Filter(keep, xs) + Filter(keep, ys)
    decreases |xs|
  {
    if xs == [] {
      assert xs + ys == ys;
    } else {
      assert (xs + ys)[0] == xs[0];
      assert (xs + ys)[1..] == xs[1..] + ys;
      FilterAppend(keep, xs[1..], ys);
    }
  }

  /** `Array.prototype.join(sep)`. */
  function Join(xs: seq<string>, sep: string): string
    decreases |xs|
  {
    if xs == [] then ""
    else if |xs| == 1 then xs[0]
    else xs[0] + sep + Join(xs[1..], sep)
  }

  /** Joining one more element appends the separator and the element. */
  lemma {:induction false} JoinSnoc(xs: seq<string>, x: string, sep: string)
    requires xs != []
    ensures Join(xs + [x], sep) == Join(xs, sep) + sep + x
    decreases |xs|
  {
    if |xs| == 1 {
      assert (xs + [x])[1..] == [x];
    } else {
      assert (xs + [x])[1..] == xs[1..] + [x];
      JoinSnoc(xs[1..], x, sep);
    }
  }

  /** `x` occurs in `t` at offset `o`. */
  predicate OccursAt(t: string, x: string, o: int) {
    0 <= o && o + |x| <= |t| && t[o .. o + |x|] == x
  }

  /** Where the `k`-th element stands in the joined text. */
  function JoinOffset(xs: seq<string>, sep: string, k: nat): (o: nat)
    requires k < |xs|
    ensures OccursAt(Join(xs, sep), xs[k], o)
    decreases k
  {
    if k == 0 then
      assert Join(xs, sep)[0 .. |xs[0]|] == xs[0];
      0
    else
      var d := |xs[0]| + |sep|;
      var tail := Join(xs[1..], sep);
      var o := JoinOffset(xs[1..], sep, k - 1);
      assert Join(xs, sep) == xs[0] + sep + tail;
      assert Join(xs, sep)[d + o .. d + o + |xs[k]|] == tail[o .. o + |xs[k]|];
      d + o
  }

  // ---------------------------------------------------------------------------
  // What the textarea shows
  // ---------------------------------------------------------------------------

  /** The captured names that fail the strict rule (`invalidVars`). */
  function InvalidNames(text: string): (bad: seq<string>)
    ensures |bad| <= |Captures(text)|
    ensures forall k :: 0 <= k < |bad| ==> !IsStrictName(bad[k])
  {
    Filter((name: string) => !IsStrictName(name), Captures(text))
  }

  /** `hasError`: some captured name fails the strict rule. */
  function HasError(text: string): bool {
    |InvalidNames(text)| > 0
  }

  const ErrorHead: string := "Invalid variable name"

  /** `errorText`, the helper text under the field. */
  function ErrorText(invalid: seq<string>): string {
    if |invalid| == 0 then ""
    else ErrorHead + (if |invalid| > 1 then "s" else "") + ": " + Join(invalid, ", ") + " "
  }

  const VarsPrefix: string := "vars-"

  /** The captured names that pass the loose rule: one dynamic handle each. */
  function HandleNames(text: string): (names: seq<string>)
    ensures |names| <= |Captures(text)|
    ensures forall k :: 0 <= k < |names| ==> IsHandleName(names[k])
  {
    Filter(IsHandleName, Captures(text))
  }

  /** The ids of the dynamic target handles, `vars-<name>`, in match order. */
  function HandleIds(text: string): (ids: seq<string>)
    ensures |ids| == |HandleNames(text)|
  {
    var names := HandleNames(text);
    seq(|names|, k requires 0 <= k < |names| => VarsPrefix + names[k])
  }

  // ---------------------------------------------------------------------------
  // Properties
  // ---------------------------------------------------------------------------

  /** A name is reported as invalid exactly as often as it is captured and fails the strict rule. */
  lemma InvalidNamesExact(text: string)
    ensures forall k :: 0 <= k < |InvalidNames(text)| ==> !IsStrictName(InvalidNames(text)[k])
    ensures forall x :: multiset(InvalidNames(text))[x] ==
                        (if IsStrictName(x) then 0 else multiset(Captures(text))[x])
  {
    FilterCount(name => !IsStrictName(name), Captures(text));
  }

  /** The field is in error iff some captured name fails the strict rule. */
  lemma HasErrorIff(text: string)
    ensures HasError(text) <==> exists k :: 0 <= k < |Captures(text)| && !IsStrictName(Captures(text)[k])
  {
    var caps := Captures(text);
    var bad := InvalidNames(text);
    InvalidNamesExact(text);
    if HasError(text) {
      assert bad[0] in multiset(bad);
      assert bad[0] in multiset(caps);
      assert bad[0] in caps;
    } else {
      forall k | 0 <= k < |caps| ensures IsStrictName(caps[k]) {
        assert caps[k] in multiset(caps);
        assert multiset(bad)[caps[k]] == 0;
      }
    }
  }

  /** The error text is empty iff there is nothing invalid, and otherwise reads
      "Invalid variable name", an "s" iff more than one, ": ", the names and a space. */
  lemma ErrorTextShape(invalid: seq<string>)
    ensures ErrorText(invalid) == "" <==> invalid == []
    ensures invalid != [] ==> var t := ErrorText(invalid);
      && StartsWith(t, ErrorHead)
      && (t[|ErrorHead|] == 's' <==> |invalid| > 1)
      && t[|t| - 1] == ' '
    ensures |invalid| == 1 ==> ErrorText(invalid) == ErrorHead + ": " + invalid[0] + " "
  {
    if invalid != [] {
      var t := ErrorText(invalid);
      assert t[..|ErrorHead|] == ErrorHead;
      if |invalid| == 1 {
        assert t[|ErrorHead|] == ':';
      }
    }
  }

  /** The error text names every invalid name. */
  lemma ErrorTextNamesAll(invalid: seq<string>, k: nat)
    requires k < |invalid|
    ensures exists o :: OccursAt(ErrorText(invalid), invalid[k], o)
  {
    var j := Join(invalid, ", ");
    var o := JoinOffset(invalid, ", ", k);
    var head := ErrorHead + (if |invalid| > 1 then "s" else "") + ": ";
    assert ErrorText(invalid) == head + j + " ";
    assert ErrorText(invalid)[|head| + o .. |head| + o + |invalid[k]|] == j[o .. o + |invalid[k]|];
    assert OccursAt(ErrorText(invalid), invalid[k], |head| + o);
  }

  /** One handle per capture that passes the loose rule, with id `vars-` + name, in match order. */
  lemma HandleIdsExact(text: string)
    ensures forall k :: 0 <= k < |HandleIds(text)| ==>
      HandleIds(text)[k] == VarsPrefix + HandleNames(text)[k] && IsHandleName(HandleNames(text)[k])
    ensures forall x :: multiset(HandleNames(text))[x] ==
                        (if IsHandleName(x) then multiset(Captures(text))[x] else 0)
  {
    FilterCount(IsHandleName, Captures(text));
  }

  /** Every dynamic handle id starts with `vars-`. */
  lemma HandleIdsArePrefixed(text: string)
    ensures forall id :: id in HandleIds(text) ==> StartsWith(id, VarsPrefix)
  {
    forall id | id in HandleIds(text) ensures StartsWith(id, VarsPrefix) {
      var k :| 0 <= k < |HandleIds(text)| && HandleIds(text)[k] == id;
      assert id == VarsPrefix + HandleNames(text)[k];
      assert id[..|VarsPrefix|] == VarsPrefix;
    }
  }

  /** Every captured name is either reported invalid or gets a handle (possibly both). */
  lemma EveryCaptureAccounted(text: string, k: nat)
    requires k < |Captures(text)|
    ensures Captures(text)[k] in InvalidNames(text) || Captures(text)[k] in HandleNames(text)
    ensures IsStrictName(Captures(text)[k]) ==> Captures(text)[k] in HandleNames(text)
  {
    var x := Captures(text)[k];
    InvalidNamesExact(text);
    HandleIdsExact(text);
    assert x in multiset(Captures(text));
    StrictNameIsHandleName(x);
    if IsHandleName(x) {
      assert x in multiset(HandleNames(text));
    } else {
      assert x in multiset(InvalidNames(text));
    }
  }

  // ---------------------------------------------------------------------------
  // Worked examples
  // ---------------------------------------------------------------------------

  /** A stretch without `{` holds no match start: the scan passes over it. */
  lemma {:induction false} ScanSkips(s: string, i: nat, k: nat)
    requires i <= k <= |s| && '{' !in s[i..k]
    ensures ScanFrom(s, i) == ScanFrom(s, k)
    decreases k - i
  {
    if i < k {
      assert s[i..k] == [s[i]] + s[i + 1..k];
      ScanSkips(s, i + 1, k);
    }
  }

  /** A stretch without `}` and line terminators followed by `}}` closes there. */
  lemma {:induction false} CloseAfter(s: string, k: nat, m: nat)
    requires k <= m && ClosesAt(s, m) && '}' !in s[k..m]
    requires forall c :: c in s[k..m] ==> !IsLineTerminator(c)
    ensures FindClose(s, k) == Some(m)
    decreases m - k
  {
    if k < m {
      assert s[k..m] == [s[k]] + s[k + 1..m];
      CloseAfter(s, k + 1, m);
    }
  }

  lemma HelloScanTail(s: string)
    requires s == "Hello {{name}} and {{2bad}}"
    ensures ScanFrom(s, 14) == [Span(19, 25)]
  {
    assert OpensAt(s, 19);
    ScanSkips(s, 14, 19);
    CloseAfter(s, 21, 25);
    assert ScanFrom(s, 27) == [];
  }

  lemma HelloScan(s: string)
    requires s == "Hello {{name}} and {{2bad}}"
    ensures ScanFrom(s, 0) == [Span(6, 12), Span(19, 25)]
  {
    assert OpensAt(s, 6);
    ScanSkips(s, 0, 6);
    CloseAfter(s, 8, 12);
    HelloScanTail(s);
  }

  lemma HelloCaps(s: string)
    requires s == "Hello {{name}} and {{2bad}}"
    ensures Captures(s) == ["name", "2bad"]
  {
    HelloScan(s);
    var caps := Captures(s);
    assert caps[0] == s[8..12] == "name";
    assert caps[1] == s[21..25] == "2bad";
  }

  lemma NameIsStrict()
    ensures IsStrictName("name")
  {
    assert forall k :: 1 <= k < 4 ==> IsWordChar("name"[k]);
  }

  lemma HelloInvalid(s: string)
    requires s == "Hello {{name}} and {{2bad}}"
    ensures InvalidNames(s) == ["2bad"]
  {
    HelloCaps(s);
    NameIsStrict();
    FilterPair((name: string) => !IsStrictName(name), "name", "2bad");
  }

  lemma HelloHandleNames(s: string)
    requires s == "Hello {{name}} and {{2bad}}"
    ensures HandleNames(s) == ["name"]
  {
    HelloCaps(s);
    NameIsStrict();
    StrictNameIsHandleName("name");
    assert !IsHandleName("2bad");
    FilterPair(IsHandleName, "name", "2bad");
  }

  lemma HandleIdsOfNames(s: string, names: seq<string>)
    requires HandleNames(s) == names
    ensures HandleIds(s) == seq(|names|, k requires 0 <= k < |names| => VarsPrefix + names[k])
  {
  }

  /** `Hello {{name}} and {{2bad}}`: one invalid name, `2bad`, and one handle, `vars-name`. */
  lemma ExampleOneValidOneInvalid(s: string)
    requires s == "Hello {{name}} and {{2bad}}"
    ensures Captures(s) == ["name", "2bad"]
    ensures InvalidNames(s) == ["2bad"]
    ensures ErrorText(InvalidNames(s)) == "Invalid variable name: 2bad "
    ensures HandleIds(s) == ["vars-name"]
  {
    HelloCaps(s);
    HelloInvalid(s);
    HelloHandleNames(s);
    HandleIdsOfNames(s, ["name"]);
    assert VarsPrefix + "name" == "vars-name";
    ErrorTextShape(["2bad"]);
  }

  lemma FilterPair(keep: string -> bool, a: string, b: string)
    ensures Filter(keep, [a, b]) == (if keep(a) then [a] else []) + (if keep(b) then [b] else [])
  {
    assert [a, b][1..] == [b];
    assert [b][1..] == [];
  }

  /** A third `{` stays in the capture: `{{{a}}` captures `{a`. */
  lemma ExampleExtraBrace(s: string)
    requires s == "{{{a}}"
    ensures Captures(s) == ["{a"]
  {
    CloseAfter(s, 2, 4);
    assert ScanFrom(s, 0) == [Span(0, 4)] + ScanFrom(s, 6);
    assert Captures(s)[0] == s[2..4] == "{a";
  }

  /** An empty `{{}}` is reported as invalid and gets no handle. */
  lemma ExampleEmpty(s: string)
    requires s == "{{}}"
    ensures InvalidNames(s) == [""]
    ensures HandleIds(s) == []
  {
    assert FindClose(s, 2) == Some(2);
    assert ScanFrom(s, 0) == [Span(0, 2)] + ScanFrom(s, 4);
    assert Captures(s)[0] == s[2..2] == "";
    assert Captures(s) == [""];
    assert Captures(s)[1..] == [];
  }

  /** A line break between the braces prevents the match. */
  lemma ExampleLineBreak(s: string)
    requires s == "{{a\nb}}"
    ensures Captures(s) == []
  {
    assert FindClose(s, 2) == None;
    assert ScanFrom(s, 0) == ScanFrom(s, 1);
    ScanSkips(s, 2, 7);
  }

  lemma RepeatedCaps(s: string)
    requires s == "{{$x}}{{$x}}"
    ensures Captures(s) == ["$x", "$x"]
  {
    assert OpensAt(s, 0) && OpensAt(s, 6);
    CloseAfter(s, 2, 4);
    CloseAfter(s, 8, 10);
    assert ScanFrom(s, 6) == [Span(6, 10)] + ScanFrom(s, 12);
    assert ScanFrom(s, 0) == [Span(0, 4), Span(6, 10)];
    var caps := Captures(s);
    assert caps[0] == s[2..4] == "$x";
    assert caps[1] == s[8..10] == "$x";
  }

  /** Repeated names are not merged: two equal handle ids, and two names in a plural error. */
  lemma ExampleRepeated(s: string)
    requires s == "{{$x}}{{$x}}"
    ensures HandleIds(s) == ["vars-$x", "vars-$x"]
    ensures ErrorText(InvalidNames(s)) == "Invalid variable names: $x, $x "
  {
    RepeatedCaps(s);
    RepeatedFromCaps(s);
  }

  lemma RepeatedFromCaps(s: string)
    requires Captures(s) == ["$x", "$x"]
    ensures HandleIds(s) == ["vars-$x", "vars-$x"]
    ensures ErrorText(InvalidNames(s)) == "Invalid variable names: $x, $x "
  {
    assert IsHandleName("$x") && !IsStrictName("$x");
    FilterPair(IsHandleName, "$x", "$x");
    FilterPair((name: string) => !IsStrictName(name), "$x", "$x");
    HandleIdsOfNames(s, ["$x", "$x"]);
    assert VarsPrefix + "$x" == "vars-$x";
    PluralErrorText(InvalidNames(s));
  }

  lemma PluralErrorText(invalid: seq<string>)
    requires invalid == ["$x", "$x"]
    ensures ErrorText(invalid) == "Invalid variable names: $x, $x "
  {
    assert Join(invalid, ", ") == "$x, $x" by {
      assert invalid[1..] == ["$x"];
    }
  }
}
