/**
 The backtracking matcher behind regexec: it parses the pattern as it runs.  The
 specification parses it first and gives the parsed pattern a language.
 */
module Regex {
  /** A byte of a C string; the terminator is not part of the string. */
  type Char = c: int | 0 < c < 256 witness 1
  type Str = seq<Char>

  const CARET: Char := 94
  const DOLLAR: Char := 36
  const STAR: Char := 42
  const DOT: Char := 46
  const BACKSLASH: Char := 92
  const OPEN: Char := 91
  const CLOSE: Char := 93
  const DASH: Char := 45

  /** The byte at index i of a C string, its terminator included. */
  function At(s: Str, i: nat): int
    requires i <= |s|
  {
    if i < |s| then s[i] else 0
  }

  // ---------- Patterns and their language ----------

  datatype Range = Range(lo: Char, hi: Char)
  datatype Atom = Lit(c: Char) | Any | Class(negated: bool, ranges: seq<Range>)
  datatype Elem = Elem(atom: Atom, starred: bool)
  datatype Pattern = Pattern(elems: seq<Elem>, dollar: bool)

  ghost predicate InSome(ranges: seq<Range>, c: Char) {
    exists i :: 0 <= i < |ranges| && ranges[i].lo <= c <= ranges[i].hi
  }

  ghost predicate InAtom(a: Atom, c: Char) {
    match a
    case Lit(d) => c == d
    case Any => true
    case Class(negated, ranges) => negated != InSome(ranges, c)
  }

  ghost predicate AllIn(a: Atom, w: Str) { forall i :: 0 <= i < |w| ==> InAtom(a, w[i]) }

  /** The words of one element: one character, or any number of them. */
  ghost predicate ElemLang(e: Elem, w: Str) { AllIn(e.atom, w) && (e.starred || |w| == 1) }

  /** The words of a pattern body: concatenation. */
  ghost predicate Lang(es: seq<Elem>, w: Str) {
    if es == [] then w == []
    else exists k :: 0 <= k <= |w| && ElemLang(es[0], w[..k]) && Lang(es[1..], w[k..])
  }

  ghost predicate PrefixIn(p: Pattern, s: Str, n: nat)
    requires n <= |s|
  {
    Lang(p.elems, s[..n]) && (p.dollar ==> n == |s|)
  }

  /** Some prefix of s, or all of s under a dollar, is in the language. */
  ghost predicate Accepts(p: Pattern, s: Str) {
    exists n :: 0 <= n <= |s| && PrefixIn(p, s, n)
  }

  // ---------- Parsing ----------

  /** The first closing bracket from i on, or the end. */
  function FindClose(p: Str, i: nat): (j: nat)
    requires i <= |p|
    ensures i <= j <= |p| && (j < |p| ==> p[j] == CLOSE)
    ensures forall k :: i <= k < j ==> p[k] != CLOSE
    decreases |p| - i
  {
    if i < |p| && p[i] != CLOSE then FindClose(p, i + 1) else i
  }

  /** A caret and a bracket right at the start do not close the class. */
  function ClassStart(p: Str): (i: nat)
    ensures i <= |p|
  {
    var i := if At(p, 0) == CARET then 1 else 0;
    if At(p, i) == CLOSE then i + 1 else i
  }

  /** The ranges written in a class body; a single character is a range of one. */
  function Ranges(body: Str): seq<Range> {
    if body == [] then []
    else if |body| > 2 && body[1] == DASH then [Range(body[0], body[2])] + Ranges(body[3..])
    else [Range(body[0], body[0])] + Ranges(body[1..])
  }

  function ParseClass(body: Str): Atom {
    if body != [] && body[0] == CARET then Class(true, Ranges(body[1..])) else Class(false, Ranges(body))
  }

  function AtomLen(p: Str): (n: nat)
    requires p != []
    ensures n >= 1
  {
    if p[0] == BACKSLASH && |p| > 1 then 2
    else if p[0] == OPEN then FindClose(p[1..], ClassStart(p[1..])) + 2
    else 1
  }

  function ParseAtom(p: Str): Atom
    requires p != []
  {
    if p[0] == BACKSLASH && |p| > 1 then Lit(p[1])
    else if p[0] == DOT then Any
    else if p[0] == OPEN then ParseClass(p[1..1 + FindClose(p[1..], ClassStart(p[1..]))])
    else Lit(p[0])
  }

  predicate Starred(p: Str)
    requires p != [] && AtomLen(p) <= |p|
  {
    At(p, AtomLen(p)) == STAR
  }

  /** What follows the first element. */
  function Rest(p: Str): (r: Str)
    requires p != [] && AtomLen(p) <= |p|
    ensures |r| < |p|
  {
    if Starred(p) then p[AtomLen(p) + 1..] else p[AtomLen(p)..]
  }

  /** Every bracket that opens a class is closed. */
  predicate Closed(p: Str) {
    p == [] || p == [DOLLAR] || (AtomLen(p) <= |p| && Closed(Rest(p)))
  }

  function Parse(p: Str): Pattern
    requires Closed(p)
  {
    if p == [] then Pattern([], false)
    else if p == [DOLLAR] then Pattern([], true)
    else
      var rest := Parse(Rest(p));
      Pattern([Elem(ParseAtom(p), Starred(p))] + rest.elems, rest.dollar)
  }

  // ---------- Every pattern has a spelling ----------

  function PrintRanges(rs: seq<Range>): Str {
    if rs == [] then [] else [rs[0].lo, DASH, rs[0].hi] + PrintRanges(rs[1..])
  }

  function PrintBody(negated: bool, rs: seq<Range>): Str { (if negated then [CARET] else []) + PrintRanges(rs) }

  function PrintAtom(a: Atom): Str {
    match a
    case Lit(c) => [BACKSLASH, c]
    case Any => [DOT]
    case Class(negated, rs) => [OPEN] + PrintBody(negated, rs) + [CLOSE]
  }

  function PrintElem(e: Elem): Str { PrintAtom(e.atom) + (if e.starred then [STAR] else []) }

  function Print(p: Pattern): Str
    decreases |p.elems|
  {
    if p.elems == [] then (if p.dollar then [DOLLAR] else [])
    else PrintElem(p.elems[0]) + Print(p.(elems := p.elems[1..]))
  }

  predicate NoClose(rs: seq<Range>) { forall i :: 0 <= i < |rs| ==> rs[i].lo != CLOSE && rs[i].hi != CLOSE }

  /** What the syntax can say of a class: it is not empty, and brackets and a leading caret are taken. */
  predicate Printable(a: Atom) {
    a.Class? ==> a.ranges != [] && NoClose(a.ranges) && (a.negated || a.ranges[0].lo != CARET)
  }

  lemma {:induction false} RangesOfPrint(rs: seq<Range>)
    ensures Ranges(PrintRanges(rs)) == rs
  {
    if rs != [] {
      var s := PrintRanges(rs);
      assert s[3..] == PrintRanges(rs[1..]);
      RangesOfPrint(rs[1..]);
    }
  }

  lemma {:induction false} PrintHasNoClose(rs: seq<Range>)
    requires NoClose(rs)
    ensures CLOSE !in PrintRanges(rs)
  {
    if rs != [] {
      PrintHasNoClose(rs[1..]);
    }
  }

  lemma ClassOfPrint(negated: bool, rs: seq<Range>, tail: Str)
    requires Printable(Class(negated, rs))
    ensures ParseClass(PrintBody(negated, rs)) == Class(negated, rs)
    ensures var q := PrintBody(negated, rs) + [CLOSE] + tail;
      FindClose(q, ClassStart(q)) == |PrintBody(negated, rs)|
  {
    RangesOfPrint(rs);
    PrintHasNoClose(rs);
    var b := PrintRanges(rs);
    var body := PrintBody(negated, rs);
    assert |b| >= 3 && b[0] == rs[0].lo;
    assert negated ==> body[1..] == b;
    assert !negated ==> body == b;
    hide PrintRanges, PrintBody;
    var q := body + [CLOSE] + tail;
    assert forall i :: 0 <= i < |body| ==> q[i] == body[i];
    assert CLOSE !in body;
    assert q[|body|] == CLOSE;
  }

  lemma ClassAtomOfPrint(negated: bool, rs: seq<Range>, tail: Str)
    requires Printable(Class(negated, rs))
    ensures var p := PrintAtom(Class(negated, rs)) + tail;
      AtomLen(p) == |PrintBody(negated, rs)| + 2 && ParseAtom(p) == Class(negated, rs)
  {
    ClassOfPrint(negated, rs, tail);
    var body := PrintBody(negated, rs);
    var q := body + [CLOSE] + tail;
    var p := PrintAtom(Class(negated, rs)) + tail;
    assert p == [OPEN] + q;
    hide *;
    OpenAtom(q, |body|);
    assert q[..|body|] == body;
  }

  lemma OpenAtom(q: Str, n: nat)
    requires FindClose(q, ClassStart(q)) == n
    ensures AtomLen([OPEN] + q) == n + 2 && ParseAtom([OPEN] + q) == ParseClass(q[..n])
  {
    hide FindClose, ClassStart, ParseClass;
    var p := [OPEN] + q;
    assert p[1..] == q && p[1..1 + n] == q[..n];
  }

  lemma AtomOfPrint(a: Atom, tail: Str)
    requires Printable(a)
    ensures var p := PrintAtom(a) + tail;
      AtomLen(p) == |PrintAtom(a)| <= |p| && ParseAtom(p) == a && p[0] in {BACKSLASH, DOT, OPEN}
  {
    hide PrintBody, FindClose, ClassStart, ParseClass, Printable;
    match a {
      case Class(negated, rs) => ClassAtomOfPrint(negated, rs, tail);
      case Lit(c) =>
        var p := PrintAtom(a) + tail;
        assert p[0] == BACKSLASH && p[1] == c;
      case Any =>
        var p := PrintAtom(a) + tail;
        assert p[0] == DOT;
    }
  }

  lemma ElemOfPrint(e: Elem, tail: Str)
    requires Printable(e.atom) && (tail == [] || tail[0] != STAR)
    ensures var p := PrintElem(e) + tail;
      && p != [] && p != [DOLLAR] && p[0] != STAR && AtomLen(p) <= |p|
      && ParseAtom(p) == e.atom && Starred(p) == e.starred && Rest(p) == tail
  {
    var p := PrintElem(e) + tail;
    var after := (if e.starred then [STAR] else []) + tail;
    assert p == PrintAtom(e.atom) + after;
    AtomOfPrint(e.atom, after);
    hide AtomLen, ParseAtom, PrintAtom;
    assert p[|PrintAtom(e.atom)|..] == after;
  }

  /** Parsing undoes printing, so the parser reads every pattern the syntax can spell. */
  lemma {:induction false} ParseOfPrint(p: Pattern)
    requires forall i :: 0 <= i < |p.elems| ==> Printable(p.elems[i].atom)
    ensures Closed(Print(p)) && Parse(Print(p)) == p
    ensures Print(p) == [] || Print(p)[0] != STAR
    decreases |p.elems|
  {
    if p.elems != [] {
      var rest := p.(elems := p.elems[1..]);
      ParseOfPrint(rest);
      ElemOfPrint(p.elems[0], Print(rest));
      hide AtomLen, ParseAtom, PrintElem, Starred, Rest;
      assert [p.elems[0]] + rest.elems == p.elems;
    }
  }

  // ---------- The helpers ----------

  /** _match_class */
  method MatchClass(body: Str, c: Char) returns (r: bool)
    ensures r <==> InAtom(ParseClass(body), c)
  {
    var negate, i := false, 0;
    if i < |body| && body[i] == CARET {
      negate := true;
      i := i + 1;
    }
    var found := false;
    ghost var all := Ranges(body[i..]);
    while i < |body|
      invariant i <= |body|
      invariant InSome(all, c) <==> found || InSome(Ranges(body[i..]), c)
    {
      ghost var tail := body[i..];
      if i + 2 < |body| && body[i + 1] == DASH {
        if c >= body[i] && c <= body[i + 2] { found := true; }
        assert tail[3..] == body[i + 3..];
        InSomeCons(Range(body[i], body[i + 2]), Ranges(body[i + 3..]), c);
        i := i + 3;
      } else {
        if c == body[i] { found := true; }
        assert tail[1..] == body[i + 1..];
        InSomeCons(Range(body[i], body[i]), Ranges(body[i + 1..]), c);
        i := i + 1;
      }
    }
    r := if negate then !found else found;
  }

  lemma InSomeCons(r: Range, ranges: seq<Range>, c: Char)
    ensures InSome([r] + ranges, c) <==> r.lo <= c <= r.hi || InSome(ranges, c)
  {
    var all := [r] + ranges;
    if InSome(ranges, c) {
      var i :| 0 <= i < |ranges| && ranges[i].lo <= c <= ranges[i].hi;
      assert all[i + 1] == ranges[i];
    }
    if r.lo <= c <= r.hi { assert all[0] == r; }
    if InSome(all, c) {
      var i :| 0 <= i < |all| && all[i].lo <= c <= all[i].hi;
      if i > 0 { assert all[i] == ranges[i - 1]; }
    }
  }

  /** _class_end */
  method ClassEnd(p: Str) returns (i: nat)
    ensures i == FindClose(p, ClassStart(p))
  {
    i := 0;
    if At(p, i) == CARET { i := i + 1; }
    if At(p, i) == CLOSE { i := i + 1; }
    while At(p, i) != 0 && At(p, i) != CLOSE
      invariant i <= |p| && FindClose(p, i) == FindClose(p, ClassStart(p))
      decreases |p| - i
    {
      i := i + 1;
    }
  }

  /** _atom_match: its length, and whether it takes c. */
  method AtomMatch(p: Str, c: Char) returns (len: nat, matched: bool)
    requires p != []
    ensures len == AtomLen(p)
    ensures matched <==> InAtom(ParseAtom(p), c)
  {
    if p[0] == BACKSLASH && At(p, 1) != 0 {
      return 2, c == p[1];
    }
    if p[0] == DOT {
      return 1, true;
    }
    if p[0] == OPEN {
      var end := ClassEnd(p[1..]);
      matched := MatchClass(p[1..1 + end], c);
      return end + 2, matched;
    }
    return 1, c == p[0];
  }

  /** _atom_len */
  method ComputeAtomLen(p: Str) returns (len: nat)
    requires p != []
    ensures len == AtomLen(p)
  {
    if p[0] == BACKSLASH && At(p, 1) != 0 { return 2; }
    if p[0] == OPEN {
      var end := ClassEnd(p[1..]);
      return end + 2;
    }
    return 1;
  }

  // ---------- The language, one element at a time ----------

  lemma AcceptsEmpty(dollar: bool, s: Str)
    ensures Accepts(Pattern([], dollar), s) <==> (dollar ==> s == [])
  {
    var p := Pattern([], dollar);
    if dollar {
      assert s[..|s|] == s;
      if s == [] { assert PrefixIn(p, s, 0); }
    } else {
      assert PrefixIn(p, s, 0);
    }
  }

  function Tail(p: Pattern): Pattern
    requires p.elems != []
  {
    p.(elems := p.elems[1..])
  }

  /** The first element takes a piece of s, and the others accept what is left. */
  lemma AcceptsCons(p: Pattern, s: Str, k: nat)
    requires p.elems != [] && k <= |s|
    requires ElemLang(p.elems[0], s[..k]) && Accepts(Tail(p), s[k..])
    ensures Accepts(p, s)
  {
    hide ElemLang;
    var m :| 0 <= m <= |s[k..]| && PrefixIn(Tail(p), s[k..], m);
    var w := s[..k + m];
    assert w[..k] == s[..k] && w[k..] == s[k..][..m];
    assert Lang(p.elems, w);
    assert PrefixIn(p, s, k + m);
  }

  lemma AcceptsSplit(p: Pattern, s: Str) returns (k: nat)
    requires p.elems != [] && Accepts(p, s)
    ensures k <= |s| && ElemLang(p.elems[0], s[..k]) && Accepts(Tail(p), s[k..])
  {
    hide ElemLang;
    var n :| 0 <= n <= |s| && PrefixIn(p, s, n);
    var w := s[..n];
    k :| 0 <= k <= |w| && ElemLang(p.elems[0], w[..k]) && Lang(p.elems[1..], w[k..]);
    assert w[..k] == s[..k] && w[k..] == s[k..][..n - k];
    assert PrefixIn(Tail(p), s[k..], n - k);
  }

  lemma ParseTail(p: Str)
    requires p != [] && p != [DOLLAR] && Closed(p)
    ensures Parse(p).elems != [] && Parse(p).elems[0] == Elem(ParseAtom(p), Starred(p))
    ensures Tail(Parse(p)) == Parse(Rest(p))
  {
    hide ParseAtom, Starred, Rest, AtomLen;
    assert Parse(p).elems[1..] == Parse(Rest(p)).elems;
  }

  // ---------- The matcher ----------

  /** The longest run of characters at the start of s that the first atom of p takes. */
  method CountRun(p: Str, s: Str) returns (max: nat)
    requires p != []
    ensures max <= |s| && AllIn(ParseAtom(p), s[..max])
    ensures max < |s| ==> !InAtom(ParseAtom(p), s[max])
  {
    hide InAtom, ParseAtom;
    max := 0;
    while At(s, max) != 0
      invariant max <= |s| && AllIn(ParseAtom(p), s[..max])
      decreases |s| - max
    {
      var _, matched := AtomMatch(p, s[max]);
      if !matched { break; }
      max := max + 1;
    }
  }

  /** _do_match: greedy backtracking decides the language, for every subject. */
  method DoMatch(p: Str, s: Str) returns (r: bool)
    requires Closed(p)
    ensures r <==> Accepts(Parse(p), s)
    decreases |p|
  {
    if p == [] {
      AcceptsEmpty(false, s);
      return true;
    }
    if p[0] == DOLLAR && At(p, 1) == 0 {
      AcceptsEmpty(true, s);
      return At(s, 0) == 0;
    }
    hide Accepts, AllIn, ParseAtom, AtomLen;
    ParseTail(p);
    var len := ComputeAtomLen(p);
    if At(p, len) == STAR {
      r := MatchStar(p, s);
      return;
    }
    r := MatchOne(p, s);
  }

  method MatchStar(p: Str, s: Str) returns (r: bool)
    requires p != [] && p != [DOLLAR] && Closed(p) && Starred(p)
    ensures r <==> Accepts(Parse(p), s)
    decreases |p|, 0
  {
    hide Accepts, ParseAtom, AtomLen, Parse, InAtom;
    ParseTail(p);
    var next := Rest(p);
    var max := CountRun(p, s);
    var i := max;
    while i >= 0
      invariant -1 <= i <= max
      invariant forall k :: i < k <= max ==> !Accepts(Parse(next), s[k..])
    {
      var m := DoMatch(next, s[i..]);
      if m {
        assert AllIn(ParseAtom(p), s[..i]);
        AcceptsCons(Parse(p), s, i);
        return true;
      }
      i := i - 1;
    }
    if Accepts(Parse(p), s) {
      var _ := AcceptsSplit(Parse(p), s);
    }
    r := false;
  }

  method MatchOne(p: Str, s: Str) returns (r: bool)
    requires p != [] && p != [DOLLAR] && Closed(p) && !Starred(p)
    ensures r <==> Accepts(Parse(p), s)
    decreases |p|, 0
  {
    hide Accepts, ParseAtom, AtomLen, Parse, InAtom;
    ParseTail(p);
    ghost var k := 0;
    if Accepts(Parse(p), s) {
      k := AcceptsSplit(Parse(p), s);
      assert s[..k][0] == s[0];
    }
    if At(s, 0) == 0 { return false; }
    var _, matched := AtomMatch(p, s[0]);
    if !matched { return false; }
    r := DoMatch(Rest(p), s[1..]);
    if r {
      assert ElemLang(Parse(p).elems[0], s[..1]);
      AcceptsCons(Parse(p), s, 1);
    }
  }

  // ---------- The search ----------

  predicate Caret(p: Str) { p != [] && p[0] == CARET }

  /** The pattern without its caret. */
  function Body(p: Str): Str { if Caret(p) then p[1..] else p }

  ghost predicate OccursAt(p: Pattern, caret: bool, s: Str, j: nat) {
    j <= |s| && (caret ==> j == 0) && Accepts(p, s[j..])
  }

  /** The pattern matches somewhere in the subject. */
  ghost predicate Occurs(p: Pattern, caret: bool, s: Str) { exists j: nat :: OccursAt(p, caret, s, j) }

  ghost predicate AllStarred(es: seq<Elem>) { forall i :: 0 <= i < |es| ==> es[i].starred }

  ghost predicate InSomeAtom(es: seq<Elem>, c: Char) { exists i :: 0 <= i < |es| && InAtom(es[i].atom, c) }

  /**
   The matches the search does not see: an unanchored pattern of starred elements under a
   dollar matches at the very end of any subject, but the loop stops before the empty
   suffix, and a last character outside every atom leaves nothing else to find.
   */
  ghost predicate Missed(p: Pattern, caret: bool, s: Str) {
    && !caret && s != [] && p.dollar && AllStarred(p.elems)
    && !InSomeAtom(p.elems, s[|s| - 1])
  }

  predicate Tried(s: Str, j: nat) { j == 0 || j < |s| }

  ghost predicate OccursWhereTried(p: Pattern, caret: bool, s: Str) {
    exists j: nat :: Tried(s, j) && OccursAt(p, caret, s, j)
  }

  lemma {:induction false} EmptyWord(es: seq<Elem>)
    ensures Lang(es, []) <==> AllStarred(es)
  {
    if es != [] {
      var e: Str := [];
      assert e[..0] == e && e[0..] == e;
      EmptyWord(es[1..]);
      StarredCons(es);
      if AllStarred(es) { assert ElemLang(es[0], e[..0]) && Lang(es[1..], e[0..]); }
    }
  }

  lemma StarredCons(es: seq<Elem>)
    requires es != []
    ensures AllStarred(es) <==> es[0].starred && AllStarred(es[1..])
  {
    var rest := es[1..];
    assert forall i :: 0 <= i < |rest| ==> rest[i] == es[i + 1];
    assert forall i :: 0 < i < |es| ==> es[i] == rest[i - 1];
  }

  lemma InSomeAtomCons(es: seq<Elem>, c: Char)
    requires es != []
    ensures InSomeAtom(es, c) <==> InAtom(es[0].atom, c) || InSomeAtom(es[1..], c)
  {
    hide InAtom;
    var rest := es[1..];
    assert forall i :: 0 <= i < |rest| ==> rest[i] == es[i + 1];
    assert forall i :: 0 < i < |es| ==> es[i] == rest[i - 1];
    if InSomeAtom(rest, c) {
      var i :| 0 <= i < |rest| && InAtom(rest[i].atom, c);
      assert InAtom(es[i + 1].atom, c);
    }
  }

  /** Starred elements have a one-character word exactly for the characters of their atoms. */
  lemma {:induction false} OneCharWord(es: seq<Elem>, c: Char)
    requires AllStarred(es) && InSomeAtom(es, c)
    ensures Lang(es, [c])
  {
    StarredCons(es);
    InSomeAtomCons(es, c);
    hide InAtom, InSomeAtom;
    var w: Str := [c];
    if InAtom(es[0].atom, c) {
      EmptyWord(es[1..]);
      assert w[..1] == w && w[1..] == [];
      assert ElemLang(es[0], w[..1]) && Lang(es[1..], w[1..]);
    } else {
      OneCharWord(es[1..], c);
      assert w[0..] == w;
      assert ElemLang(es[0], w[..0]) && Lang(es[1..], w[0..]);
    }
  }

  lemma LastInElem(e: Elem, w: Str)
    requires ElemLang(e, w) && w != []
    ensures InAtom(e.atom, w[|w| - 1])
  {
    hide InAtom;
  }

  lemma {:induction false} LastCharOfWord(es: seq<Elem>, w: Str)
    requires Lang(es, w) && w != []
    ensures InSomeAtom(es, w[|w| - 1])
    decreases |es|
  {
    var c := w[|w| - 1];
    InSomeAtomCons(es, c);
    var k :| 0 <= k <= |w| && ElemLang(es[0], w[..k]) && Lang(es[1..], w[k..]);
    hide InAtom, InSomeAtom, Lang, ElemLang;
    if k == |w| {
      assert w[..k] == w;
      LastInElem(es[0], w);
    } else {
      assert w[k..][|w| - k - 1] == c;
      LastCharOfWord(es[1..], w[k..]);
    }
  }

  /** A match at the end only, in the words of the pattern. */
  lemma OnlyAtTheEnd(p: Pattern, s: Str)
    requires s != [] && Accepts(p, []) && !OccursWhereTried(p, false, s)
    ensures Missed(p, false, s)
  {
    var n :| 0 <= n <= 0 && PrefixIn(p, [], n);
    var e: Str := [];
    assert e[..0] == e;
    EmptyWord(p.elems);
    if !p.dollar {
      assert s[0..] == s && s[..0] == [];
      assert PrefixIn(p, s, 0);
      assert Tried(s, 0) && OccursAt(p, false, s, 0);
    }
    var j := |s| - 1;
    if InSomeAtom(p.elems, s[j]) {
      OneCharWord(p.elems, s[j]);
      assert s[j..] == [s[j]] && s[j..][..1] == [s[j]];
      assert PrefixIn(p, s[j..], 1);
      assert Tried(s, j) && OccursAt(p, false, s, j);
    }
  }

  lemma MissedIsNotTried(p: Pattern, s: Str, j: nat)
    requires Missed(p, false, s) && Tried(s, j)
    ensures !OccursAt(p, false, s, j)
  {
    if OccursAt(p, false, s, j) {
      var t := s[j..];
      var n :| 0 <= n <= |t| && PrefixIn(p, t, n);
      assert t[..n] == t && t[|t| - 1] == s[|s| - 1];
      LastCharOfWord(p.elems, t);
    }
  }

  lemma MissedOccurs(p: Pattern, s: Str)
    requires Missed(p, false, s)
    ensures Occurs(p, false, s)
  {
    EmptyWord(p.elems);
    var e := s[|s|..];
    assert e == [] && e[..0] == [];
    assert PrefixIn(p, e, 0);
    assert OccursAt(p, false, s, |s|);
  }

  /** The offsets the loop tries are enough, except for the missed matches. */
  lemma SearchIsExact(p: Pattern, caret: bool, s: Str)
    ensures OccursWhereTried(p, caret, s) <==> Occurs(p, caret, s) && !Missed(p, caret, s)
  {
    hide Accepts, Missed;
    if OccursWhereTried(p, caret, s) {
      var j: nat :| Tried(s, j) && OccursAt(p, caret, s, j);
      assert Occurs(p, caret, s);
      if Missed(p, caret, s) {
        assert !caret by { MissedNeedsNoCaret(p, caret, s); }
        MissedIsNotTried(p, s, j);
      }
    } else if Occurs(p, caret, s) {
      var j: nat :| OccursAt(p, caret, s, j);
      assert !Tried(s, j) && j == |s| && s[j..] == [];
      OnlyAtTheEnd(p, s);
    }
  }

  lemma MissedNeedsNoCaret(p: Pattern, caret: bool, s: Str)
    requires Missed(p, caret, s)
    ensures !caret
  {
  }

  /** A lone dollar matches at the end of every subject, and is found in the empty one only. */
  lemma DollarIsMissed(s: Str)
    requires s != []
    ensures Parse([DOLLAR]) == Pattern([], true)
    ensures Occurs(Parse([DOLLAR]), false, s) && !OccursWhereTried(Parse([DOLLAR]), false, s)
  {
    var p := Pattern([], true);
    assert Missed(p, false, s);
    MissedOccurs(p, s);
    SearchIsExact(p, false, s);
  }

  /** A match of the pattern from so to eo. */
  ghost predicate Spans(p: Pattern, s: Str, so: nat, eo: nat) {
    so <= eo <= |s| && PrefixIn(p, s[so..], eo - so)
  }

  lemma WholeRest(p: Pattern, s: Str, so: nat)
    requires so <= |s|
    ensures Spans(p, s, so, |s|) <==> Lang(p.elems, s[so..])
    ensures p.dollar && Accepts(p, s[so..]) ==> Spans(p, s, so, |s|)
  {
    var rest := s[so..];
    assert rest[..|rest|] == rest;
  }

  // ---------- When the reported end is the end of a match ----------

  /** The pattern body with a dollar at its end; a lone backslash there is spelled out first. */
  function WithDollar(p: Str): Str
    requires Closed(p)
  {
    if p == [] || p == [DOLLAR] then [DOLLAR]
    else if p == [BACKSLASH] then [BACKSLASH, BACKSLASH, DOLLAR]
    else p[..|p| - |Rest(p)|] + WithDollar(Rest(p))
  }

  ghost predicate Appended(p: Str, q: Str) {
    (q == p || q == p + [DOLLAR] || q == p + [BACKSLASH, DOLLAR]) && q != [] && (p != [] ==> q[0] == p[0])
  }

  lemma {:induction false} DollarIsAppended(p: Str)
    requires Closed(p)
    ensures Appended(p, WithDollar(p))
  {
    if p == [] {
      assert p + [DOLLAR] == [DOLLAR];
    } else if p == [BACKSLASH] {
      assert p + [BACKSLASH, DOLLAR] == [BACKSLASH, BACKSLASH, DOLLAR];
    } else if p != [DOLLAR] {
      DollarIsAppended(Rest(p));
      RestIsSuffix(p);
      hide Rest, AtomLen, Appended, Closed;
      AppendedLonger(p[..|p| - |Rest(p)|], Rest(p), WithDollar(Rest(p)));
    }
  }

  lemma AppendedLonger(head: Str, p: Str, q: Str)
    requires head != [] && Appended(p, q)
    ensures Appended(head + p, head + q)
  {
    assert head + p + [DOLLAR] == head + (p + [DOLLAR]);
    assert head + p + [BACKSLASH, DOLLAR] == head + (p + [BACKSLASH, DOLLAR]);
  }

  lemma RestIsSuffix(p: Str)
    requires p != [] && AtomLen(p) <= |p|
    ensures p == p[..|p| - |Rest(p)|] + Rest(p)
    ensures |p| - |Rest(p)| == AtomLen(p) + (if Starred(p) then 1 else 0)
  {
    hide AtomLen;
  }

  lemma {:induction false} SameClose(p: Str, q: Str, i: nat)
    requires i <= |p| && FindClose(p, i) < |p| && p[..FindClose(p, i) + 1] <= q
    ensures FindClose(q, i) == FindClose(p, i)
    decreases |p| - i
  {
    var n := FindClose(p, i);
    assert p[..n + 1][i] == q[i] == p[i];
    if p[i] != CLOSE { SameClose(p, q, i + 1); }
  }

  /** A first atom is read the same whatever follows it, but for a lone backslash. */
  lemma SameAtom(p: Str, tail: Str)
    requires p != [] && AtomLen(p) <= |p| && p != [BACKSLASH]
    ensures var q := p[..AtomLen(p)] + tail; AtomLen(q) == AtomLen(p) && ParseAtom(q) == ParseAtom(p)
  {
    var q := p[..AtomLen(p)] + tail;
    assert q[0] == p[0];
    if p[0] == OPEN {
      SameClass(p, q);
    } else if p[0] == BACKSLASH {
      assert q[1] == p[1];
    }
  }

  lemma SameClass(p: Str, q: Str)
    requires p != [] && p[0] == OPEN && AtomLen(p) <= |p| && p[..AtomLen(p)] <= q
    ensures AtomLen(q) == AtomLen(p) && ParseAtom(q) == ParseAtom(p)
  {
    var n := FindClose(p[1..], ClassStart(p[1..]));
    var head := p[..n + 2];
    assert forall i :: 0 <= i < n + 2 ==> p[i] == head[i] == q[i];
    assert p[1..][..n + 1] == head[1..] && head[1..] <= q[1..];
    assert forall i :: 0 <= i <= n ==> p[1..][i] == q[1..][i];
    assert ClassStart(p[1..]) == ClassStart(q[1..]);
    SameClose(p[1..], q[1..], ClassStart(p[1..]));
    assert p[1..1 + n] == q[1..1 + n];
  }

  lemma SameElem(p: Str, tail: Str)
    requires p != [] && AtomLen(p) <= |p| && p != [BACKSLASH]
    requires Starred(p) || tail == [] || tail[0] != STAR
    ensures var q := p[..|p| - |Rest(p)|] + tail;
      q != [] && AtomLen(q) <= |q| && ParseAtom(q) == ParseAtom(p) && Starred(q) == Starred(p) && Rest(q) == tail
  {
    RestIsSuffix(p);
    hide AtomLen, ParseAtom;
    var n := AtomLen(p);
    var q := p[..|p| - |Rest(p)|] + tail;
    var after := (if Starred(p) then [STAR] else []) + tail;
    assert q == p[..n] + after;
    SameAtom(p, after);
    assert q[n..] == after;
  }

  /** Whatever the pattern, its spelling with a dollar reads as the same elements under a dollar. */
  lemma {:induction false} DollarParses(p: Str)
    requires Closed(p)
    ensures Closed(WithDollar(p)) && Parse(WithDollar(p)) == Parse(p).(dollar := true)
  {
    if p == [BACKSLASH] {
      var q: Str := [BACKSLASH, BACKSLASH, DOLLAR];
      assert Rest(q) == [DOLLAR] && Rest(p) == [];
    } else if p != [] && p != [DOLLAR] {
      var rest := Rest(p);
      DollarParses(rest);
      DollarIsAppended(rest);
      SameElem(p, WithDollar(rest));
      var q := WithDollar(p);
      assert |q| >= 2;
      hide AtomLen, ParseAtom, Starred, Rest, WithDollar;
    }
  }
  /** The whole pattern with a dollar at its end. */
  function DollarPattern(pattern: Str): Str
    requires Closed(Body(pattern))
  {
    (if Caret(pattern) then [CARET] else []) + WithDollar(Body(pattern))
  }

  lemma DollarPatternParses(pattern: Str)
    requires Closed(Body(pattern))
    ensures var q := DollarPattern(pattern);
      && Caret(q) == Caret(pattern) && Closed(Body(q))
      && Parse(Body(q)) == Parse(Body(pattern)).(dollar := true)
  {
    hide WithDollar, Closed, Parse;
    DollarIsAppended(Body(pattern));
    DollarParses(Body(pattern));
    assert Body(DollarPattern(pattern)) == WithDollar(Body(pattern));
  }

  /** The first offset at which the pattern matches. */
  ghost predicate FirstAt(p: Pattern, caret: bool, s: Str, j: nat) {
    OccursAt(p, caret, s, j) && forall i :: 0 <= i < j ==> !OccursAt(p, caret, s, i)
  }

  lemma DollarIsStricter(p: Pattern, s: Str)
    requires Accepts(p.(dollar := true), s)
    ensures Accepts(p, s)
  {
    var n :| 0 <= n <= |s| && PrefixIn(p.(dollar := true), s, n);
    assert PrefixIn(p, s, n);
  }

  /** From the first match on, the rest of the subject is a match iff it is the first one under a dollar. */
  lemma SpanIsDollarMatch(p: Pattern, caret: bool, s: Str, so: nat)
    requires FirstAt(p, caret, s, so)
    ensures Spans(p, s, so, |s|) <==> FirstAt(p.(dollar := true), caret, s, so)
  {
    var q := p.(dollar := true);
    WholeRest(p, s, so);
    WholeRest(q, s, so);
    if Spans(p, s, so, |s|) {
      assert PrefixIn(q, s[so..], |s| - so);
      forall i | 0 <= i < so
        ensures !OccursAt(q, caret, s, i)
      {
        if OccursAt(q, caret, s, i) {
          DollarIsStricter(p, s[i..]);
          assert OccursAt(p, caret, s, i);
        }
      }
    }
  }

  ghost predicate StarFree(es: seq<Elem>) { forall i :: 0 <= i < |es| ==> !es[i].starred }

  lemma {:induction false} StarFreeWord(es: seq<Elem>, w: Str)
    requires StarFree(es) && Lang(es, w)
    ensures |w| == |es|
    decreases |es|
  {
    if es != [] {
      var k :| 0 <= k <= |w| && ElemLang(es[0], w[..k]) && Lang(es[1..], w[k..]);
      StarFreeWord(es[1..], w[k..]);
    }
  }

  /** Without a star the reported end is right exactly for a match in the last characters of the subject. */
  lemma StarFreeSpan(p: Pattern, caret: bool, s: Str, so: nat)
    requires StarFree(p.elems) && OccursAt(p, caret, s, so)
    ensures Spans(p, s, so, |s|) <==> so + |p.elems| == |s|
  {
    var rest := s[so..];
    WholeRest(p, s, so);
    var n :| 0 <= n <= |rest| && PrefixIn(p, rest, n);
    StarFreeWord(p.elems, rest[..n]);
    if Lang(p.elems, rest) { StarFreeWord(p.elems, rest); }
    assert rest[..|rest|] == rest;
  }

  /** The pattern a on the subject ab: the match ends at 1, the reported end is 2. */
  method EndIsTooFar() returns (ok: bool, so: nat, eo: nat)
    ensures ok && so == 0 && eo == 2
    ensures Spans(Parse([97]), [97, 98], 0, 1) && !Spans(Parse([97]), [97, 98], 0, 2)
  {
    var pattern: Str, s: Str := [97], [97, 98];
    ghost var p := Pattern([Elem(Lit(97), false)], false);
    assert Rest(pattern) == [] && Parse(pattern) == p;
    SingleChar(97, s);
    StarFreeSpan(p, false, s, 0);
    assert !Missed(p, false, s);
    hide Parse, Closed, Accepts;
    ok, so, eo := Exec(pattern, s);
  }

  lemma SingleChar(c: Char, s: Str)
    requires s != [] && s[0] == c
    ensures var p := Pattern([Elem(Lit(c), false)], false);
      Spans(p, s, 0, 1) && OccursAt(p, false, s, 0) && Occurs(p, false, s)
  {
    var p := Pattern([Elem(Lit(c), false)], false);
    var w := s[..1];
    assert s[0..] == s && w[..1] == w && w[1..] == [] && p.elems[1..] == [];
    assert ElemLang(p.elems[0], w[..1]) && Lang(p.elems[1..], w[1..]);
    assert PrefixIn(p, s, 1);
    assert OccursAt(p, false, s, 0);
  }

  /**
   regexec: on success so is the least offset at which the pattern matches; it fails exactly
   when the pattern occurs nowhere, or is one of the missed matches at the end.  eo is always
   the end of the subject: that is the end of a match exactly when the pattern with a dollar
   has its first match at so too, and so for every pattern that ends in a dollar.
   */
  method Exec(pattern: Str, s: Str) returns (ok: bool, so: nat, eo: nat)
    requires Closed(Body(pattern))
    ensures var p, caret := Parse(Body(pattern)), Caret(pattern);
      && (ok <==> Occurs(p, caret, s) && !Missed(p, caret, s))
      && (ok ==> FirstAt(p, caret, s, so) && Tried(s, so))
      && (ok ==> so <= eo == |s| && (Spans(p, s, so, eo) <==> FirstAt(p.(dollar := true), caret, s, so)))
      && (ok && p.dollar ==> Spans(p, s, so, eo))
  {
    hide Closed, Parse, Missed;
    var caret, p := Caret(pattern), Body(pattern);
    eo := |s|;
    ghost var q := Parse(p);
    SearchIsExact(q, caret, s);
    so := 0;
    while so < |s| || so == 0
      invariant so <= |s| && (caret ==> so == 0)
      invariant forall j :: 0 <= j < so ==> !OccursAt(q, caret, s, j)
      decreases |s| - so
    {
      ok := DoMatch(p, s[so..]);
      assert ok <==> OccursAt(q, caret, s, so);
      if ok {
        assert Tried(s, so);
        WholeRest(q, s, so);
        SpanIsDollarMatch(q, caret, s, so);
        eo := so + |s[so..]|;
        return;
      }
      if caret || so == |s| { break; }
      so := so + 1;
    }
    ok := false;
  }

  /**
   A caller can tell beforehand: the reported end is the end of a match exactly when regexec
   finds the pattern with a dollar at the same offset.
   */
  method EndIsRight(pattern: Str, s: Str) returns (found: bool, so: nat, right: bool)
    requires Closed(Body(pattern))
    ensures var p, caret := Parse(Body(pattern)), Caret(pattern);
      && (found ==> FirstAt(p, caret, s, so) && (right <==> Spans(p, s, so, |s|)))
      && (found <==> Occurs(p, caret, s) && !Missed(p, caret, s))
  {
    DollarPatternParses(pattern);
    hide Closed, Parse, Missed, DollarPattern, Spans, Accepts;
    var eo;
    found, so, eo := Exec(pattern, s);
    var ok, start, _ := Exec(DollarPattern(pattern), s);
    right := ok && start == so;
    ghost var q := Parse(Body(pattern)).(dollar := true);
    if found && FirstAt(q, Caret(pattern), s, so) {
      SearchIsExact(q, Caret(pattern), s);
      assert OccursWhereTried(q, Caret(pattern), s);
      FirstIsUnique(q, Caret(pattern), s, so, start);
    }
  }

  lemma FirstIsUnique(p: Pattern, caret: bool, s: Str, i: nat, j: nat)
    requires FirstAt(p, caret, s, i) && FirstAt(p, caret, s, j)
    ensures i == j
  {
    hide OccursAt;
  }
}
