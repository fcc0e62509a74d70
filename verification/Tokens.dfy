/** Token figures and the prose they travel in: groupThousands and withDevelopStepTokens of
    internal/codereview/domain.go, ParseTokenTotal of internal/fleet/domain.go. */
module Tokens {
  import opened Options

  const MAX_INT: int := 0x7fff_ffff_ffff_ffff

  // ------------------------------------------------------------------ decimals

  predicate IsDigit(c: char) { '0' <= c <= '9' }

  function Digit(d: nat): char
    requires d < 10
  {
    "0123456789"[d]
  }

  function DigitValue(c: char): nat
    requires IsDigit(c)
  {
    c as int - '0' as int
  }

  /** strconv.Itoa on a non-negative number. */
  function Decimal(n: nat): string {
    if n < 10 then [Digit(n)] else Decimal(n / 10) + [Digit(n % 10)]
  }

  predicate AllDigits(s: string) {
    forall c | c in s :: IsDigit(c)
  }

  function Value(s: string): nat
    requires AllDigits(s)
  {
    if s == "" then 0 else 10 * Value(s[..|s| - 1]) + DigitValue(s[|s| - 1])
  }

  lemma {:induction false} DecimalValue(n: nat)
    ensures Decimal(n) != "" && AllDigits(Decimal(n)) && Value(Decimal(n)) == n
  {
    if n >= 10 {
      DecimalValue(n / 10);
      assert Decimal(n)[..|Decimal(n)| - 1] == Decimal(n / 10);
    } else {
      assert Decimal(n)[..0] == "";
    }
  }

  lemma DecimalInjective(m: nat, n: nat)
    requires Decimal(m) == Decimal(n)
    ensures m == n
  {
    DecimalValue(m);
    DecimalValue(n);
  }

  function Itoa(n: int): string {
    if n < 0 then "-" + Decimal(-n) else Decimal(n)
  }

  // ------------------------------------------------------------ groupThousands

  /** A separator follows each digit that has a positive multiple of three digits after it. */
  function Separator(after: nat): string {
    if after > 0 && after % 3 == 0 then "," else ""
  }

  function Grouped(s: string): string {
    if s == "" then "" else [s[0]] + (Separator(|s| - 1) + Grouped(s[1..]))
  }

  function GroupThousandsOf(n: int): string {
    if n < 0 then "-" + Grouped(Decimal(-n)) else Grouped(Decimal(n))
  }

  /** What is still to be written from position i on. */
  function Tail(s: string, i: nat): string
    requires i <= |s|
  {
    (if i > 0 then Separator(|s| - i) else "") + Grouped(s[i..])
  }

  method GroupThousands(n: int) returns (r: string)
    ensures r == GroupThousandsOf(n)
  {
    var s := Itoa(n);
    var neg := "";
    if n < 0 {
      neg, s := "-", s[1..];
    }
    var b := GroupDigits(s);
    return neg + b;
  }

  method GroupDigits(s: string) returns (b: string)
    ensures b == Grouped(s)
  {
    b := "";
    for i := 0 to |s|
      invariant b + Tail(s, i) == Grouped(s)
    {
      TailStep(b, s, i);
      if i > 0 && (|s| - i) % 3 == 0 {
        b := b + ",";
      }
      b := b + [s[i]];
    }
  }

  lemma TailStep(b: string, s: string, i: nat)
    requires i < |s|
    ensures b + Tail(s, i) == (if i > 0 && (|s| - i) % 3 == 0 then b + "," else b) + [s[i]] + Tail(s, i + 1)
  {
    assert s[i..][1..] == s[i + 1..];
    var sep := if i > 0 then Separator(|s| - i) else "";
    assert b + "" == b;
    assert b + (sep + ([s[i]] + Tail(s, i + 1))) == (b + sep) + [s[i]] + Tail(s, i + 1);
  }

  /** strings.ReplaceAll(s, ",", ""). */
  function StripCommas(s: string): string {
    if s == "" then "" else (if s[0] == ',' then "" else [s[0]]) + StripCommas(s[1..])
  }

  lemma StripCons(c: char, x: string)
    ensures StripCommas([c] + x) == (if c == ',' then "" else [c]) + StripCommas(x)
    ensures "" + StripCommas(x) == StripCommas(x)
  {
    assert ([c] + x)[1..] == x;
  }

  /** Without the commas the digits are back. */
  lemma {:induction false} GroupedStrips(s: string)
    requires AllDigits(s)
    ensures StripCommas(Grouped(s)) == s
  {
    if s != "" {
      var h := Grouped(s[1..]);
      GroupedStrips(s[1..]);
      assert s[0] in s;
      StripCons(s[0], Separator(|s| - 1) + h);
      StripCons(',', h);
      assert Separator(|s| - 1) + h == if Separator(|s| - 1) == "" then h else [','] + h;
      assert s == [s[0]] + s[1..];
    }
  }

  lemma {:induction false} GroupedFigures(s: string)
    requires AllDigits(s)
    ensures forall c | c in Grouped(s) :: IsFigure(c)
  {
    if s != "" {
      assert s[0] in s;
      GroupedFigures(s[1..]);
    }
  }

  /** Without the commas the whole figure is back, its sign included. */
  lemma GroupedFigureStrips(n: int)
    ensures StripCommas(GroupThousandsOf(n)) == Itoa(n)
  {
    var digits := Decimal(if n < 0 then -n else n);
    DecimalValue(if n < 0 then -n else n);
    GroupedStrips(digits);
    StripCons('-', Grouped(digits));
  }

  function FromRight(s: string, p: nat): char
    requires p < |s|
  {
    s[|s| - 1 - p]
  }

  /** Counted from the right, exactly every fourth character is a comma. */
  lemma {:induction false} GroupedCommas(s: string)
    requires AllDigits(s)
    ensures s != "" ==> |Grouped(s)| == |s| + (|s| - 1) / 3
    ensures forall p: nat | p < |Grouped(s)| :: FromRight(Grouped(s), p) == ',' <==> p % 4 == 3
  {
    if s != "" {
      var rest := s[1..];
      GroupedCommas(rest);
      assert s[0] in s;
      var g, h := Grouped(s), Grouped(rest);
      forall p: nat | p < |g| ensures FromRight(g, p) == ',' <==> p % 4 == 3 {
        if p < |h| { assert FromRight(g, p) == FromRight(h, p); }
      }
    }
  }

  // ------------------------------------------------------------ ParseTokenTotal

  /** The class \s of the pattern. */
  predicate IsBlank(c: char) {
    c == '\t' || c == '\n' || c == '\U{c}' || c == '\r' || c == ' '
  }

  predicate IsFigure(c: char) {
    IsDigit(c) || c == ','
  }

  predicate NotColon(c: char) {
    c != ':'
  }

  /** The two words the pattern anchors on. */
  datatype Pattern = Pattern(needle: string, unit: string)

  ghost predicate GoodPattern(p: Pattern) {
    && |p.needle| >= 2 && '\n' !in p.needle
    && p.unit != "" && '\n' !in p.unit && !IsBlank(p.unit[0]) && !IsFigure(p.unit[0])
  }

  /** What follows the colon of a match. */
  function FigureText(p: Pattern, w: string, figure: string, v: string, rest: string): string {
    w + (figure + (v + (p.unit + rest)))
  }

  ghost predicate FigurePieces(w: string, figure: string, v: string) {
    && (forall c | c in w :: IsBlank(c))
    && (forall c | c in v :: IsBlank(c))
    && figure != "" && (forall c | c in figure :: IsFigure(c))
  }

  /** The pattern's meaning: `t` starts with a match whose group is `figure`. */
  ghost predicate Shape(p: Pattern, t: string, figure: string) {
    exists x, w, v, rest :: Pieces(p, t, x, w, figure, v, rest)
  }

  ghost predicate Pieces(p: Pattern, t: string, x: string, w: string, figure: string, v: string, rest: string) {
    && t == p.needle + (x + (":" + FigureText(p, w, figure, v, rest)))
    && ':' !in x && FigurePieces(w, figure, v)
  }

  /** The length of the longest prefix inside a character class. */
  function Span(s: string, p: char -> bool): (n: nat)
    ensures n <= |s| && (forall c | c in s[..n] :: p(c)) && (n < |s| ==> !p(s[n]))
  {
    if s == "" || !p(s[0]) then 0 else
      var n := Span(s[1..], p);
      assert s[..1 + n] == [s[0]] + s[1..][..n];
      1 + n
  }

  lemma {:induction false} SpanAppend(a: string, b: string, p: char -> bool)
    ensures Span(a + b, p) == if Span(a, p) < |a| then Span(a, p) else |a| + Span(b, p)
  {
    if a == "" {
      assert a + b == b;
    } else {
      SpanAppend(a[1..], b, p);
      assert (a + b)[1..] == a[1..] + b;
    }
  }

  lemma SpanBlock(a: string, b: string, p: char -> bool)
    requires forall c | c in a :: p(c)
    requires b != "" ==> !p(b[0])
    ensures Span(a + b, p) == |a| && (a + b)[..|a|] == a && (a + b)[|a|..] == b
  {
    SpanAppend(a, b, p);
  }

  /** The match at the start of `t`.  Each class excludes what must follow it, so scanning
      greedily finds the only match there is. */
  function MatchHere(p: Pattern, t: string): Option<string> {
    if !(p.needle <= t) then None else AfterNeedle(p, t[|p.needle|..])
  }

  function AfterNeedle(p: Pattern, t: string): Option<string> {
    var k := Span(t, NotColon);
    if k == |t| then None else AfterColon(p, t[k + 1..])
  }

  function AfterColon(p: Pattern, t: string): Option<string> {
    Figure(p, t[Span(t, IsBlank)..])
  }

  function Figure(p: Pattern, t: string): Option<string> {
    var n := Span(t, IsFigure);
    if n > 0 && AtUnit(p, t[n..]) then Some(t[..n]) else None
  }

  predicate AtUnit(p: Pattern, t: string) {
    p.unit <= t[Span(t, IsBlank)..]
  }

  lemma Cut(s: string, k: nat)
    requires k <= |s|
    ensures s == s[..k] + s[k..]
  {
  }

  lemma UnitHasPieces(p: Pattern, t: string) returns (v: string, rest: string)
    requires AtUnit(p, t)
    ensures t == v + (p.unit + rest) && forall c | c in v :: IsBlank(c)
  {
    var j := Span(t, IsBlank);
    Cut(t, j);
    v, rest := t[..j], t[j..][|p.unit|..];
  }

  lemma FigureHasPieces(p: Pattern, t: string) returns (w: string, v: string, rest: string)
    requires AfterColon(p, t).Some?
    ensures t == FigureText(p, w, AfterColon(p, t).value, v, rest)
    ensures FigurePieces(w, AfterColon(p, t).value, v)
  {
    var i := Span(t, IsBlank);
    var u := t[i..];
    var n := Span(u, IsFigure);
    Cut(t, i);
    Cut(u, n);
    v, rest := UnitHasPieces(p, u[n..]);
    w := t[..i];
  }

  lemma ColonSplit(t: string)
    ensures var k := Span(t, NotColon);
      k < |t| ==> ':' !in t[..k] && t == t[..k] + (":" + t[k + 1..])
  {
    var k := Span(t, NotColon);
    if k < |t| {
      assert t == t[..k] + t[k..] && t[k..] == [t[k]] + t[k + 1..] && t[k] == ':';
      assert [t[k]] == ":";
    }
  }

  lemma PiecesJoin(p: Pattern, t: string, x: string, t2: string, w: string, figure: string, v: string, rest: string)
    requires t == p.needle + (x + (":" + t2)) && t2 == FigureText(p, w, figure, v, rest)
    requires ':' !in x && FigurePieces(w, figure, v)
    ensures Shape(p, t, figure)
  {
    assert Pieces(p, t, x, w, figure, v, rest);
  }

  lemma SplitAtNeedle(p: Pattern, t: string) returns (t1: string)
    requires MatchHere(p, t).Some?
    ensures t == p.needle + t1 && AfterNeedle(p, t1) == MatchHere(p, t)
  {
    t1 := t[|p.needle|..];
  }

  lemma SplitAtColon(p: Pattern, t1: string) returns (x: string, t2: string)
    requires AfterNeedle(p, t1).Some?
    ensures t1 == x + (":" + t2) && ':' !in x && AfterColon(p, t2) == AfterNeedle(p, t1)
  {
    var k := Span(t1, NotColon);
    ColonSplit(t1);
    x, t2 := t1[..k], t1[k + 1..];
  }

  lemma MatchHasShape(p: Pattern, t: string)
    requires MatchHere(p, t).Some?
    ensures Shape(p, t, MatchHere(p, t).value)
  {
    var t1 := SplitAtNeedle(p, t);
    var x, t2 := SplitAtColon(p, t1);
    var w, v, rest := FigureHasPieces(p, t2);
    PiecesJoin(p, t, x, t2, w, AfterColon(p, t2).value, v, rest);
  }

  lemma FigureRead(p: Pattern, w: string, figure: string, v: string, rest: string)
    requires GoodPattern(p) && FigurePieces(w, figure, v)
    ensures AfterColon(p, FigureText(p, w, figure, v, rest)) == Some(figure)
  {
    var tail := p.unit + rest;
    var u := figure + (v + tail);
    assert u[0] == figure[0] && figure[0] in figure;
    SpanBlock(w, u, IsBlank);
    assert v != "" ==> v[0] in v;
    SpanBlock(figure, v + tail, IsFigure);
    SpanBlock(v, tail, IsBlank);
  }

  lemma AfterNeedleRead(p: Pattern, x: string, t: string)
    requires ':' !in x
    ensures AfterNeedle(p, x + (":" + t)) == AfterColon(p, t)
  {
    SpanBlock(x, ":" + t, NotColon);
    assert (x + (":" + t))[|x| + 1..] == t;
  }

  lemma ShapeMatches(p: Pattern, t: string, figure: string)
    requires GoodPattern(p) && Shape(p, t, figure)
    ensures MatchHere(p, t) == Some(figure)
  {
    var x, w, v, rest :| Pieces(p, t, x, w, figure, v, rest);
    FigureRead(p, w, figure, v, rest);
    AfterNeedleRead(p, x, FigureText(p, w, figure, v, rest));
    assert t[|p.needle|..] == x + (":" + FigureText(p, w, figure, v, rest));
  }

  /** The greedy scan finds a match exactly when the pattern has one, with the same group. */
  lemma MatchIsShape(p: Pattern, t: string, figure: string)
    requires GoodPattern(p)
    ensures MatchHere(p, t) == Some(figure) <==> Shape(p, t, figure)
  {
    if MatchHere(p, t) == Some(figure) { MatchHasShape(p, t); }
    if Shape(p, t, figure) { ShapeMatches(p, t, figure); }
  }

  /** FindStringSubmatch: the leftmost match. */
  function Find(m: string -> Option<string>, s: string): Option<string> {
    if m(s).Some? then m(s)
    else if s == "" then None
    else Find(m, s[1..])
  }

  function Matcher(p: Pattern): string -> Option<string> {
    t => MatchHere(p, t)
  }

  /** strconv.Atoi on a text of digits: empty or out of range is an error. */
  function Atoi(s: string): Option<int>
    requires AllDigits(s)
  {
    if s == "" || Value(s) > MAX_INT then None else Some(Value(s))
  }

  lemma {:induction false} StripFigure(s: string)
    requires forall c | c in s :: IsFigure(c)
    ensures AllDigits(StripCommas(s))
  {
    if s != "" {
      StripFigure(s[1..]);
      assert s[0] in s;
    }
  }

  lemma {:induction false} FoundFigure(p: Pattern, s: string)
    ensures Find(Matcher(p), s).Some? ==>
      Find(Matcher(p), s).value != "" && forall c | c in Find(Matcher(p), s).value :: IsFigure(c)
  {
    if MatchHere(p, s).Some? {
      MatchHasShape(p, s);
    } else if s != "" {
      FoundFigure(p, s[1..]);
    }
  }

  const USAGE := Pattern("token usage", "tokens")

  function ParseTokenTotal(summary: string): int {
    var m := Find(Matcher(USAGE), summary);
    if m.None? then 0 else
      FoundFigure(USAGE, summary);
      StripFigure(m.value);
      var n := Atoi(StripCommas(m.value));
      if n.None? then 0 else n.value
  }

  /** What is read: nothing where there is no figure, or one that is no number or out of range; otherwise its value. */
  lemma ParsesExactly(summary: string)
    ensures var m, total := Find(Matcher(USAGE), summary), ParseTokenTotal(summary);
      && 0 <= total <= MAX_INT && (m.None? ==> total == 0)
      && (m.Some? ==>
            var digits := StripCommas(m.value);
            AllDigits(digits) && total == if digits == "" || Value(digits) > MAX_INT then 0 else Value(digits))
  {
    FoundFigure(USAGE, summary);
    if Find(Matcher(USAGE), summary).Some? { StripFigure(Find(Matcher(USAGE), summary).value); }
  }

  // ------------------------------------------------- the trip through the prose

  /** A line break, then `lead`, the needle, the figure and the unit, then `rest`. */
  function UsageLine(p: Pattern, lead: string, g: string, rest: string): string {
    lead + (p.needle + ("" + (":" + FigureText(p, " ", g, " ", rest))))
  }

  /** The lead starts a new paragraph with a plain word, has no colon, and does not contain
      the beginning of the needle. */
  ghost predicate GoodLead(p: Pattern, lead: string)
    requires GoodPattern(p)
  {
    && |lead| >= 3 && lead[0] == '\n' && lead[1] == '\n'
    && !IsBlank(lead[2]) && !IsFigure(lead[2]) && lead[2] != p.unit[0]
    && ':' !in lead && ':' !in p.needle
    && forall i | 0 <= i < |lead| :: lead[i] != p.needle[0] || (i + 1 < |lead| && lead[i + 1] != p.needle[1])
  }

  /** A word without line breaks cannot start in `s` and end beyond a break after `s`. */
  lemma NoStraddle(word: string, s: string, tail: string)
    requires '\n' !in word && tail != "" && tail[0] == '\n'
    ensures word <= s + tail ==> word <= s
  {
    if |s| < |word| {
      assert word[|s|] in word && (s + tail)[|s|] == '\n';
    }
  }

  /** Past the end of `s`, the paragraph break and a plain word follow. */
  lemma BlankToTail(s: string, tail: string)
    requires |tail| >= 3 && tail[0] == '\n' && tail[1] == '\n' && !IsBlank(tail[2])
    ensures Span(s, IsBlank) < |s| ==>
              Span(s + tail, IsBlank) == Span(s, IsBlank)
              && (s + tail)[Span(s, IsBlank)..] == s[Span(s, IsBlank)..] + tail
    ensures Span(s, IsBlank) == |s| ==> (s + tail)[Span(s + tail, IsBlank)..] == tail[2..]
  {
    SpanAppend(s, tail, IsBlank);
    BreakSpan(tail);
    DropJoin(s, tail, Span(s, IsBlank));
    DropJoin(s, tail, |s| + 2);
  }

  lemma BreakSpan(tail: string)
    requires |tail| >= 3 && tail[0] == '\n' && tail[1] == '\n' && !IsBlank(tail[2])
    ensures Span(tail, IsBlank) == 2
  {
    Cut(tail, 2);
    assert tail[..2] == "\n\n";
    SpanBlock("\n\n", tail[2..], IsBlank);
  }

  lemma DropJoin(s: string, tail: string, k: nat)
    requires k <= |s| + |tail|
    ensures k <= |s| ==> (s + tail)[k..] == s[k..] + tail
    ensures k >= |s| ==> (s + tail)[k..] == tail[k - |s|..]
  {
  }

  /** The tail as a plain paragraph. */
  ghost predicate Paragraph(p: Pattern, tail: string)
    requires GoodPattern(p)
  {
    && |tail| >= 3 && tail[0] == '\n' && tail[1] == '\n'
    && !IsBlank(tail[2]) && !IsFigure(tail[2]) && tail[2] != p.unit[0]
  }

  lemma UnitInside(p: Pattern, s: string, tail: string)
    requires GoodPattern(p) && Paragraph(p, tail)
    ensures AtUnit(p, s + tail) <==> AtUnit(p, s)
  {
    BlankToTail(s, tail);
    var j := Span(s, IsBlank);
    if j < |s| {
      NoStraddle(p.unit, s[j..], tail);
    }
  }

  lemma FigureInside(p: Pattern, s: string, tail: string)
    requires GoodPattern(p) && Paragraph(p, tail)
    ensures Figure(p, s + tail) == Figure(p, s)
  {
    SpanAppend(s, tail, IsFigure);
    assert Span(tail, IsFigure) == 0;
    var n := Span(s, IsFigure);
    assert (s + tail)[n..] == s[n..] + tail && (s + tail)[..n] == s[..n];
    UnitInside(p, s[n..], tail);
  }

  /** After a colon, a following paragraph changes nothing. */
  lemma AfterColonInside(p: Pattern, s: string, tail: string)
    requires GoodPattern(p) && Paragraph(p, tail)
    ensures AfterColon(p, s + tail) == AfterColon(p, s)
  {
    BlankToTail(s, tail);
    var i := Span(s, IsBlank);
    if i < |s| {
      FigureInside(p, s[i..], tail);
    } else {
      assert Span(tail[2..], IsFigure) == 0;
      assert s[i..] == "";
    }
  }

  ghost predicate LineOk(p: Pattern, lead: string, g: string) {
    GoodPattern(p) && GoodLead(p, lead) && FigurePieces(" ", g, " ")
  }

  /** Appending the line leaves a match that starts inside the summary alone; it completes
      one only where the summary has no colon left, and then it is the appended figure. */
  lemma MatchInSummary(p: Pattern, s: string, lead: string, g: string, rest: string)
    requires LineOk(p, lead, g) && s != ""
    ensures MatchHere(p, s + UsageLine(p, lead, g, rest)) ==
            if p.needle <= s && ':' !in s then Some(g) else MatchHere(p, s)
  {
    var tail := UsageLine(p, lead, g, rest);
    assert tail[0] == lead[0];
    NoStraddle(p.needle, s, tail);
    if p.needle <= s {
      var t := s[|p.needle|..];
      DropJoin(s, tail, |p.needle|);
      AfterNeedleInside(p, t, lead, g, rest);
    }
  }

  lemma AfterNeedleInside(p: Pattern, t: string, lead: string, g: string, rest: string)
    requires LineOk(p, lead, g)
    ensures AfterNeedle(p, t + UsageLine(p, lead, g, rest)) == if ':' in t then AfterNeedle(p, t) else Some(g)
  {
    if ':' in t {
      ColonInside(p, t, UsageLine(p, lead, g, rest));
    } else {
      AppendedRead(p, t, lead, g, rest);
    }
  }

  lemma ColonPieces(t: string) returns (x: string, t2: string)
    requires ':' in t
    ensures t == x + (":" + t2) && ':' !in x
  {
    var k := Span(t, NotColon);
    assert t[..|t|] == t;
    ColonSplit(t);
    x, t2 := t[..k], t[k + 1..];
  }

  lemma ColonInside(p: Pattern, t: string, tail: string)
    requires GoodPattern(p) && Paragraph(p, tail) && ':' in t
    ensures AfterNeedle(p, t + tail) == AfterNeedle(p, t)
  {
    var x, t2 := ColonPieces(t);
    AfterNeedleRead(p, x, t2);
    AfterNeedleRead(p, x, t2 + tail);
    Regroup(x, ":", t2, tail);
    AfterColonInside(p, t2, tail);
  }

  lemma Regroup(a: string, b: string, c: string, d: string)
    ensures (a + (b + c)) + d == a + (b + (c + d))
  {
  }

  lemma AppendedRead(p: Pattern, t: string, lead: string, g: string, rest: string)
    requires LineOk(p, lead, g) && ':' !in t
    ensures AfterNeedle(p, t + UsageLine(p, lead, g, rest)) == Some(g)
  {
    var after := FigureText(p, " ", g, " ", rest);
    var x := t + (lead + p.needle);
    LineRegroups(t, lead, p.needle, ":" + after);
    assert ':' !in x;
    AfterNeedleRead(p, x, after);
    FigureRead(p, " ", g, " ", rest);
  }

  lemma LineRegroups(t: string, lead: string, needle: string, after: string)
    ensures t + (lead + (needle + ("" + after))) == (t + (lead + needle)) + after
  {
  }

  lemma LineFound(p: Pattern, lead: string, g: string, rest: string)
    requires LineOk(p, lead, g)
    ensures Find(Matcher(p), UsageLine(p, lead, g, rest)) == Some(g)
  {
    var t := UsageLine(p, lead, g, rest);
    DropJoin(lead, p.needle + ("" + (":" + FigureText(p, " ", g, " ", rest))), |lead|);
    assert Pieces(p, t[|lead|..], "", " ", g, " ", rest);
    ShapeMatches(p, t[|lead|..], g);
    forall i: nat | i < |lead| ensures Matcher(p)(t[i..]).None? {
      LeadStartsNoMatch(p, lead, t, i);
    }
    FindSkips(Matcher(p), t, |lead|);
  }

  lemma LeadStartsNoMatch(p: Pattern, lead: string, t: string, i: nat)
    requires GoodPattern(p) && GoodLead(p, lead) && lead <= t && i < |lead|
    ensures MatchHere(p, t[i..]).None?
  {
    assert t[i..][0] == lead[i] && (i + 1 < |lead| ==> t[i..][1] == lead[i + 1]);
  }

  /** Positions without a match are passed over. */
  lemma {:induction false} FindSkips(m: string -> Option<string>, t: string, k: nat)
    requires k <= |t| && forall i: nat | i < k :: m(t[i..]).None?
    ensures Find(m, t) == Find(m, t[k..])
    decreases k
  {
    assert t[0..] == t;
    if k > 0 {
      forall i: nat | i < k - 1 ensures m(t[1..][i..]).None? {
        assert t[1..][i..] == t[i + 1..];
      }
      FindSkips(m, t[1..], k - 1);
      assert t[1..][k - 1..] == t[k..];
    }
  }

  /** When appending `tail` leaves every match alone, and adds one, of group `g`, only where
      no match follows, the leftmost match is the one already there, or `g`. */
  lemma {:induction false} FindThrough(m: string -> Option<string>, s: string, tail: string, g: string)
    requires forall t | t != "" :: m(t + tail) == m(t) || (Find(m, t).None? && m(t + tail) == Some(g))
    requires m("").None? && Find(m, tail) == Some(g)
    ensures Find(m, s + tail) == if Find(m, s).Some? then Find(m, s) else Some(g)
  {
    if s == "" {
      assert s + tail == tail;
    } else {
      assert (s + tail)[1..] == s[1..] + tail;
      FindThrough(m, s[1..], tail, g);
    }
  }

  lemma FindInProse(p: Pattern, s: string, lead: string, g: string, rest: string)
    requires LineOk(p, lead, g)
    ensures Find(Matcher(p), s + UsageLine(p, lead, g, rest)) ==
            if Find(Matcher(p), s).Some? then Find(Matcher(p), s) else Some(g)
  {
    var m, tail := Matcher(p), UsageLine(p, lead, g, rest);
    forall t | t != "" ensures m(t + tail) == m(t) || (Find(m, t).None? && m(t + tail) == Some(g)) {
      MatchInSummary(p, t, lead, g, rest);
      if ':' !in t { NoColonNoFigure(p, t); }
    }
    LineFound(p, lead, g, rest);
    FindThrough(m, s, tail, g);
  }

  const LEAD := "\n\nDevelop step "
  const REST := ". The review and pilot stages report their own token totals separately."

  function WithDevelopStepTokens(summary: string, total: int): string {
    summary + UsageLine(USAGE, LEAD, GroupThousandsOf(total), REST)
  }

  lemma GroupedBack(n: nat)
    requires n <= MAX_INT
    ensures var g := GroupThousandsOf(n);
      FigurePieces(" ", g, " ") && AllDigits(StripCommas(g)) && Atoi(StripCommas(g)) == Some(n)
  {
    DecimalValue(n);
    GroupedStrips(Decimal(n));
    GroupedFigures(Decimal(n));
  }

  lemma UsageIsGood()
    ensures GoodPattern(USAGE) && GoodLead(USAGE, LEAD)
  {
    assert USAGE.needle == "token usage" && USAGE.unit == "tokens";
    assert LEAD == "\n\nDevelop step ";
  }

  /** Exactly what the fleet scrapes back: the appended figure, unless the summary before it
      already reports one of its own. */
  lemma TokensThroughProse(summary: string, n: nat)
    requires n <= MAX_INT
    ensures ParseTokenTotal(WithDevelopStepTokens(summary, n)) ==
            if Find(Matcher(USAGE), summary).Some? then ParseTokenTotal(summary) else n
  {
    UsageIsGood();
    GroupedBack(n);
    FindInProse(USAGE, summary, LEAD, GroupThousandsOf(n), REST);
  }

  lemma {:induction false} NoColonNoFigure(p: Pattern, s: string)
    requires ':' !in s
    ensures Find(Matcher(p), s).None?
  {
    if MatchHere(p, s).Some? {
      MatchHasShape(p, s);
    } else if s != "" {
      NoColonNoFigure(p, s[1..]);
    }
  }

  /** The words the pattern looks for do not occur. */
  ghost predicate NeedleFree(p: Pattern, s: string) {
    forall k | 0 <= k <= |s| :: !(p.needle <= s[k..])
  }

  lemma {:induction false} NeedleFreeFindsNone(p: Pattern, s: string)
    requires NeedleFree(p, s)
    ensures Find(Matcher(p), s).None?
  {
    assert s[0..] == s;
    if s != "" {
      forall k | 0 <= k <= |s[1..]| ensures !(p.needle <= s[1..][k..]) {
        assert s[1..][k..] == s[k + 1..];
      }
      NeedleFreeFindsNone(p, s[1..]);
    }
  }

  /** A figure appended to a summary that does not speak of token usage is read back exactly. */
  lemma TokensSurvive(summary: string, n: nat)
    requires n <= MAX_INT && NeedleFree(USAGE, summary)
    ensures ParseTokenTotal(WithDevelopStepTokens(summary, n)) == n
  {
    NeedleFreeFindsNone(USAGE, summary);
    TokensThroughProse(summary, n);
  }

  /** The pattern's words with the figure 5 between them: for usage, "token usage: 5 tokens". */
  function SaysFive(p: Pattern): string {
    p.needle + ("" + (":" + FigureText(p, " ", "5", " ", "")))
  }

  lemma FindsFive(p: Pattern)
    requires GoodPattern(p)
    ensures Find(Matcher(p), SaysFive(p)) == Some("5")
  {
    assert Pieces(p, SaysFive(p), "", " ", "5", " ", "");
    ShapeMatches(p, SaysFive(p), "5");
  }

  lemma FiveIsRead()
    ensures ParseTokenTotal(SaysFive(USAGE)) == 5
  {
    UsageIsGood();
    FindsFive(USAGE);
    assert StripCommas("5") == "5" && Value("5") == 5;
  }

  /** A summary that speaks of token usage itself hides the appended figure, whatever that is. */
  lemma SummaryHidesFigure(n: nat)
    requires n <= MAX_INT
    ensures ParseTokenTotal(WithDevelopStepTokens(SaysFive(USAGE), n)) == 5
  {
    UsageIsGood();
    FindsFive(USAGE);
    FiveIsRead();
    TokensThroughProse(SaysFive(USAGE), n);
  }
}
