/** Isolating the plan: the JSON object an agent was asked for, whatever it wrote around it. */
module Extraction {
  /*  JSON texts are given by their grammar (sections 2 to 7 of RFC 8259), white space included.
      The scanner works on bytes and only tells ASCII characters apart, so on valid text it does
      the same on characters.  */

  // ----------------------------------------------------------------------- the scanner

  /** Where the scan stands: how many braces are open, and whether it is inside a string. */
  datatype Scan = Scan(depth: int, inString: bool, escaped: bool)

  const START := Scan(0, false, false)

  function Step(st: Scan, c: char): Scan {
    if st.inString then
      if st.escaped then st.(escaped := false)
      else if c == '\\' then st.(escaped := true)
      else if c == '"' then st.(inString := false)
      else st
    else if c == '"' then st.(inString := true)
    else if c == '{' then st.(depth := st.depth + 1)
    else if c == '}' then st.(depth := st.depth - 1)
    else st
  }

  ghost function Run(st: Scan, t: string): Scan {
    if t == [] then st else Step(Run(st, t[..|t| - 1]), t[|t| - 1])
  }

  /** Outside strings, every brace that was opened is closed again. */
  ghost predicate Closes(t: string) {
    t != [] && t[|t| - 1] == '}' && !Run(START, t[..|t| - 1]).inString && Run(START, t).depth == 0
  }

  /** The first closing: a text that closes, no shorter part of which does. */
  ghost predicate ClosesFirst(t: string) {
    Closes(t) && forall k | 0 <= k < |t| :: !Closes(t[..k])
  }

  ghost predicate StartsAt(s: string, start: nat) {
    start < |s| && s[start] == '{' && '{' !in s[..start]
  }

  ghost predicate Isolates(s: string, r: string, start: nat) {
    StartsAt(s, start) && start + |r| <= |s| && s[start..start + |r|] == r && ClosesFirst(r)
  }

  ghost predicate NeverCloses(s: string, start: nat)
    requires start < |s|
  {
    forall end | start <= end <= |s| :: !Closes(s[start..end])
  }

  /** What is extracted: from the first opening brace to the first closing, or nothing. */
  ghost predicate Extracts(s: string, r: string) {
    if r == "" then forall start: nat | StartsAt(s, start) :: NeverCloses(s, start)
    else exists start: nat :: Isolates(s, r, start)
  }

  lemma ExtractsUnique(s: string, r: string, q: string)
    requires Extracts(s, r) && Extracts(s, q)
    ensures r == q
  {
    if r != "" {
      ExtractedIsIt(s, r, q);
    } else if q != "" {
      ExtractedIsIt(s, q, r);
    }
  }

  lemma IsolatedIsLongest(s: string, r: string, q: string, start: nat)
    requires Isolates(s, r, start) && Isolates(s, q, start)
    ensures |q| <= |r|
  {
    var k := if |r| < |q| then |r| else 0;
    assert q[..k] == s[start..start + k] && !Closes(q[..k]);
  }

  lemma ExtractedIsIt(s: string, r: string, q: string)
    requires r != "" && Extracts(s, r) && Extracts(s, q)
    ensures r == q
  {
    var start: nat :| Isolates(s, r, start);
    assert !NeverCloses(s, start) by {
      assert Closes(s[start..start + |r|]);
    }
    if q != "" {
      var other: nat :| Isolates(s, q, other);
      IsolatedIsLongest(s, r, q, start);
      IsolatedIsLongest(s, q, r, start);
    }
  }

  method FirstBrace(s: string) returns (start: int)
    ensures start == -1 ==> '{' !in s
    ensures start != -1 ==> 0 <= start && StartsAt(s, start)
  {
    start := 0;
    while start < |s|
      invariant 0 <= start <= |s| && '{' !in s[..start]
    {
      if s[start] == '{' { return; }
      start := start + 1;
    }
    start := -1;
  }

  method ExtractJsonObject(s: string) returns (r: string)
    ensures Extracts(s, r)
  {
    var start := FirstBrace(s);
    if start < 0 { return ""; }
    var depth, inString, escaped := 0, false, false;
    for i := start to |s|
      invariant Scan(depth, inString, escaped) == Run(START, s[start..i])
      invariant forall k | start <= k <= i :: !Closes(s[start..k])
    {
      assert s[start..i + 1][..i - start] == s[start..i];
      var c := s[i];
      if inString {
        if escaped { escaped := false; }
        else if c == '\\' { escaped := true; }
        else if c == '"' { inString := false; }
        continue;
      }
      match c {
        case '"' => inString := true;
        case '{' => depth := depth + 1;
        case '}' =>
          depth := depth - 1;
          if depth == 0 {
            ReturnsFirst(s, start, i);
            return s[start..i + 1];
          }
        case _ =>
      }
    }
    forall other: nat | StartsAt(s, other) ensures NeverCloses(s, other) {
    }
    return "";
  }

  lemma ReturnsFirst(s: string, start: nat, i: nat)
    requires StartsAt(s, start) && start <= i < |s| && Closes(s[start..i + 1])
    requires forall k | start <= k <= i :: !Closes(s[start..k])
    ensures Extracts(s, s[start..i + 1])
  {
    var r := s[start..i + 1];
    forall k | 0 <= k < |r| ensures !Closes(r[..k]) {
      assert r[..k] == s[start..start + k];
    }
    assert Isolates(s, r, start);
  }

  // -------------------------------------------------------------------------- JSON text

  predicate IsGap(t: string) {
    forall i | 0 <= i < |t| :: t[i] in {' ', '\t', '\n', '\r'}
  }

  predicate IsHex(c: char) {
    '0' <= c <= '9' || 'a' <= c <= 'f' || 'A' <= c <= 'F'
  }

  /** The inside of a string: a quote, a backslash or a control character only ever escaped. */
  predicate IsBody(t: string) {
    if t == [] then true
    else if t[0] != '\\' then t[0] != '"' && t[0] >= ' ' && IsBody(t[1..])
    else if |t| == 1 then false
    else if t[1] == 'u' then |t| >= 6 && IsHex(t[2]) && IsHex(t[3]) && IsHex(t[4]) && IsHex(t[5]) && IsBody(t[6..])
    else t[1] in {'"', '\\', '/', 'b', 'f', 'n', 'r', 't'} && IsBody(t[2..])
  }

  /** A number: minus sign, integer part, fraction and exponent, as far as they are present. */
  predicate IsNumber(t: string) {
    t != [] && forall i | 0 <= i < |t| :: t[i] in "0123456789+-.eE"
  }

  predicate IsAtom(t: string) {
    t in {"true", "false", "null"} || IsNumber(t)
  }

  /** A value, with the white space that stands between its tokens. */
  datatype Value =
    | Atom(text: string)
    | Text(body: string)
    | Array(space: string, elements: Elements)
    | Object(space: string, members: Members)

  datatype Elements = NoElement | Element(before: string, value: Value, after: string, rest: Elements)

  datatype Members =
    | NoMember
    | Member(before: string, name: string, beforeColon: string, afterColon: string, value: Value, after: string, rest: Members)

  function Quoted(body: string): string {
    "\"" + body + "\""
  }

  function Render(v: Value): string {
    match v
    case Atom(text) => text
    case Text(body) => Quoted(body)
    case Array(space, elements) => "[" + (space + RenderElements(elements, true)) + "]"
    case Object(space, members) => "{" + (space + RenderMembers(members, true)) + "}"
  }

  function RenderElements(e: Elements, first: bool): string {
    match e
    case NoElement => ""
    case Element(before, value, after, rest) =>
      (if first then "" else ",") + before + Render(value) + after + RenderElements(rest, false)
  }

  function RenderMembers(m: Members, first: bool): string {
    match m
    case NoMember => ""
    case Member(before, name, beforeColon, afterColon, value, after, rest) =>
      (if first then "" else ",") + before + Quoted(name) + beforeColon + ":" + afterColon + Render(value) + after
      + RenderMembers(rest, false)
  }

  predicate IsJson(v: Value) {
    match v
    case Atom(text) => IsAtom(text)
    case Text(body) => IsBody(body)
    case Array(space, elements) => IsGap(space) && AreElements(elements)
    case Object(space, members) => IsGap(space) && AreMembers(members)
  }

  predicate AreElements(e: Elements) {
    match e
    case NoElement => true
    case Element(before, value, after, rest) => IsGap(before) && IsJson(value) && IsGap(after) && AreElements(rest)
  }

  predicate AreMembers(m: Members) {
    match m
    case NoMember => true
    case Member(before, name, beforeColon, afterColon, value, after, rest) =>
      IsGap(before) && IsBody(name) && IsGap(beforeColon) && IsGap(afterColon) && IsJson(value) && IsGap(after)
      && AreMembers(rest)
  }

  // ------------------------------------------------------------- scanning a JSON text

  lemma {:induction false} RunAppend(st: Scan, a: string, b: string)
    ensures Run(st, a + b) == Run(Run(st, a), b)
  {
    if b == [] {
      assert a + b == a;
    } else {
      var n := |b| - 1;
      assert (a + b)[..|a + b| - 1] == a + b[..n];
      RunAppend(st, a, b[..n]);
    }
  }

  /** The scan comes out as it went in, and no brace it had open was closed meanwhile. */
  ghost predicate Steady(st: Scan, t: string) {
    Run(st, t) == st && forall k | 0 <= k <= |t| :: Run(st, t[..k]).depth >= st.depth
  }

  lemma SteadyAppend(st: Scan, a: string, b: string)
    requires Steady(st, a) && Steady(st, b)
    ensures Steady(st, a + b)
  {
    RunAppend(st, a, b);
    forall k | 0 <= k <= |a + b| ensures Run(st, (a + b)[..k]).depth >= st.depth {
      if k <= |a| {
        assert (a + b)[..k] == a[..k];
      } else {
        assert (a + b)[..k] == a + b[..k - |a|];
        RunAppend(st, a, b[..k - |a|]);
      }
    }
  }

  lemma SteadyWrap(st: Scan, open: char, t: string, close: char)
    requires Step(st, open).depth >= st.depth && Steady(Step(st, open), t)
    requires Step(Step(st, open), close) == st
    ensures Steady(st, [open] + t + [close])
  {
    var mid, all := Step(st, open), [open] + t + [close];
    assert [open][..0] == [] && Run(st, [open]) == mid;
    forall k | 0 <= k <= |all| ensures Run(st, all[..k]).depth >= st.depth && (k == |all| ==> Run(st, all[..k]) == st) {
      if 1 <= k <= |t| + 1 {
        assert all[..k] == [open] + t[..k - 1];
        RunAppend(st, [open], t[..k - 1]);
      } else if k == |all| {
        RunAppend(st, [open], t);
        assert all[..|all| - 1] == [open] + t && t[..|t|] == t;
        assert all[..k] == all;
      }
    }
    assert all[..|all|] == all;
  }

  predicate Quiet(t: string) {
    forall i | 0 <= i < |t| :: t[i] !in {'"', '{', '}'}
  }

  lemma {:induction false} QuietIsSteady(st: Scan, t: string)
    requires Quiet(t) && !st.inString
    ensures Steady(st, t)
  {
    if t != [] {
      var n := |t| - 1;
      QuietIsSteady(st, t[..n]);
      forall k | 0 <= k <= |t| ensures Run(st, t[..k]).depth >= st.depth {
        if k <= n { assert t[..k] == t[..n][..k]; } else { assert t[..k] == t; }
      }
    } else {
      assert forall k | 0 <= k <= |t| :: t[..k] == [];
    }
  }

  // Inside a string.

  lemma EscapeIsSteady(st: Scan, c: char)
    requires st.inString && !st.escaped
    ensures Steady(st, ['\\', c])
  {
    var t := ['\\', c];
    assert t[..0] == [] && t[..1] == ['\\'] && t[..2] == t && ['\\'][..0] == [];
    assert Run(st, ['\\']) == st.(escaped := true);
    assert Run(st, t) == st;
    forall k | 0 <= k <= |t| ensures Run(st, t[..k]).depth >= st.depth {
      assert k == 0 || k == 1 || k == 2;
    }
  }

  lemma HexIsSteady(st: Scan, t: string)
    requires st.inString && !st.escaped && |t| == 4 && IsHex(t[0]) && IsHex(t[1]) && IsHex(t[2]) && IsHex(t[3])
    ensures Steady(st, t)
  {
    SteadyAppend(st, [t[0]], [t[1]]);
    SteadyAppend(st, [t[0]] + [t[1]], [t[2]]);
    SteadyAppend(st, [t[0]] + [t[1]] + [t[2]], [t[3]]);
    assert t == [t[0]] + [t[1]] + [t[2]] + [t[3]];
  }

  lemma {:induction false} BodyIsSteady(st: Scan, t: string)
    requires IsBody(t) && st.inString && !st.escaped
    ensures Steady(st, t)
    decreases |t|
  {
    if t == [] {
      assert forall k | 0 <= k <= |t| :: t[..k] == [];
    } else if t[0] != '\\' {
      BodyIsSteady(st, t[1..]);
      SteadyAppend(st, [t[0]], t[1..]);
      assert t == [t[0]] + t[1..];
    } else {
      EscapeIsSteady(st, t[1]);
      if t[1] == 'u' {
        HexIsSteady(st, t[2..6]);
        SteadyAppend(st, ['\\', t[1]], t[2..6]);
        BodyIsSteady(st, t[6..]);
        SteadyAppend(st, ['\\', t[1]] + t[2..6], t[6..]);
        assert t == ['\\', t[1]] + t[2..6] + t[6..];
      } else {
        BodyIsSteady(st, t[2..]);
        SteadyAppend(st, ['\\', t[1]], t[2..]);
        assert t == ['\\', t[1]] + t[2..];
      }
    }
  }

  lemma QuotedIsSteady(st: Scan, body: string)
    requires IsBody(body) && !st.inString && !st.escaped
    ensures Steady(st, Quoted(body))
  {
    BodyIsSteady(st.(inString := true), body);
    SteadyWrap(st, '"', body, '"');
  }

  // Outside strings.

  lemma {:induction false} JsonIsSteady(st: Scan, v: Value)
    requires IsJson(v) && !st.inString && !st.escaped
    ensures Steady(st, Render(v))
    decreases v
  {
    match v
    case Atom(text) => QuietIsSteady(st, text);
    case Text(body) => QuotedIsSteady(st, body);
    case Array(space, elements) =>
      QuietIsSteady(st, space);
      ElementsAreSteady(st, elements, true);
      SteadyAppend(st, space, RenderElements(elements, true));
      SteadyWrap(st, '[', space + RenderElements(elements, true), ']');
    case Object(space, members) =>
      var mid := st.(depth := st.depth + 1);
      QuietIsSteady(mid, space);
      MembersAreSteady(mid, members, true);
      SteadyAppend(mid, space, RenderMembers(members, true));
      SteadyWrap(st, '{', space + RenderMembers(members, true), '}');
  }

  lemma {:induction false} ElementsAreSteady(st: Scan, e: Elements, first: bool)
    requires AreElements(e) && !st.inString && !st.escaped
    ensures Steady(st, RenderElements(e, first))
    decreases e
  {
    match e
    case NoElement => QuietIsSteady(st, "");
    case Element(before, value, after, rest) =>
      var comma := if first then "" else ",";
      QuietIsSteady(st, comma);
      QuietIsSteady(st, before);
      JsonIsSteady(st, value);
      QuietIsSteady(st, after);
      ElementsAreSteady(st, rest, false);
      SteadyAppend(st, comma, before);
      SteadyAppend(st, comma + before, Render(value));
      SteadyAppend(st, comma + before + Render(value), after);
      SteadyAppend(st, comma + before + Render(value) + after, RenderElements(rest, false));
  }

  lemma {:induction false} MembersAreSteady(st: Scan, m: Members, first: bool)
    requires AreMembers(m) && !st.inString && !st.escaped
    ensures Steady(st, RenderMembers(m, first))
    decreases m
  {
    match m
    case NoMember => QuietIsSteady(st, "");
    case Member(before, name, beforeColon, afterColon, value, after, rest) =>
      var comma := if first then "" else ",";
      MemberStart(st, comma, before, name, beforeColon, afterColon);
      JsonIsSteady(st, value);
      QuietIsSteady(st, after);
      MembersAreSteady(st, rest, false);
      var head := comma + before + Quoted(name) + beforeColon + ":" + afterColon;
      SteadyAppend(st, head, Render(value));
      SteadyAppend(st, head + Render(value), after);
      SteadyAppend(st, head + Render(value) + after, RenderMembers(rest, false));
  }

  lemma MemberStart(st: Scan, comma: string, before: string, name: string, beforeColon: string, afterColon: string)
    requires Quiet(comma) && IsGap(before) && IsBody(name) && IsGap(beforeColon) && IsGap(afterColon)
    requires !st.inString && !st.escaped
    ensures Steady(st, comma + before + Quoted(name) + beforeColon + ":" + afterColon)
  {
    QuietIsSteady(st, comma + before);
    QuotedIsSteady(st, name);
    QuietIsSteady(st, beforeColon);
    QuietIsSteady(st, ":");
    QuietIsSteady(st, afterColon);
    SteadyAppend(st, comma + before, Quoted(name));
    SteadyAppend(st, comma + before + Quoted(name), beforeColon);
    SteadyAppend(st, comma + before + Quoted(name) + beforeColon, ":");
    SteadyAppend(st, comma + before + Quoted(name) + beforeColon + ":", afterColon);
  }

  // ----------------------------------------------------------------------- the result

  lemma ObjectClosesFirst(v: Value)
    requires IsJson(v) && v.Object?
    ensures Render(v)[0] == '{' && ClosesFirst(Render(v))
  {
    var t := Render(v);
    var mid, inner := START.(depth := 1), v.space + RenderMembers(v.members, true);
    QuietIsSteady(mid, v.space);
    MembersAreSteady(mid, v.members, true);
    SteadyAppend(mid, v.space, RenderMembers(v.members, true));
    assert t == ['{'] + inner + ['}'] && t[..|t| - 1] == ['{'] + inner;
    assert ['{'][..0] == [] && Run(START, ['{']) == mid;
    RunAppend(START, ['{'], inner);
    forall k | 0 <= k < |t| ensures !Closes(t[..k]) {
      if k > 0 {
        assert t[..k] == ['{'] + inner[..k - 1];
        RunAppend(START, ['{'], inner[..k - 1]);
      }
    }
  }

  /** Whatever is written around it, the first JSON object is what is extracted. */
  lemma ObjectIsExtracted(before: string, v: Value, after: string)
    requires IsJson(v) && v.Object? && '{' !in before
    ensures Extracts(before + Render(v) + after, Render(v))
  {
    var s, t, start := before + Render(v) + after, Render(v), |before|;
    ObjectClosesFirst(v);
    assert s[..start] == before && s[start..start + |t|] == t && s[start] == t[0];
    assert Isolates(s, t, start);
  }

  /** Every other answer is impossible. */
  lemma OnlyObjectIsExtracted(before: string, v: Value, after: string, r: string)
    requires IsJson(v) && v.Object? && '{' !in before && Extracts(before + Render(v) + after, r)
    ensures r == Render(v)
  {
    ObjectIsExtracted(before, v, after);
    ExtractsUnique(before + Render(v) + after, r, Render(v));
  }
}
