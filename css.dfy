/** The stylesheet the layouts emit: one rule per image of the form
      .NAME { background-position: X Y; width: Wpx; height: Hpx; }
    followed by a newline (src/sprite.rs:101-108, 185-192, 216-222), where X
    and Y are either the literal `0px` or a negated pixel offset `-Npx`.
    A parser recovers the rule from its text, which shows that the text
    carries the name, both offsets and both dimensions. */
module Css {
  import opened Wrappers

  /** One background-position term: `0px`, or `-Npx` for an offset N. */
  datatype Offset = Zero | Neg(n: nat)

  datatype Rule = Rule(name: string, x: Offset, y: Offset, width: nat, height: nat)

  predicate IsDigit(c: char) {
    '0' <= c <= '9'
  }

  predicate AllDigits(s: string) {
    forall i :: 0 <= i < |s| ==> IsDigit(s[i])
  }

  function DigitChar(d: nat): (c: char)
    requires d < 10
    ensures IsDigit(c)
  {
    (48 + d) as char
  }

  function DigitValue(c: char): (d: nat)
    requires IsDigit(c)
    ensures d < 10 && DigitChar(d) == c
  {
    c as int - 48
  }

  /** `{}` formatting of an unsigned integer: decimal, no leading zeros. */
  function Decimal(n: nat): (s: string)
    ensures |s| >= 1 && AllDigits(s)
    ensures s[0] == '0' <==> n == 0
  {
    if n < 10 then [DigitChar(n)] else Decimal(n / 10) + [DigitChar(n % 10)]
  }

  /** The number a string of decimal digits denotes. */
  function ValueOf(s: string): nat
    requires AllDigits(s)
  {
    if s == [] then 0 else ValueOf(s[..|s| - 1]) * 10 + DigitValue(s[|s| - 1])
  }

  lemma {:induction false} DecimalRoundTrip(n: nat)
    ensures ValueOf(Decimal(n)) == n
  {
    var s := Decimal(n);
    if n >= 10 {
      DecimalRoundTrip(n / 10);
      assert s[..|s| - 1] == Decimal(n / 10);
    }
  }

  function OffsetText(o: Offset): string {
    match o
    case Zero => "0px"
    case Neg(n) => "-" + Decimal(n) + "px"
  }

  /** The two offsets and the two dimensions with their separators. */
  function Fields(r: Rule): string {
    OffsetText(r.x) + (" " + (OffsetText(r.y) + ("; width: " + (Decimal(r.width)
      + ("px; height: " + (Decimal(r.height) + "px; }\n"))))))
  }

  /** Everything after the name: it starts with the rule's only `{`. */
  function RuleBody(r: Rule): string {
    "{" + (" background-position: " + Fields(r))
  }

  function RuleText(r: Rule): string {
    "." + r.name + " " + RuleBody(r)
  }

  /** The emitted stylesheet: the rules' texts in order. */
  function Stylesheet(rules: seq<Rule>): string {
    if rules == [] then "" else Stylesheet(rules[..|rules| - 1]) + RuleText(rules[|rules| - 1])
  }

  lemma StylesheetStep(rules: seq<Rule>, i: nat)
    requires i < |rules|
    ensures Stylesheet(rules[..i + 1]) == Stylesheet(rules[..i]) + RuleText(rules[i])
  {
    assert rules[..i + 1][..i] == rules[..i];
  }

  // ---- Reading a rule back ----

  /** The rest of s after the literal lit, if s starts with it. */
  function ParseLit(lit: string, s: string): Option<string> {
    if lit <= s then Some(s[|lit|..]) else None
  }

  /** The length of the run of digits at the start of s. */
  function DigitRun(s: string): (k: nat)
    ensures k <= |s| && AllDigits(s[..k]) && (k < |s| ==> !IsDigit(s[k]))
  {
    if s == [] || !IsDigit(s[0]) then 0
    else
      var k := 1 + DigitRun(s[1..]);
      assert s[..k] == [s[0]] + s[1..][..k - 1];
      k
  }

  /** A maximal non-empty run of digits and what follows it. */
  function ParseNat(s: string): Option<(nat, string)> {
    var k := DigitRun(s);
    if k == 0 then None else Some((ValueOf(s[..k]), s[k..]))
  }

  function ParseOffset(s: string): Option<(Offset, string)> {
    if "0px" <= s then Some((Zero, s[3..]))
    else if "-" <= s then
      match ParseNat(s[1..])
      case None => None
      case Some((n, t)) => if "px" <= t then Some((Neg(n), t[2..])) else None
    else None
  }

  /** The position of the last occurrence of c in s. */
  function LastIndex(s: string, c: char): (r: Option<nat>)
    ensures r.Some? ==> r.value < |s| && s[r.value] == c
  {
    if s == [] then None
    else if s[|s| - 1] == c then Some(|s| - 1)
    else LastIndex(s[..|s| - 1], c)
  }

  /** Reads the text after the name. */
  function ParseBody(s: string): Option<(Offset, Offset, nat, nat)> {
    if s == [] || s[0] != '{' then None else
    match ParseLit(" background-position: ", s[1..])
    case None => None
    case Some(s1) =>
      match ParseOffset(s1)
      case None => None
      case Some((x, s2)) =>
        match ParseLit(" ", s2)
        case None => None
        case Some(s3) =>
          match ParseOffset(s3)
          case None => None
          case Some((y, s4)) =>
            match ParseLit("; width: ", s4)
            case None => None
            case Some(s5) =>
              match ParseNat(s5)
              case None => None
              case Some((w, s6)) =>
                match ParseLit("px; height: ", s6)
                case None => None
                case Some(s7) =>
                  match ParseNat(s7)
                  case None => None
                  case Some((h, s8)) =>
                    if s8 == "px; }\n" then Some((x, y, w, h)) else None
  }

  /** Reads one rule. The name may contain any character, `{` included: the
      name ends before the last `{` of the text. */
  function ParseRule(s: string): Option<Rule> {
    match LastIndex(s, '{')
    case None => None
    case Some(p) =>
      if 2 <= p && s[0] == '.' && s[p - 1] == ' ' then
        match ParseBody(s[p..])
        case None => None
        case Some((x, y, w, h)) => Some(Rule(s[1..p - 1], x, y, w, h))
      else None
  }

  // ---- Round trip ----

  lemma ParseLitAppend(lit: string, rest: string)
    ensures ParseLit(lit, lit + rest) == Some(rest)
  {
    assert (lit + rest)[..|lit|] == lit;
    assert (lit + rest)[|lit|..] == rest;
  }

  lemma {:induction false} DigitRunAppend(d: string, rest: string)
    requires AllDigits(d)
    requires rest == [] || !IsDigit(rest[0])
    ensures DigitRun(d + rest) == |d|
    decreases |d|
  {
    if d != [] {
      assert (d + rest)[1..] == d[1..] + rest;
      DigitRunAppend(d[1..], rest);
    }
  }

  lemma ParseNatAppend(n: nat, rest: string)
    requires rest == [] || !IsDigit(rest[0])
    ensures ParseNat(Decimal(n) + rest) == Some((n, rest))
  {
    var d := Decimal(n);
    DigitRunAppend(d, rest);
    assert (d + rest)[..|d|] == d;
    assert (d + rest)[|d|..] == rest;
    DecimalRoundTrip(n);
  }

  lemma ParseOffsetAppend(o: Offset, rest: string)
    requires rest == [] || !IsDigit(rest[0])
    ensures ParseOffset(OffsetText(o) + rest) == Some((o, rest))
  {
    match o
    case Zero =>
      ParseLitAppend("0px", rest);
    case Neg(n) =>
      var s := OffsetText(o) + rest;
      var d := Decimal(n);
      assert s == "-" + (d + ("px" + rest));
      assert s[0] == '-';
      assert !("0px" <= s);
      assert s[1..] == d + ("px" + rest);
      ParseNatAppend(n, "px" + rest);
  }

  lemma ParseBodyRoundTrip(r: Rule)
    ensures ParseBody(RuleBody(r)) == Some((r.x, r.y, r.width, r.height))
  {
    var s8 := "px; }\n";
    var s7 := Decimal(r.height) + s8;
    var s6 := "px; height: " + s7;
    var s5 := Decimal(r.width) + s6;
    var s4 := "; width: " + s5;
    var s3 := OffsetText(r.y) + s4;
    var s2 := " " + s3;
    var s1 := OffsetText(r.x) + s2;
    var s0 := " background-position: " + s1;
    assert RuleBody(r) == "{" + s0;
    assert ("{" + s0)[1..] == s0;
    ParseLitAppend(" background-position: ", s1);
    ParseOffsetAppend(r.x, s2);
    ParseLitAppend(" ", s3);
    ParseOffsetAppend(r.y, s4);
    ParseLitAppend("; width: ", s5);
    ParseNatAppend(r.width, s6);
    ParseLitAppend("px; height: ", s7);
    ParseNatAppend(r.height, s8);
  }

  lemma NoBraceInDigits(s: string)
    requires AllDigits(s)
    ensures '{' !in s
  {
  }

  lemma NoBraceInOffset(o: Offset)
    ensures '{' !in OffsetText(o)
  {
    match o
    case Zero =>
    case Neg(n) =>
      NoBraceInDigits(Decimal(n));
      assert OffsetText(o) == ['-'] + Decimal(n) + ['p', 'x'];
  }

  lemma NoBraceInConcat(a: string, b: string)
    requires '{' !in a && '{' !in b
    ensures '{' !in a + b
  {
  }

  lemma NoBraceInFields(r: Rule)
    ensures '{' !in Fields(r)
  {
    var t7 := Decimal(r.height) + "px; }\n";
    NoBraceInDigits(Decimal(r.height));
    NoBraceInConcat(Decimal(r.height), "px; }\n");
    var t5 := Decimal(r.width) + ("px; height: " + t7);
    NoBraceInConcat("px; height: ", t7);
    NoBraceInDigits(Decimal(r.width));
    NoBraceInConcat(Decimal(r.width), "px; height: " + t7);
    var t3 := OffsetText(r.y) + ("; width: " + t5);
    NoBraceInConcat("; width: ", t5);
    NoBraceInOffset(r.y);
    NoBraceInConcat(OffsetText(r.y), "; width: " + t5);
    NoBraceInConcat(" ", t3);
    NoBraceInOffset(r.x);
    NoBraceInConcat(OffsetText(r.x), " " + t3);
  }

  /** The body's only `{` is its first character. */
  lemma BodyBrace(r: Rule)
    ensures |RuleBody(r)| >= 1 && RuleBody(r)[0] == '{' && '{' !in RuleBody(r)[1..]
  {
    var tail := " background-position: " + Fields(r);
    NoBraceInFields(r);
    NoBraceInConcat(" background-position: ", Fields(r));
    assert RuleBody(r)[1..] == tail;
  }

  lemma {:induction false} LastIndexSkips(u: string, t: string, c: char)
    requires c !in t
    ensures LastIndex(u + t, c) == LastIndex(u, c)
    decreases |t|
  {
    if t != [] {
      var s := u + t;
      assert s[|s| - 1] == t[|t| - 1];
      assert s[..|s| - 1] == u + t[..|t| - 1];
      LastIndexSkips(u, t[..|t| - 1], c);
    } else {
      assert u + t == u;
    }
  }

  /** In "." + name + " " + body, where body's only `{` is its first
      character, the last `{` sits right after the space. */
  lemma SplitAtLastBrace(name: string, body: string)
    requires |body| >= 1 && body[0] == '{' && '{' !in body[1..]
    ensures var s, p := "." + name + " " + body, |name| + 2;
      LastIndex(s, '{') == Some(p) && s[0] == '.' && s[p - 1] == ' ' && s[p..] == body && s[1..p - 1] == name
  {
    var head := "." + name + " ";
    var s := head + body;
    assert s == (head + ['{']) + body[1..];
    LastIndexSkips(head + ['{'], body[1..], '{');
    assert LastIndex(head + ['{'], '{') == Some(|head|);
    assert s[|head|..] == body;
    assert s[1..|head| - 1] == name;
  }

  /** Reading a rule's text gives the rule back, whatever its name. */
  lemma RuleRoundTrip(r: Rule)
    ensures ParseRule(RuleText(r)) == Some(r)
  {
    BodyBrace(r);
    SplitAtLastBrace(r.name, RuleBody(r));
    ParseBodyRoundTrip(r);
  }
}
