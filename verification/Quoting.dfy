/** toHCLQuotedString and a reader that undoes it. */
module Quoting {
  import opened Addrs

  /** unicode.IsPrint as a parameter; the escaper relies only on '{' being printable. */
  type Printable = p: char -> bool | p('{') witness (c: char) => true

  function HexDigit(d: int): char
    requires 0 <= d < 16
  {
    if d < 10 then ('0' as int + d) as char else ('a' as int + (d - 10)) as char
  }

  function HexDigitValue(c: char): Option<int> {
    if '0' <= c <= '9' then Some(c as int - '0' as int)
    else if 'a' <= c <= 'f' then Some(c as int - 'a' as int + 10)
    else None
  }

  function Power16(n: nat): (p: nat)
    ensures p > 0
  {
    if n == 0 then 1 else 16 * Power16(n - 1)
  }

  /** The last n hexadecimal digits of v. */
  function Hex(n: nat, v: nat): (s: string)
    ensures |s| == n
  {
    if n == 0 then "" else Hex(n - 1, v / 16) + [HexDigit(v % 16)]
  }

  function HexValue(s: string): Option<int> {
    if s == "" then Some(0)
    else
      match (HexValue(s[..|s| - 1]), HexDigitValue(s[|s| - 1]))
      case (Some(v), Some(d)) => Some(16 * v + d)
      case _ => None
  }

  lemma {:induction false} HexReadsBack(n: nat, v: nat)
    requires v < Power16(n)
    ensures HexValue(Hex(n, v)) == Some(v)
  {
    if n == 0 {
    } else {
      var h := Hex(n - 1, v / 16);
      HexReadsBack(n - 1, v / 16);
      assert Hex(n, v) == h + [HexDigit(v % 16)];
      assert Hex(n, v)[..n - 1] == h;
    }
  }

  /** What one rune becomes; "next" is the rune after it, if any. */
  function Escape(c: char, next: Option<char>, pr: Printable): string {
    match c
    case '\n' => "\\n"
    case '\r' => "\\r"
    case '\t' => "\\t"
    case '\"' => "\\\""
    case '\\' => "\\\\"
    case _ =>
      if c == '$' || c == '%' then (if next == Some('{') then [c, c] else [c])
      else if pr(c) then [c]
      else if c as int < 65536 then "\\u" + Hex(4, c as int)
      else "\\U" + Hex(8, c as int)
  }

  function Next(s: string): Option<char> {
    if |s| > 1 then Some(s[1]) else None
  }

  function Body(s: string, pr: Printable): string {
    if s == "" then "" else Escape(s[0], Next(s), pr) + Body(s[1..], pr)
  }

  function Quoted(s: string, pr: Printable): string {
    "\"" + Body(s, pr) + "\""
  }

  function NextAt(s: string, i: nat): Option<char> {
    if i + 1 < |s| then Some(s[i + 1]) else None
  }

  lemma {:induction false} BodyStep(s: string, i: nat, out: string, pr: Printable)
    requires i < |s|
    ensures out + Body(s[i..], pr) == (out + Escape(s[i], NextAt(s, i), pr)) + Body(s[i + 1..], pr)
  {
    assert s[i..][1..] == s[i + 1..];
    assert Next(s[i..]) == NextAt(s, i);
  }

  /** The loop over runes, writing to the builder. */
  method ToHCLQuotedString(s: string, pr: Printable) returns (out: string)
    ensures out == Quoted(s, pr)
  {
    if |s| == 0 {
      return "\"\"";
    }
    out := "\"";
    for i := 0 to |s|
      invariant out + Body(s[i..], pr) == "\"" + Body(s, pr)
    {
      var r := s[i];
      BodyStep(s, i, out, pr);
      ghost var before := out;
      match r {
        case '\n' => out := out + "\\n";
        case '\r' => out := out + "\\r";
        case '\t' => out := out + "\\t";
        case '\"' => out := out + "\\\"";
        case '\\' => out := out + "\\\\";
        case _ =>
          if r == '$' || r == '%' {
            out := out + [r];
            var remain := s[i + 1..];
            if |remain| > 0 && remain[0] == '{' {
              out := out + [r];
            }
          } else if !pr(r) {
            if r as int < 65536 {
              out := out + ("\\u" + Hex(4, r as int));
            } else {
              out := out + ("\\U" + Hex(8, r as int));
            }
          } else {
            out := out + [r];
          }
      }
      assert out == before + Escape(r, NextAt(s, i), pr);
    }
    out := out + "\"";
  }

  // ---------- Reading a quoted string back ----------

  function Push(prefix: string, r: Option<(string, string)>): Option<(string, string)> {
    match r
    case Some((s, rest)) => Some((prefix + s, rest))
    case None => None
  }

  function CharOf(v: Option<int>): Option<char> {
    match v
    case Some(i) => if 0 <= i < 0xD800 || 0xE000 <= i < 0x11_0000 then Some(i as char) else None
    case None => None
  }

  /** Reads up to the first unescaped quote; the result is the string and the text after it. */
  function Read(t: string): Option<(string, string)> {
    if t == "" then None
    else if t[0] == '\"' then Some(("", t[1..]))
    else if t[0] == '\\' then
      if |t| < 2 then None
      else if t[1] == 'n' then Push("\n", Read(t[2..]))
      else if t[1] == 'r' then Push("\r", Read(t[2..]))
      else if t[1] == 't' then Push("\t", Read(t[2..]))
      else if t[1] == '\"' || t[1] == '\\' then Push([t[1]], Read(t[2..]))
      else if t[1] == 'u' && |t| >= 6 then
        (match CharOf(HexValue(t[2..6])) case Some(c) => Push([c], Read(t[6..])) case None => None)
      else if t[1] == 'U' && |t| >= 10 then
        (match CharOf(HexValue(t[2..10])) case Some(c) => Push([c], Read(t[10..])) case None => None)
      else None
    else if (t[0] == '$' || t[0] == '%') && |t| >= 3 && t[1] == t[0] && t[2] == '{' then
      Push([t[0], '{'], Read(t[3..]))
    else Push([t[0]], Read(t[1..]))
  }

  /** The rest of a quoted string, its closing quote, and whatever text follows. */
  function Tail(s: string, rest: string, pr: Printable): string {
    Body(s, pr) + "\"" + rest
  }

  lemma {:induction false} TailStep(s: string, rest: string, pr: Printable)
    requires s != ""
    ensures Tail(s, rest, pr) == Escape(s[0], Next(s), pr) + Tail(s[1..], rest, pr)
  {
  }

  predicate Starts(t: string, c: char) {
    t != "" && t[0] == c
  }

  /** The first character of a tail tells whether the next rune is '{', '$' or '%'. */
  lemma {:induction false} FirstOfTail(s: string, rest: string, pr: Printable)
    ensures var t := Tail(s, rest, pr);
            && t != ""
            && (forall c | c in "{$%" :: Starts(t, c) <==> Starts(s, c))
  {
    if s != "" {
      TailStep(s, rest, pr);
    }
  }

  lemma {:induction false} ReadMark(c: char, u: string)
    requires c == '$' || c == '%'
    ensures Read([c, c, '{'] + u) == Push([c, '{'], Read(u))
    ensures !(|u| >= 2 && u[0] == c && u[1] == '{') ==> Read([c] + u) == Push([c], Read(u))
  {
    assert ([c, c, '{'] + u)[3..] == u;
    assert ([c] + u)[1..] == u;
  }

  lemma {:induction false} ReadEscaped(c: char, pr: Printable, u: string)
    requires c != '$' && c != '%'
    ensures Read(Escape(c, None, pr) + u) == Push([c], Read(u))
  {
    var t := Escape(c, None, pr) + u;
    if c !in "\n\r\t\"\\" && !pr(c) {
      var v := c as int;
      assert Power16(4) == 65536 && Power16(8) == 0x1_0000_0000;
      if v < 65536 {
        HexReadsBack(4, v);
        assert t[2..6] == Hex(4, v) && t[6..] == u;
      } else {
        HexReadsBack(8, v);
        assert t[2..10] == Hex(8, v) && t[10..] == u;
      }
    } else if c in "\n\r\t\"\\" {
      assert t[2..] == u;
    } else {
      assert t[1..] == u;
    }
  }

  /** A lone '$' or '%' is never mistaken for an escaped template mark. */
  lemma {:induction false} LoneMark(s: string, rest: string, pr: Printable)
    requires s != "" && (s[0] == '$' || s[0] == '%') && Next(s) != Some('{')
    ensures var u := Tail(s[1..], rest, pr); !(|u| >= 2 && u[0] == s[0] && u[1] == '{')
  {
    var s1 := s[1..];
    FirstOfTail(s1, rest, pr);
    assert Starts(Tail(s1, rest, pr), s[0]) <==> Starts(s1, s[0]);
    if s1 != "" && s1[0] == s[0] {
      TailStep(s1, rest, pr);
      FirstOfTail(s1[1..], rest, pr);
      assert Starts(Tail(s1[1..], rest, pr), '{') <==> Starts(s1[1..], '{');
    }
  }

  /** How many runes one reading step covers: an escaped template mark covers its brace too. */
  function StepLength(s: string): nat
    requires s != ""
  {
    if (s[0] == '$' || s[0] == '%') && Next(s) == Some('{') then 2 else 1
  }

  lemma {:induction false} ReadStepPlain(s: string, rest: string, pr: Printable)
    requires s != "" && s[0] != '$' && s[0] != '%'
    ensures Read(Tail(s, rest, pr)) == Push([s[0]], Read(Tail(s[1..], rest, pr)))
  {
    TailStep(s, rest, pr);
    assert Escape(s[0], Next(s), pr) == Escape(s[0], None, pr);
    ReadEscaped(s[0], pr, Tail(s[1..], rest, pr));
  }

  lemma {:induction false} TailOfEscapedMark(s: string, rest: string, pr: Printable)
    requires s != "" && (s[0] == '$' || s[0] == '%') && Next(s) == Some('{')
    ensures Tail(s, rest, pr) == [s[0], s[0], '{'] + Tail(s[2..], rest, pr)
  {
    var u := Tail(s[2..], rest, pr);
    TailStep(s, rest, pr);
    TailStep(s[1..], rest, pr);
    assert s[1..][1..] == s[2..];
    assert Escape('{', Next(s[1..]), pr) == "{";
    assert Tail(s[1..], rest, pr) == "{" + u;
    assert [s[0], s[0]] + ("{" + u) == [s[0], s[0], '{'] + u;
  }

  lemma {:induction false} ReadStepLone(s: string, rest: string, pr: Printable)
    requires s != "" && (s[0] == '$' || s[0] == '%') && Next(s) != Some('{')
    ensures Read(Tail(s, rest, pr)) == Push([s[0]], Read(Tail(s[1..], rest, pr)))
  {
    TailStep(s, rest, pr);
    LoneMark(s, rest, pr);
    ReadMark(s[0], Tail(s[1..], rest, pr));
  }

  lemma {:induction false} ReadStep(s: string, rest: string, pr: Printable)
    requires s != ""
    ensures Read(Tail(s, rest, pr)) == Push(s[..StepLength(s)], Read(Tail(s[StepLength(s)..], rest, pr)))
  {
    if s[0] != '$' && s[0] != '%' {
      ReadStepPlain(s, rest, pr);
      assert s[..1] == [s[0]];
    } else if Next(s) == Some('{') {
      TailOfEscapedMark(s, rest, pr);
      ReadMark(s[0], Tail(s[2..], rest, pr));
      assert s[..2] == [s[0], '{'];
    } else {
      ReadStepLone(s, rest, pr);
      assert s[..1] == [s[0]];
    }
  }

  /** Every string is read back exactly, whatever text follows the closing quote. */
  lemma {:induction false} QuotingReadsBack(s: string, rest: string, pr: Printable)
    ensures Read(Tail(s, rest, pr)) == Some((s, rest))
    decreases |s|
  {
    if s == "" {
      assert Tail(s, rest, pr) == "\"" + rest;
    } else {
      var n := StepLength(s);
      ReadStep(s, rest, pr);
      QuotingReadsBack(s[n..], rest, pr);
      assert s == s[..n] + s[n..];
    }
  }

  /** The runes that are never written as they are, or not always. */
  const SPECIAL := {'\n', '\r', '\t', '\"', '\\', '$', '%'}

  /** Printable text without special runes is only put between quotes. */
  lemma {:induction false} PlainTextIsUntouched(s: string, pr: Printable)
    requires forall c | c in s :: pr(c) && c !in SPECIAL
    ensures Quoted(s, pr) == "\"" + s + "\""
    decreases |s|
  {
    BodyOfPlain(s, pr);
  }

  lemma {:induction false} BodyOfPlain(s: string, pr: Printable)
    requires forall c | c in s :: pr(c) && c !in SPECIAL
    ensures Body(s, pr) == s
    decreases |s|
  {
    if s == "" {
    } else {
      assert s[0] in s && s == [s[0]] + s[1..];
      BodyOfPlain(s[1..], pr);
    }
  }

  /** The short forms of the special runes; a template mark is doubled before a brace only. */
  lemma {:induction false} SpecialRunes(pr: Printable)
    ensures Quoted("\n", pr) == "\"\\n\"" && Quoted("\r", pr) == "\"\\r\"" && Quoted("\t", pr) == "\"\\t\""
    ensures Quoted("\"", pr) == "\"\\\"\"" && Quoted("\\", pr) == "\"\\\\\""
    ensures Quoted("${", pr) == "\"$${\"" && Quoted("%{", pr) == "\"%%{\""
    ensures Quoted("$", pr) == "\"$\"" && Quoted("%", pr) == "\"%\""
  {
    OneRune('\n', pr);
    OneRune('\r', pr);
    OneRune('\t', pr);
    OneRune('\"', pr);
    OneRune('\\', pr);
    OneRune('$', pr);
    OneRune('%', pr);
    OneRune('{', pr);
    assert "${"[1..] == "{" && "%{"[1..] == "{";
    assert Body("${", pr) == "$$" + Body("{", pr) && Body("%{", pr) == "%%" + Body("{", pr);
    assert "$$" + "{" == "$${" && "%%" + "{" == "%%{";
  }

  lemma {:induction false} OneRune(c: char, pr: Printable)
    ensures Body([c], pr) == Escape(c, None, pr)
  {
    assert [c][1..] == "" && Escape(c, None, pr) + "" == Escape(c, None, pr);
  }

  /** Any other rune that is not printable becomes its code in four or eight hexadecimal digits. */
  lemma {:induction false} UnprintableRunes(c: char, pr: Printable)
    requires !pr(c) && c !in SPECIAL
    ensures exists d :: |d| == (if c as int < 65536 then 4 else 8) && HexValue(d) == Some(c as int)
              && Quoted([c], pr) == "\"" + (if c as int < 65536 then "\\u" else "\\U") + d + "\""
  {
    var n := if c as int < 65536 then 4 else 8;
    assert Power16(4) == 65536 && Power16(8) == 0x1_0000_0000;
    HexReadsBack(n, c as int);
    OneRune(c, pr);
    var d, u := Hex(n, c as int), if n == 4 then "\\u" else "\\U";
    assert Escape(c, None, pr) == u + d;
    assert "\"" + (u + d) + "\"" == "\"" + u + d + "\"";
  }
}
