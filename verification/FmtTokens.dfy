/** The template unwrapping of "terraform fmt", on token sequences. */
module FmtTokens {
  import opened Addrs

  datatype Token =
    | OQuote | CQuote | TemplateInterp | TemplateControl | TemplateSeqEnd
    | QuotedLit(text: string) | Newline | OParen | CParen | OBrack | CBrack | OBrace | CBrace | Word(text: string)

  // ---------- Trimming ----------

  function Leading(ts: seq<Token>): (n: nat)
    ensures n <= |ts|
  {
    if ts != [] && ts[0] == Newline then 1 + Leading(ts[1..]) else 0
  }

  /** The length without trailing newlines. */
  function WithoutTrailing(ts: seq<Token>): (n: nat)
    ensures n <= |ts|
  {
    if ts != [] && ts[|ts| - 1] == Newline then WithoutTrailing(ts[..|ts| - 1]) else |ts|
  }

  /** None is the slice panic on a non-empty sequence of newlines only. */
  function Trimmed(ts: seq<Token>): Option<seq<Token>> {
    if Leading(ts) <= WithoutTrailing(ts) then Some(ts[Leading(ts)..WithoutTrailing(ts)]) else None
  }

  method TrimNewlines(ts: seq<Token>) returns (trimmed: Option<seq<Token>>)
    ensures trimmed == Trimmed(ts)
  {
    if |ts| == 0 {
      return Some([]);
    }
    var start := 0;
    while start < |ts| && ts[start] == Newline
      invariant start <= |ts| && Leading(ts) == start + Leading(ts[start..])
    {
      start := start + 1;
    }
    var end := |ts|;
    assert ts[..end] == ts;
    while end > 0 && ts[end - 1] == Newline
      invariant end <= |ts| && WithoutTrailing(ts) == WithoutTrailing(ts[..end])
    {
      assert ts[..end][..end - 1] == ts[..end - 1];
      end := end - 1;
    }
    if start > end {
      return None;
    }
    return Some(ts[start..end]);
  }

  // ---------- Unwrapping ----------

  /** The scan of the interior: no template delimiter or literal outside nested quotes. */
  predicate SingleInterpolation(inside: seq<Token>, quotes: int) {
    if inside == [] then true
    else
      match inside[0]
      case OQuote => SingleInterpolation(inside[1..], quotes + 1)
      case CQuote => SingleInterpolation(inside[1..], quotes - 1)
      case TemplateInterp => quotes > 0 && SingleInterpolation(inside[1..], quotes)
      case TemplateSeqEnd => quotes > 0 && SingleInterpolation(inside[1..], quotes)
      case QuotedLit(_) => quotes > 0 && SingleInterpolation(inside[1..], quotes)
      case _ => SingleInterpolation(inside[1..], quotes)
  }

  predicate Wrapper(ts: seq<Token>) {
    && |ts| >= 5
    && ts[0] == OQuote && ts[1] == TemplateInterp
    && ts[|ts| - 2] == TemplateSeqEnd && ts[|ts| - 1] == CQuote
  }

  predicate EndsInParens(ts: seq<Token>) {
    ts != [] && ts[0] == OParen && ts[|ts| - 1] == CParen
  }

  function Parenthesized(ts: seq<Token>): seq<Token> {
    if Newline in ts && !EndsInParens(ts) then [OParen] + ts + [CParen] else ts
  }

  /** formatValueExpr; None is a panic. */
  function Formatted(ts: seq<Token>): Option<seq<Token>> {
    if !Wrapper(ts) then Some(ts)
    else
      var inside := ts[2..|ts| - 2];
      if !SingleInterpolation(inside, 0) then Some(ts)
      else
        match Trimmed(inside)
        case None => None
        case Some(trimmed) => Some(Parenthesized(trimmed))
  }

  method FormatValueExpr(ts: seq<Token>) returns (result: Option<seq<Token>>)
    ensures result == Formatted(ts)
  {
    if |ts| < 5 {
      return Some(ts);
    }
    if ts[0] != OQuote || ts[1] != TemplateInterp || ts[|ts| - 2] != TemplateSeqEnd || ts[|ts| - 1] != CQuote {
      return Some(ts);
    }
    var inside := ts[2..|ts| - 2];
    var quotes := 0;
    for i := 0 to |inside|
      invariant SingleInterpolation(inside, 0) == SingleInterpolation(inside[i..], quotes)
    {
      var token := inside[i];
      assert inside[i..][1..] == inside[i + 1..];
      if token == OQuote {
        quotes := quotes + 1;
        continue;
      }
      if token == CQuote {
        quotes := quotes - 1;
        continue;
      }
      if quotes > 0 {
        continue;
      }
      if token == TemplateInterp || token == TemplateSeqEnd {
        return Some(ts);
      }
      if token.QuotedLit? {
        return Some(ts);
      }
    }
    var trim := TrimNewlines(inside);
    if trim.None? {
      return None;
    }
    var trimmed := trim.value;
    var isMultiLine, leadingParen, trailingParen := false, false, false;
    for i := 0 to |trimmed|
      invariant isMultiLine <==> Newline in trimmed[..i]
      invariant leadingParen <==> i > 0 && trimmed[0] == OParen
      invariant trailingParen <==> i > 0 && i == |trimmed| && trimmed[i - 1] == CParen
    {
      assert trimmed[..i + 1] == trimmed[..i] + [trimmed[i]];
      if i == 0 && trimmed[i] == OParen {
        leadingParen := true;
      } else if trimmed[i] == Newline {
        isMultiLine := true;
      } else if i == |trimmed| - 1 && trimmed[i] == CParen {
        trailingParen := true;
      }
    }
    assert trimmed[..|trimmed|] == trimmed;
    if isMultiLine && !(leadingParen && trailingParen) {
      return Some([OParen] + trimmed + [CParen]);
    }
    return Some(trimmed);
  }

  // ---------- Nesting ----------

  datatype Opener = Quote | Template

  /** Reads tokens against a stack of open quotes and templates. */
  function Scan(stack: seq<Opener>, ts: seq<Token>): Option<seq<Opener>>
    decreases |ts|
  {
    if ts == [] then Some(stack)
    else
      match ts[0]
      case OQuote => Scan(stack + [Quote], ts[1..])
      case TemplateInterp => Scan(stack + [Template], ts[1..])
      case TemplateControl => Scan(stack + [Template], ts[1..])
      case CQuote => if stack != [] && stack[|stack| - 1] == Quote then Scan(stack[..|stack| - 1], ts[1..]) else None
      case TemplateSeqEnd =>
        if stack != [] && stack[|stack| - 1] == Template then Scan(stack[..|stack| - 1], ts[1..]) else None
      case _ => Scan(stack, ts[1..])
  }

  predicate WellNested(ts: seq<Token>) { Scan([], ts) == Some([]) }

  function Quotes(stack: seq<Opener>): nat {
    if stack == [] then 0 else Quotes(stack[..|stack| - 1]) + if stack[|stack| - 1] == Quote then 1 else 0
  }

  lemma {:induction false} ScanAppend(stack: seq<Opener>, a: seq<Token>, b: seq<Token>)
    ensures Scan(stack, a + b) == match Scan(stack, a) case None => None case Some(s) => Scan(s, b)
    decreases |a|
  {
    if a == [] {
      assert a + b == b;
    } else {
      assert (a + b)[1..] == a[1..] + b;
      match a[0] {
        case OQuote => ScanAppend(stack + [Quote], a[1..], b);
        case TemplateInterp => ScanAppend(stack + [Template], a[1..], b);
        case TemplateControl => ScanAppend(stack + [Template], a[1..], b);
        case CQuote => if stack != [] { ScanAppend(stack[..|stack| - 1], a[1..], b); }
        case TemplateSeqEnd => if stack != [] { ScanAppend(stack[..|stack| - 1], a[1..], b); }
        case _ => ScanAppend(stack, a[1..], b);
      }
    }
  }

  const OUTER: seq<Opener> := [Quote, Template]
  const CLOSING: seq<Token> := [TemplateSeqEnd, CQuote]

  lemma {:induction false} OuterPop(up: seq<Opener>)
    requires up != []
    ensures (OUTER + up)[..|OUTER + up| - 1] == OUTER + up[..|up| - 1]
    ensures (OUTER + up)[|OUTER + up| - 1] == up[|up| - 1]
  {
  }

  lemma {:induction false} QuotesPush(up: seq<Opener>, o: Opener)
    ensures Quotes(up + [o]) == Quotes(up) + (if o == Quote then 1 else 0)
    ensures (OUTER + up) + [o] == OUTER + (up + [o])
  {
    assert (up + [o])[..|up|] == up;
  }

  /** An interior that passes the code's test never closes the outer template or quote early. */
  lemma {:induction false} InteriorIsNested(up: seq<Opener>, inside: seq<Token>)
    requires Scan(OUTER + up, inside + CLOSING) == Some([])
    requires SingleInterpolation(inside, Quotes(up))
    ensures Scan(up, inside) == Some([])
    decreases |inside|
  {
    var stack := OUTER + up;
    if inside == [] {
      var s1 := stack[..|stack| - 1];
      assert inside + CLOSING == CLOSING && CLOSING[1..] == [CQuote] && [CQuote][1..] == [];
      assert Scan(stack, CLOSING) == Scan(s1, [CQuote]);
      assert Scan(s1, [CQuote]) == Scan(s1[..|s1| - 1], []);
      assert up == [];
    } else {
      var rest := inside[1..];
      assert (inside + CLOSING)[1..] == rest + CLOSING;
      QuotesPush(up, Quote);
      QuotesPush(up, Template);
      match inside[0] {
        case OQuote => InteriorIsNested(up + [Quote], rest);
        case TemplateInterp => InteriorIsNested(up + [Template], rest);
        case TemplateControl => InteriorIsNested(up + [Template], rest);
        case CQuote =>
          assert up != [];
          OuterPop(up);
          InteriorIsNested(up[..|up| - 1], rest);
        case TemplateSeqEnd =>
          assert up != [];
          OuterPop(up);
          InteriorIsNested(up[..|up| - 1], rest);
        case _ => InteriorIsNested(up, rest);
      }
    }
  }

  lemma {:induction false} LeadingIsInvisible(stack: seq<Opener>, ts: seq<Token>)
    ensures Scan(stack, ts[Leading(ts)..]) == Scan(stack, ts)
    ensures forall i | 0 <= i < Leading(ts) :: ts[i] == Newline
    ensures Leading(ts) < |ts| ==> ts[Leading(ts)] != Newline
  {
    if ts != [] && ts[0] == Newline {
      LeadingIsInvisible(stack, ts[1..]);
      assert ts[1..][Leading(ts[1..])..] == ts[Leading(ts)..];
    } else {
      assert ts[0..] == ts;
    }
  }

  lemma {:induction false} TrailingIsInvisible(stack: seq<Opener>, ts: seq<Token>)
    ensures Scan(stack, ts[..WithoutTrailing(ts)]) == Scan(stack, ts)
    ensures forall i | WithoutTrailing(ts) <= i < |ts| :: ts[i] == Newline
    ensures WithoutTrailing(ts) > 0 ==> ts[WithoutTrailing(ts) - 1] != Newline
  {
    if ts != [] && ts[|ts| - 1] == Newline {
      var init := ts[..|ts| - 1];
      TrailingIsInvisible(stack, init);
      assert init[..WithoutTrailing(ts)] == ts[..WithoutTrailing(ts)];
      ScanAppend(stack, init, [Newline]);
      assert ts == init + [Newline];
      assert [Newline][1..] == [];
    } else {
      assert ts[..|ts|] == ts;
    }
  }

  lemma {:induction false} TrimIsInvisible(stack: seq<Opener>, ts: seq<Token>)
    requires Trimmed(ts).Some?
    ensures Scan(stack, Trimmed(ts).value) == Scan(stack, ts)
  {
    var a, b := Leading(ts), WithoutTrailing(ts);
    TrailingIsInvisible(stack, ts);
    LeadingIsInvisible(stack, ts);
    if a <= b {
      LeadingIsInvisible(stack, ts[..b]);
      LeadingOfPrefix(ts, b);
      assert ts[..b][a..] == ts[a..b];
    }
  }

  lemma {:induction false} LeadingOfPrefix(ts: seq<Token>, b: nat)
    requires Leading(ts) <= b <= |ts|
    ensures Leading(ts[..b]) == Leading(ts)
  {
    if ts != [] && ts[0] == Newline {
      assert ts[..b][1..] == ts[1..][..b - 1];
      LeadingOfPrefix(ts[1..], b - 1);
    }
  }

  lemma {:induction false} ParensAreInvisible(stack: seq<Opener>, ts: seq<Token>)
    requires ts != []
    ensures Scan(stack, Parenthesized(ts)) == Scan(stack, ts)
  {
    if Parenthesized(ts) != ts {
      assert ([OParen] + ts + [CParen])[1..] == ts + [CParen];
      ScanAppend(stack, ts, [CParen]);
      assert [CParen][1..] == [];
    }
  }

  /** Nothing, sequences, quotes and templates of well-nested tokens are well nested. */
  lemma {:induction false} NestingIsClosed(a: seq<Token>, b: seq<Token>)
    requires WellNested(a) && WellNested(b)
    ensures WellNested([]) && WellNested(a + b)
    ensures WellNested([OQuote] + a + [CQuote]) && WellNested([OQuote, TemplateInterp] + a + CLOSING)
  {
    ScanAppend([], a, b);
    Enclosed([OQuote], [Quote], a, [CQuote]);
    OpeningScan();
    Enclosed([OQuote, TemplateInterp], OUTER, a, CLOSING);
    assert CLOSING[1..] == [CQuote] && [CQuote][1..] == [] && [OQuote][1..] == [];
    assert [Quote][..0] == [] && OUTER[..1] == [Quote] && [] + [Quote] == [Quote];
  }

  lemma {:induction false} Enclosed(open: seq<Token>, stack: seq<Opener>, a: seq<Token>, close: seq<Token>)
    requires WellNested(a)
    ensures Scan([], open) == Some(stack) ==> Scan([], open + a + close) == Scan(stack, close)
  {
    ScanAppend([], open + a, close);
    ScanAppend([], open, a);
    Lifted(stack, [], a);
    assert stack + [] == stack;
  }

  /** What lies below does not matter to a scan that does not reach it. */
  lemma {:induction false} Lifted(below: seq<Opener>, stack: seq<Opener>, ts: seq<Token>)
    requires Scan(stack, ts).Some?
    ensures Scan(below + stack, ts) == Some(below + Scan(stack, ts).value)
    decreases |ts|
  {
    if ts == [] {
    } else {
      assert (below + stack) + [Quote] == below + (stack + [Quote]);
      assert (below + stack) + [Template] == below + (stack + [Template]);
      assert stack != [] ==> (below + stack)[..|below + stack| - 1] == below + stack[..|stack| - 1];
      match ts[0] {
        case OQuote => Lifted(below, stack + [Quote], ts[1..]);
        case TemplateInterp => Lifted(below, stack + [Template], ts[1..]);
        case TemplateControl => Lifted(below, stack + [Template], ts[1..]);
        case CQuote => Lifted(below, stack[..|stack| - 1], ts[1..]);
        case TemplateSeqEnd => Lifted(below, stack[..|stack| - 1], ts[1..]);
        case _ => Lifted(below, stack, ts[1..]);
      }
    }
  }

  // ---------- What formatting guarantees ----------

  /** On well-nested input the result is the input or a well-nested sequence shorter by two. */
  lemma {:induction false} FormattingKeepsNesting(ts: seq<Token>)
    requires WellNested(ts) && Formatted(ts).Some?
    ensures var u := Formatted(ts).value;
            u == ts || (WellNested(u) && |u| + 2 <= |ts|)
  {
    var u := Formatted(ts).value;
    if u != ts {
      var inside := ts[2..|ts| - 2];
      assert ts == [OQuote, TemplateInterp] + (inside + CLOSING);
      ScanAppend([], [OQuote, TemplateInterp], inside + CLOSING);
      OpeningScan();
      assert OUTER + [] == OUTER;
      InteriorIsNested([], inside);
      TrimIsInvisible([], inside);
      TrimNotEmpty(inside);
      ParensAreInvisible([], Trimmed(inside).value);
    }
  }

  lemma {:induction false} OpeningScan()
    ensures Scan([], [OQuote, TemplateInterp]) == Some(OUTER)
  {
    assert [OQuote, TemplateInterp][1..] == [TemplateInterp] && [TemplateInterp][1..] == [];
    assert [] + [Quote] + [Template] == OUTER;
  }

  lemma {:induction false} TrimNotEmpty(ts: seq<Token>)
    requires ts != [] && Trimmed(ts).Some?
    ensures Trimmed(ts).value != []
  {
    LeadingIsInvisible([], ts);
    TrailingIsInvisible([], ts);
    if Leading(ts) == WithoutTrailing(ts) {
      LeadingAndTrailing(ts);
    }
  }

  predicate OnlyNewlines(ts: seq<Token>) {
    forall i | 0 <= i < |ts| :: ts[i] == Newline
  }

  lemma {:induction false} LeadingAndTrailing(ts: seq<Token>)
    requires ts != []
    ensures OnlyNewlines(ts) <==> Leading(ts) == |ts|
    ensures OnlyNewlines(ts) <==> WithoutTrailing(ts) == 0
    ensures !OnlyNewlines(ts) ==> Leading(ts) < WithoutTrailing(ts)
  {
    LeadingIsInvisible([], ts);
    TrailingIsInvisible([], ts);
    if !OnlyNewlines(ts) {
      var i :| 0 <= i < |ts| && ts[i] != Newline;
      assert Leading(ts) <= i < WithoutTrailing(ts);
    }
  }

  /** x runs from the first to the last token of ts that is not a newline. */
  predicate IsTrim(ts: seq<Token>, a: nat, b: nat, x: seq<Token>) {
    && a < b <= |ts| && x == ts[a..b]
    && OnlyNewlines(ts[..a]) && OnlyNewlines(ts[b..])
    && ts[a] != Newline && ts[b - 1] != Newline
  }

  lemma {:induction false} TrimIsExact(ts: seq<Token>)
    requires !OnlyNewlines(ts)
    ensures Trimmed(ts).Some? && IsTrim(ts, Leading(ts), WithoutTrailing(ts), Trimmed(ts).value)
  {
    LeadingAndTrailing(ts);
    LeadingIsInvisible([], ts);
    TrailingIsInvisible([], ts);
  }

  /** An unwrapped result is the interior between its outer newlines; when that spans several lines
      and does not both start and end with a parenthesis, a pair of parentheses is put around it. */
  lemma {:induction false} UnwrappingIsExact(ts: seq<Token>)
    requires Formatted(ts).Some? && Formatted(ts).value != ts
    ensures var u, inside := Formatted(ts).value, ts[2..|ts| - 2];
            exists a, b, x :: IsTrim(inside, a, b, x)
              && u == if Newline in x && !EndsInParens(x) then [OParen] + x + [CParen] else x
  {
    var inside := ts[2..|ts| - 2];
    LeadingAndTrailing(inside);
    TrimIsExact(inside);
    assert IsTrim(inside, Leading(inside), WithoutTrailing(inside), Trimmed(inside).value);
  }

  // ---------- Brackets around newlines ----------

  /** Brackets of any kind opened and not yet closed, template sequences included. */
  function Depth(ts: seq<Token>): int {
    if ts == [] then 0
    else Depth(ts[..|ts| - 1]) + Rise(ts[|ts| - 1])
  }

  function Rise(t: Token): int {
    match t
    case OParen => 1
    case OBrack => 1
    case OBrace => 1
    case TemplateInterp => 1
    case TemplateControl => 1
    case CParen => -1
    case CBrack => -1
    case CBrace => -1
    case TemplateSeqEnd => -1
    case _ => 0
  }

  lemma {:induction false} DepthStep(ts: seq<Token>, i: nat)
    requires i < |ts|
    ensures Depth(ts[..i + 1]) == Depth(ts[..i]) + Rise(ts[i])
  {
    assert ts[..i + 1][..i] == ts[..i];
  }

  /** As in every expression: nothing is closed before it is opened. */
  predicate BracketsNest(ts: seq<Token>) {
    forall i | 0 <= i <= |ts| :: Depth(ts[..i]) >= 0
  }

  /** Outside all brackets a newline would end the expression. */
  predicate NewlinesEnclosed(ts: seq<Token>) {
    forall i | 0 <= i < |ts| && ts[i] == Newline :: Depth(ts[..i]) > 0
  }

  predicate OpenNewline(ts: seq<Token>) {
    exists i | 0 <= i < |ts| :: ts[i] == Newline && Depth(ts[..i]) == 0
  }

  lemma {:induction false} DepthAppend(a: seq<Token>, b: seq<Token>)
    ensures Depth(a + b) == Depth(a) + Depth(b)
    decreases |b|
  {
    if b == [] {
      assert a + b == a;
    } else {
      var k := |b| - 1;
      assert (a + b)[..|a| + k] == a + b[..k];
      DepthAppend(a, b[..k]);
    }
  }

  lemma {:induction false} NewlinesHaveNoDepth(ts: seq<Token>)
    requires OnlyNewlines(ts)
    ensures Depth(ts) == 0
  {
    if ts == [] {
    } else {
      NewlinesHaveNoDepth(ts[..|ts| - 1]);
    }
  }

  lemma {:induction false} TrimKeepsNesting(ts: seq<Token>, a: nat, b: nat, x: seq<Token>)
    requires IsTrim(ts, a, b, x) && BracketsNest(ts)
    ensures BracketsNest(x)
  {
    NewlinesHaveNoDepth(ts[..a]);
    forall i | 0 <= i <= |x| ensures Depth(x[..i]) >= 0 {
      DepthAppend(ts[..a], x[..i]);
      assert ts[..a + i] == ts[..a] + x[..i];
    }
  }

  /** The added pair encloses every newline of a nested sequence. */
  lemma {:induction false} AddedPairEncloses(x: seq<Token>)
    requires BracketsNest(x)
    ensures NewlinesEnclosed([OParen] + x + [CParen])
  {
    var u := [OParen] + x + [CParen];
    forall i | 0 <= i < |u| && u[i] == Newline ensures Depth(u[..i]) > 0 {
      assert u[..i] == [OParen] + x[..i - 1];
      DepthAppend([OParen], x[..i - 1]);
      assert [OParen][..0] == [];
    }
  }

  lemma {:induction false} OpenNewlineIsNotEnclosed(x: seq<Token>)
    requires BracketsNest(x)
    ensures NewlinesEnclosed(x) <==> !OpenNewline(x)
  {
  }

  /** Exactly when the newlines of an unwrapped expression all lie inside brackets: always, except
      that a leading and a trailing parenthesis are taken for a pair, so that a newline between two
      groups stays in the open. */
  lemma {:induction false} NewlinesStayOpenBetweenGroups(ts: seq<Token>)
    requires Formatted(ts).Some? && Formatted(ts).value != ts && BracketsNest(ts[2..|ts| - 2])
    ensures Trimmed(ts[2..|ts| - 2]).Some?
    ensures var x := Trimmed(ts[2..|ts| - 2]).value;
            NewlinesEnclosed(Formatted(ts).value) <==> !(EndsInParens(x) && OpenNewline(x))
  {
    var inside := ts[2..|ts| - 2];
    var x := Trimmed(inside).value;
    LeadingAndTrailing(inside);
    TrimIsExact(inside);
    TrimKeepsNesting(inside, Leading(inside), WithoutTrailing(inside), x);
    OpenNewlineIsNotEnclosed(x);
    if Newline in x && !EndsInParens(x) {
      AddedPairEncloses(x);
    }
  }

  function TwoGroups(a: string, b: string): seq<Token> {
    [OParen, Word(a), CParen, Word("+"), Newline, OParen, Word(b), CParen]
  }

  lemma {:induction false} PlainTokensPass(ts: seq<Token>)
    requires forall t | t in ts :: t.Word? || t == Newline || t == OParen || t == CParen
    ensures SingleInterpolation(ts, 0)
  {
    if ts == [] {
    } else {
      assert ts[0] in ts;
      PlainTokensPass(ts[1..]);
    }
  }

  lemma {:induction false} GroupDepths(a: string, b: string)
    ensures var x := TwoGroups(a, b);
            Depth(x[..4]) == 0 && BracketsNest(x) && x[4] == Newline
  {
    var x := TwoGroups(a, b);
    DepthStep(x, 0);
    DepthStep(x, 1);
    DepthStep(x, 2);
    DepthStep(x, 3);
    DepthStep(x, 4);
    DepthStep(x, 5);
    DepthStep(x, 6);
    DepthStep(x, 7);
  }

  /** The failing family has members: (a) + newline (b) comes out of its template as it is. */
  lemma {:induction false} TwoGroupsStayOpen(a: string, b: string)
    ensures var x := TwoGroups(a, b);
            Formatted(Wrap(x)) == Some(x) && BracketsNest(x) && !NewlinesEnclosed(x)
  {
    var x := TwoGroups(a, b);
    var ts := Wrap(x);
    assert ts[2..|ts| - 2] == x && Wrapper(ts);
    PlainTokensPass(x);
    assert Leading(x) == 0 && WithoutTrailing(x) == 8 && x[0..8] == x;
    GroupDepths(a, b);
  }

  /** formatValueExpr panics exactly on a template around nothing but newlines. Such a template holds
      no expression, so the syntax check that precedes formatting keeps it out. */
  lemma {:induction false} PanicsOnNewlinesOnly(ts: seq<Token>)
    ensures Formatted(ts) == None <==> Wrapper(ts) && OnlyNewlines(ts[2..|ts| - 2])
  {
    if Wrapper(ts) {
      var inside := ts[2..|ts| - 2];
      LeadingAndTrailing(inside);
      if OnlyNewlines(inside) {
        NewlinesPass(inside, 0);
      }
    }
  }

  lemma {:induction false} NewlinesPass(ts: seq<Token>, quotes: int)
    requires OnlyNewlines(ts)
    ensures SingleInterpolation(ts, quotes)
  {
    if ts == [] {
    } else {
      assert ts[0] == Newline;
      NewlinesPass(ts[1..], quotes);
    }
  }

  /** Formatting n times; None once a pass panics. */
  function Repeated(ts: seq<Token>, n: nat): Option<seq<Token>>
    decreases n
  {
    if n == 0 then Some(ts)
    else
      match Formatted(ts)
      case None => None
      case Some(u) => Repeated(u, n - 1)
  }

  lemma {:induction false} FormattingShrinks(ts: seq<Token>)
    requires Formatted(ts).Some? && Formatted(ts).value != ts
    ensures |Formatted(ts).value| + 2 <= |ts|
  {
  }

  /** A result that formatting would change again is one line, and so is everything after it. */
  lemma {:induction false} ResultsHoldNoNewline(ts: seq<Token>)
    requires Formatted(ts).Some? && Formatted(ts).value != ts
    ensures Wrapper(Formatted(ts).value) ==> Newline !in Formatted(ts).value
  {
    var inside := ts[2..|ts| - 2];
    LeadingAndTrailing(inside);
    TrimIsExact(inside);
  }

  lemma {:induction false} OneLineStays(ts: seq<Token>)
    requires Newline !in ts
    ensures Formatted(ts).Some? && Newline !in Formatted(ts).value
  {
    PanicsOnNewlinesOnly(ts);
    if Wrapper(ts) {
      assert ts[2] == ts[2..|ts| - 2][0];
    }
  }

  lemma {:induction false} OneLineNeverPanics(ts: seq<Token>, n: nat)
    requires Newline !in ts
    ensures Repeated(ts, n).Some?
    decreases n
  {
    if n == 0 {
    } else {
      OneLineStays(ts);
      OneLineNeverPanics(Formatted(ts).value, n - 1);
    }
  }

  lemma {:induction false} FixedStays(ts: seq<Token>, n: nat)
    requires Formatted(ts) == Some(ts)
    ensures Repeated(ts, n) == Some(ts)
    decreases n
  {
    if n == 0 {
    } else {
      FixedStays(ts, n - 1);
    }
  }

  /** Only the first pass can panic: on a template around nothing but newlines. */
  lemma {:induction false} OnlyTheFirstPassPanics(ts: seq<Token>, n: nat)
    ensures n > 0 ==> (Repeated(ts, n) == None <==> Wrapper(ts) && OnlyNewlines(ts[2..|ts| - 2]))
  {
    PanicsOnNewlinesOnly(ts);
    if n > 0 && Formatted(ts).Some? {
      var u := Formatted(ts).value;
      if u == ts {
        FixedStays(ts, n - 1);
      } else {
        ResultsHoldNoNewline(ts);
        if Wrapper(u) {
          OneLineNeverPanics(u, n - 1);
        } else {
          FixedStays(u, n - 1);
        }
      }
    }
  }

  /** As every template with an expression in it: some token of the interior is not a newline. */
  predicate HoldsExpression(ts: seq<Token>) {
    |ts| >= 5 ==> exists i | 2 <= i < |ts| - 2 :: ts[i] != Newline
  }

  /** So no pass over what the syntax check lets through ever panics. */
  lemma {:induction false} ExpressionsNeverPanic(ts: seq<Token>, n: nat)
    requires HoldsExpression(ts)
    ensures Repeated(ts, n).Some?
  {
    OnlyTheFirstPassPanics(ts, n);
    if Wrapper(ts) {
      var i :| 2 <= i < |ts| - 2 && ts[i] != Newline;
      assert ts[2..|ts| - 2][i - 2] == ts[i];
    }
  }

  /** n passes reach a sequence that formatting leaves alone. */
  predicate Settled(ts: seq<Token>, n: nat) {
    match Repeated(ts, n)
    case None => false
    case Some(u) => Formatted(u) == Some(u)
  }

  /** Repeated formatting of any input reaches a fixed point within half its length, unless the
      first pass panics. */
  lemma {:induction false} FixedPointIsReached(ts: seq<Token>)
    ensures (exists n :: 0 <= n && 2 * n <= |ts| && Settled(ts, n)) <==> Formatted(ts).Some?
    decreases |ts|
  {
    if Formatted(ts) == Some(ts) {
      assert Repeated(ts, 0) == Some(ts);
      assert Settled(ts, 0);
    } else if Formatted(ts).Some? {
      var u := Formatted(ts).value;
      FormattingShrinks(ts);
      OnlyTheFirstPassPanics(ts, 2);
      assert Repeated(ts, 2) == Repeated(u, 1);
      PanicsOnNewlinesOnly(ts);
      assert Formatted(u).Some?;
      FixedPointIsReached(u);
      var k :| 0 <= k && 2 * k <= |u| && Settled(u, k);
      assert Repeated(ts, k + 1) == Repeated(u, k);
      assert Settled(ts, k + 1);
    } else {
      assert forall n: nat | n > 0 :: Repeated(ts, n) == None;
      assert Repeated(ts, 0) == Some(ts);
    }
  }

  // ---------- Two interpolations are never unwrapped ----------

  function QuoteBalance(ts: seq<Token>): int {
    if ts == [] then 0
    else (match ts[0] case OQuote => 1 case CQuote => -1 case _ => 0) + QuoteBalance(ts[1..])
  }

  lemma {:induction false} BalanceOfScan(stack: seq<Opener>, ts: seq<Token>)
    requires Scan(stack, ts).Some?
    ensures Quotes(Scan(stack, ts).value) == Quotes(stack) + QuoteBalance(ts)
    decreases |ts|
  {
    if ts == [] {
    } else {
      QuotesPush(stack, Quote);
      QuotesPush(stack, Template);
      match ts[0] {
        case OQuote => BalanceOfScan(stack + [Quote], ts[1..]);
        case TemplateInterp => BalanceOfScan(stack + [Template], ts[1..]);
        case TemplateControl => BalanceOfScan(stack + [Template], ts[1..]);
        case CQuote => BalanceOfScan(stack[..|stack| - 1], ts[1..]);
        case TemplateSeqEnd => BalanceOfScan(stack[..|stack| - 1], ts[1..]);
        case _ => BalanceOfScan(stack, ts[1..]);
      }
    }
  }

  lemma {:induction false} InteriorAppend(a: seq<Token>, b: seq<Token>, quotes: int)
    ensures SingleInterpolation(a + b, quotes) <==>
            SingleInterpolation(a, quotes) && SingleInterpolation(b, quotes + QuoteBalance(a))
    decreases |a|
  {
    if a == [] {
      assert a + b == b;
    } else {
      assert (a + b)[1..] == a[1..] + b;
      InteriorAppend(a[1..], b, match a[0] case OQuote => quotes + 1 case CQuote => quotes - 1 case _ => quotes);
    }
  }

  function Wrap(inside: seq<Token>): seq<Token> {
    [OQuote, TemplateInterp] + inside + CLOSING
  }

  /** A string made of several interpolations is left alone, whatever the interpolations hold. */
  lemma {:induction false} SeveralInterpolationsStay(x: seq<Token>, rest: seq<Token>)
    requires WellNested(x)
    ensures var ts := Wrap(x + ([TemplateSeqEnd] + rest)); Formatted(ts) == Some(ts)
  {
    var tail := [TemplateSeqEnd] + rest;
    var ts := Wrap(x + tail);
    assert ts[2..|ts| - 2] == x + tail;
    BalanceOfScan([], x);
    InteriorAppend(x, tail, 0);
    assert !SingleInterpolation(tail, 0);
  }

  // ---------- What is unwrapped ----------

  /** What shows that there is more to the string than one interpolation. */
  predicate EndsInterpolation(t: Token) { t == TemplateInterp || t == TemplateSeqEnd || t.QuotedLit? }

  /** Template marks and literal text occur only inside nested quotes. */
  predicate QuietOutsideQuotes(inside: seq<Token>, quotes: int) {
    forall i | 0 <= i < |inside| && EndsInterpolation(inside[i]) ::
      quotes + QuoteBalance(inside[..i]) > 0
  }

  lemma {:induction false} QuietRest(inside: seq<Token>, quotes: int)
    requires inside != []
    ensures var t, rest := inside[0], inside[1..];
            var next := quotes + QuoteBalance([t]);
            QuietOutsideQuotes(inside, quotes) <==>
            (EndsInterpolation(t) ==> quotes > 0) && QuietOutsideQuotes(rest, next)
  {
    var rest := inside[1..];
    assert inside[..0] == [] && [inside[0]][1..] == [];
    forall i | 0 <= i < |rest|
      ensures QuoteBalance(inside[..i + 1]) == QuoteBalance([inside[0]]) + QuoteBalance(rest[..i])
    {
      assert inside[..i + 1][1..] == rest[..i];
    }
    assert forall i | 0 < i < |inside| :: inside[i] == rest[i - 1];
    if QuietOutsideQuotes(rest, quotes + QuoteBalance([inside[0]])) {
      forall i | 0 < i < |inside| && EndsInterpolation(inside[i])
        ensures quotes + QuoteBalance(inside[..i]) > 0
      {
        assert rest[i - 1] == inside[i];
      }
    }
  }

  lemma {:induction false} ScanIsQuiet(inside: seq<Token>, quotes: int)
    ensures SingleInterpolation(inside, quotes) <==> QuietOutsideQuotes(inside, quotes)
    decreases |inside|
  {
    if inside == [] {
    } else {
      QuietRest(inside, quotes);
      assert [inside[0]][1..] == [];
      ScanIsQuiet(inside[1..], quotes + QuoteBalance([inside[0]]));
    }
  }

  /** What the code touches at all: one interpolation that is a whole quoted string, and nothing else. */
  lemma {:induction false} UnwrappedExactly(ts: seq<Token>)
    ensures Formatted(ts) != Some(ts) <==>
            exists inside :: inside != [] && ts == Wrap(inside) && QuietOutsideQuotes(inside, 0)
  {
    if Formatted(ts) != Some(ts) {
      var inside := ts[2..|ts| - 2];
      ScanIsQuiet(inside, 0);
      assert ts == Wrap(inside);
    }
    if inside :| inside != [] && ts == Wrap(inside) && QuietOutsideQuotes(inside, 0) {
      assert ts[2..|ts| - 2] == inside && Wrapper(ts);
      ScanIsQuiet(inside, 0);
      if Formatted(ts).Some? {
        TrimmedIsShorter(inside);
        assert |Formatted(ts).value| < |ts|;
      }
    }
  }

  lemma {:induction false} TrimmedIsShorter(ts: seq<Token>)
    requires Trimmed(ts).Some?
    ensures |Trimmed(ts).value| <= |ts|
  {
  }

  /** trimNewlines panics exactly on a non-empty sequence of newlines, and leaves nothing of none. */
  lemma {:induction false} TrimPanicsExactly(ts: seq<Token>)
    ensures Trimmed(ts) == None <==> ts != [] && OnlyNewlines(ts)
    ensures Trimmed([]) == Some([])
  {
    if ts == [] {
    } else {
      LeadingAndTrailing(ts);
    }
  }
}
