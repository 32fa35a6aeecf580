/** The String methods of addresses, and their injectivity. Every address prints as a dotted
    list of segments (a name with an optional key); the segments determine the address. */
module Printing {
  import opened Addrs
  import opened Quoting

  // ---------- Keys ----------

  function Digits(n: nat): string {
    (if n < 10 then "" else Digits(n / 10)) + [('0' as int + n % 10) as char]
  }

  function Decimal(i: int): string {
    if i < 0 then "-" + Digits(-i) else Digits(i)
  }

  function KeyString(k: InstanceKey, pr: Printable): string {
    match k
    case NoKey => ""
    case WildcardKey => "[*]"
    case AnyKey => "[*]"
    case IntKey(i) => "[" + Decimal(i) + "]"
    case StringKey(s) => "[" + Quoted(s, pr) + "]"
  }

  predicate IsDigit(c: char) { '0' <= c <= '9' }

  lemma {:induction false} DigitsAreDigits(n: nat)
    ensures Digits(n) != "" && forall c | c in Digits(n) :: IsDigit(c)
  {
    if n < 10 {
    } else {
      DigitsAreDigits(n / 10);
    }
  }

  lemma {:induction false} DecimalForm(i: int)
    ensures Decimal(i) != "" && (Decimal(i)[0] == '-' <==> i < 0)
    ensures forall c | c in Decimal(i) :: c == '-' || IsDigit(c)
  {
    DigitsAreDigits(if i < 0 then -i else i);
    if i >= 0 {
      assert IsDigit(Digits(i)[0]);
    }
  }

  function DigitValue(c: char): Option<int> {
    if IsDigit(c) then Some(c as int - '0' as int) else None
  }

  /** The number a decimal text stands for. */
  function NatValue(s: string): Option<int> {
    if s == "" then None
    else if |s| == 1 then DigitValue(s[0])
    else
      match (NatValue(s[..|s| - 1]), DigitValue(s[|s| - 1]))
      case (Some(v), Some(d)) => Some(10 * v + d)
      case _ => None
  }

  function DecimalValue(s: string): Option<int> {
    if s != "" && s[0] == '-' then
      (match NatValue(s[1..]) case Some(n) => Some(-n) case None => None)
    else
      match NatValue(s) case Some(n) => Some(n) case None => None
  }

  lemma {:induction false} NatValueStep(a: string, c: char)
    requires a != "" && NatValue(a).Some? && IsDigit(c)
    ensures NatValue(a + [c]) == Some(10 * NatValue(a).value + (c as int - '0' as int))
  {
    assert (a + [c])[..|a|] == a;
  }

  lemma {:induction false} DigitReadsBack(d: nat)
    requires d < 10
    ensures DigitValue(('0' as int + d) as char) == Some(d)
  {
  }

  lemma {:induction false} DigitsReadBack(n: nat)
    ensures NatValue(Digits(n)) == Some(n)
  {
    var q, d := n / 10, n % 10;
    var last := ('0' as int + d) as char;
    DigitReadsBack(d);
    if n < 10 {
      assert Digits(n) == [last];
    } else {
      DigitsReadBack(q);
      DigitsAreDigits(q);
      assert Digits(n) == Digits(q) + [last];
      NatValueStep(Digits(q), last);
      assert n == 10 * q + d;
    }
  }

  lemma {:induction false} DecimalReadsBack(i: int)
    ensures DecimalValue(Decimal(i)) == Some(i)
  {
    DecimalForm(i);
    if i < 0 {
      assert Decimal(i)[1..] == Digits(-i);
      DigitsReadBack(-i);
    } else {
      DigitsReadBack(i);
    }
  }

  /** The text before the first stop character. */
  function Cut(t: string, stop: set<char>): (a: string)
    ensures |a| <= |t|
  {
    if t == "" || t[0] in stop then "" else [t[0]] + Cut(t[1..], stop)
  }

  lemma {:induction false} CutFinds(a: string, r: string, stop: set<char>)
    requires forall c | c in a :: c !in stop
    requires r == "" || r[0] in stop
    ensures Cut(a + r, stop) == a
  {
    if a == "" {
      assert a + r == r;
    } else {
      assert (a + r)[1..] == a[1..] + r;
      CutFinds(a[1..], r, stop);
    }
  }

  /** What may follow a segment: nothing, or the dot before the next one. */
  predicate Terminated(r: string) { r == "" || r[0] == '.' }

  /** The second character of a printed key tells the four printable forms apart. */
  lemma {:induction false} KeyMarks(k: InstanceKey, r: string, pr: Printable)
    requires k != AnyKey && Terminated(r)
    ensures var t := KeyString(k, pr) + r;
            && (k.NoKey? <==> Terminated(t))
            && (!k.NoKey? ==> |t| > 1 && t[0] == '[')
            && (k.WildcardKey? <==> |t| > 1 && t[0] == '[' && t[1] == '*')
            && (k.StringKey? <==> |t| > 1 && t[0] == '[' && t[1] == '\"')
  {
    if k.IntKey? {
      var d := Decimal(k.index);
      DecimalForm(k.index);
      assert (KeyString(k, pr) + r)[1] == d[0] && d[0] in d;
    }
  }

  lemma {:induction false} Bracketed(x: string, r: string)
    ensures ("[" + x + "]") + r == "[" + (x + ("]" + r))
  {
  }

  lemma {:induction false} QuotedTail(x: string, rest: string, pr: Printable)
    ensures Quoted(x, pr) + rest == "\"" + Tail(x, rest, pr)
  {
  }

  /** Reads one key and returns it with the text after it, as HCL reads an index. */
  function ReadKeyText(t: string): Option<(InstanceKey, string)> {
    if t == "" || t[0] != '[' then Some((NoKey, t))
    else if |t| > 1 && t[1] == '\"' then
      (match Read(t[2..])
       case Some((s, rest)) => if rest != "" && rest[0] == ']' then Some((StringKey(s), rest[1..])) else None
       case None => None)
    else
      var d := Cut(t[1..], {']'});
      var rest := t[1..][|d|..];
      if rest == "" then None
      else if d == "*" then Some((WildcardKey, rest[1..]))
      else
        match DecimalValue(d)
        case Some(i) =>
          if -0x8000_0000_0000_0000 <= i < 0x8000_0000_0000_0000 then Some((IntKey(i), rest[1..])) else None
        case None => None
  }

  lemma {:induction false} BracketReads(d: string, r: string)
    requires d != "" && d[0] != '\"' && ']' !in d
    ensures var t := ("[" + d + "]") + r;
            && t != "" && t[0] == '[' && |t| > 1 && t[1] == d[0]
            && Cut(t[1..], {']'}) == d && t[1..][|d|..] == "]" + r && ("]" + r)[1..] == r
  {
    var t := ("[" + d + "]") + r;
    Bracketed(d, r);
    assert t[1..] == d + ("]" + r);
    CutFinds(d, "]" + r, {']'});
  }

  lemma {:induction false} StringKeyReads(x: string, r: string, pr: Printable)
    ensures ReadKeyText(KeyString(StringKey(x), pr) + r) == Some((StringKey(x), r))
  {
    var t, rest := KeyString(StringKey(x), pr) + r, "]" + r;
    Bracketed(Quoted(x, pr), r);
    QuotedTail(x, rest, pr);
    assert t == "[" + ("\"" + Tail(x, rest, pr));
    assert t[2..] == Tail(x, rest, pr);
    QuotingReadsBack(x, rest, pr);
    assert rest[1..] == r;
  }

  lemma {:induction false} IntKeyReads(i: GoInt, r: string, pr: Printable)
    ensures ReadKeyText(KeyString(IntKey(i), pr) + r) == Some((IntKey(i), r))
  {
    var d := Decimal(i);
    DecimalForm(i);
    DecimalReadsBack(i);
    assert d[0] in d;
    BracketReads(d, r);
  }

  /** A printed key is read back, whatever segment follows. */
  lemma {:induction false} KeyTextReads(k: InstanceKey, r: string, pr: Printable)
    requires k != AnyKey && Terminated(r)
    ensures ReadKeyText(KeyString(k, pr) + r) == Some((k, r))
  {
    match k {
      case NoKey => assert "" + r == r;
      case StringKey(x) => StringKeyReads(x, r, pr);
      case IntKey(i) => IntKeyReads(i, r, pr);
      case WildcardKey =>
        assert "[" + "*" + "]" == "[*]";
        BracketReads("*", r);
    }
  }

  lemma {:induction false} KeyReads(k: InstanceKey, r: string, l: InstanceKey, s: string, pr: Printable)
    requires k != AnyKey && l != AnyKey && Terminated(r) && Terminated(s)
    requires KeyString(k, pr) + r == KeyString(l, pr) + s
    ensures k == l && r == s
  {
    KeyTextReads(k, r, pr);
    KeyTextReads(l, s, pr);
  }

  // ---------- Segments ----------

  /** Names are identifiers; all the printers need is that they hold no separator. */
  predicate CleanName(n: string) { '.' !in n && '[' !in n }
  predicate CleanStep(s: Step) { CleanName(s.name) && s.key != AnyKey }
  predicate CleanSteps(m: seq<Step>) { forall s | s in m :: CleanStep(s) }

  function SegmentString(s: Step, pr: Printable): string {
    s.name + KeyString(s.key, pr)
  }

  function Join(segs: seq<Step>, pr: Printable): string {
    if |segs| == 0 then ""
    else if |segs| == 1 then SegmentString(segs[0], pr)
    else SegmentString(segs[0], pr) + "." + Join(segs[1..], pr)
  }

  function After(segs: seq<Step>, pr: Printable): string {
    if segs == [] then "" else "." + Join(segs, pr)
  }

  lemma {:induction false} JoinStep(segs: seq<Step>, pr: Printable)
    requires segs != []
    ensures Join(segs, pr) == SegmentString(segs[0], pr) + After(segs[1..], pr)
  {
    assert SegmentString(segs[0], pr) + "" == SegmentString(segs[0], pr);
    Regroup(SegmentString(segs[0], pr), ".", Join(segs[1..], pr));
  }

  /** Reads a dotted list of segments: a name up to a dot or a bracket, and an optional key. */
  function ReadSegments(t: string): Option<seq<Step>>
    decreases |t|
  {
    var name := Cut(t, {'.', '['});
    match ReadKeyText(t[|name|..])
    case None => None
    case Some((key, rest)) =>
      if rest == "" then Some([Step(name, key)])
      else if rest[0] == '.' && |rest| <= |t| then
        match ReadSegments(rest[1..])
        case Some(segs) => Some([Step(name, key)] + segs)
        case None => None
      else None
  }

  lemma {:induction false} SegmentReads(x: Step, r: string, pr: Printable)
    requires CleanStep(x) && Terminated(r)
    ensures var t := SegmentString(x, pr) + r;
            && Cut(t, {'.', '['}) == x.name
            && ReadKeyText(t[|x.name|..]) == Some((x.key, r))
            && |r| <= |t|
  {
    var k := KeyString(x.key, pr) + r;
    KeyMarks(x.key, r, pr);
    Regroup(x.name, KeyString(x.key, pr), r);
    CutFinds(x.name, k, {'.', '['});
    assert (x.name + k)[|x.name|..] == k;
    KeyTextReads(x.key, r, pr);
  }

  /** Every printed address is read back to its segments. */
  lemma {:induction false} SegmentsReadBack(a: seq<Step>, pr: Printable)
    requires CleanSteps(a) && a != []
    ensures ReadSegments(Join(a, pr)) == Some(a)
    decreases |a|
  {
    var t, x, r := Join(a, pr), a[0], After(a[1..], pr);
    JoinStep(a, pr);
    SegmentReads(x, r, pr);
    assert a == [x] + a[1..];
    if a[1..] == [] {
      assert r == "" && ReadSegments(t) == Some([Step(x.name, x.key)]);
      assert a == [x];
    } else {
      assert r[0] == '.' && r[1..] == Join(a[1..], pr);
      SegmentsReadBack(a[1..], pr);
      assert ReadSegments(t) == Some([Step(x.name, x.key)] + a[1..]);
    }
  }

  lemma {:induction false} JoinInjective(a: seq<Step>, b: seq<Step>, pr: Printable)
    requires CleanSteps(a) && CleanSteps(b) && a != [] && b != []
    requires Join(a, pr) == Join(b, pr)
    ensures a == b
  {
    SegmentsReadBack(a, pr);
    SegmentsReadBack(b, pr);
  }

  lemma {:induction false} JoinOfMany(segs: seq<Step>, pr: Printable)
    requires |segs| > 1
    ensures Join(segs, pr) != ""
  {
    JoinStep(segs, pr);
    assert After(segs[1..], pr)[0] == '.';
  }

  lemma {:induction false} JoinAppend(a: seq<Step>, b: seq<Step>, pr: Printable)
    requires a != []
    ensures Join(a + b, pr) == Join(a, pr) + After(b, pr)
  {
    if |a| == 1 {
      assert (a + b)[1..] == b;
      JoinStep(a + b, pr);
    } else {
      assert (a + b)[1..] == a[1..] + b;
      JoinAppend(a[1..], b, pr);
      assert Join(a + b, pr) == SegmentString(a[0], pr) + "." + (Join(a[1..], pr) + After(b, pr));
    }
  }

  // ---------- Module paths ----------

  function Word(name: string): Step { Step(name, NoKey) }

  function ModuleSegments(m: ModuleInstance): seq<Step> {
    seq(2 * |m|, i requires 0 <= i < 2 * |m| => if i % 2 == 0 then Word("module") else m[i / 2])
  }

  function ModuleString(m: ModuleInstance, pr: Printable): string {
    Join(ModuleSegments(m), pr)
  }

  lemma {:induction false} ModuleSegmentsAppend(m: ModuleInstance, s: Step)
    ensures ModuleSegments(m + [s]) == ModuleSegments(m) + [Word("module"), s]
  {
  }

  /** Printing one more step appends exactly the pieces the loop writes. */
  lemma {:induction false} ModuleStringGrows(m: ModuleInstance, s: Step, pr: Printable)
    ensures ModuleString(m + [s], pr) ==
            ModuleString(m, pr) + (if m == [] then "" else ".") + "module." + s.name + KeyString(s.key, pr)
  {
    var tail := [Word("module"), s];
    ModuleSegmentsAppend(m, s);
    JoinTwo("module", s, pr);
    if m == [] {
      assert ModuleSegments([s]) == tail && [] + [s] == [s];
      StepText("", "", s.name, KeyString(s.key, pr));
    } else {
      JoinAppend(ModuleSegments(m), tail, pr);
      StepText(ModuleString(m, pr), ".", s.name, KeyString(s.key, pr));
    }
  }

  lemma {:induction false} StepText(before: string, sep: string, name: string, key: string)
    ensures before + (sep + ("module" + "." + (name + key))) == before + sep + "module." + name + key
  {
    var t := name + key;
    assert "module" + "." == "module.";
    assert ("module." + name) + key == "module." + t;
    assert before + sep + "module." + name + key == (before + sep) + ("module." + t);
  }

  /** ModuleInstance.String: writes "module.", the name and the key of each step. */
  method PrintModuleInstance(m: ModuleInstance, pr: Printable) returns (out: string)
    ensures out == ModuleString(m, pr)
  {
    out := "";
    var sep := "";
    for i := 0 to |m|
      invariant out == ModuleString(m[..i], pr)
      invariant sep == if i == 0 then "" else "."
    {
      var step := m[i];
      assert m[..i + 1] == m[..i] + [step];
      ModuleStringGrows(m[..i], step, pr);
      out := out + sep;
      out := out + "module.";
      out := out + step.name;
      if step.key != NoKey {
        out := out + KeyString(step.key, pr);
      } else {
        assert out + KeyString(NoKey, pr) == out;
      }
      sep := ".";
    }
    assert m[..|m|] == m;
  }

  lemma {:induction false} ModuleSegmentsDetermine(m: ModuleInstance, n: ModuleInstance)
    requires |m| == |n| && forall i | 0 <= i < 2 * |m| :: ModuleSegments(m)[i] == ModuleSegments(n)[i]
    ensures m == n
  {
    forall i | 0 <= i < |m| ensures m[i] == n[i] {
      assert ModuleSegments(m)[2 * i + 1] == m[i] && ModuleSegments(n)[2 * i + 1] == n[i];
    }
  }

  lemma {:induction false} ModuleSegmentsClean(m: ModuleInstance)
    requires CleanSteps(m)
    ensures CleanSteps(ModuleSegments(m))
  {
  }

  lemma {:induction false} ModuleStringStarts(m: ModuleInstance, pr: Printable)
    ensures ModuleString(m, pr) == "" <==> m == []
  {
    if m != [] {
      JoinStep(ModuleSegments(m), pr);
    }
  }

  lemma {:induction false} ModuleStringInjective(m: ModuleInstance, n: ModuleInstance, pr: Printable)
    requires CleanSteps(m) && CleanSteps(n) && ModuleString(m, pr) == ModuleString(n, pr)
    ensures m == n
  {
    ModuleStringStarts(m, pr);
    ModuleStringStarts(n, pr);
    if m != [] {
      ModuleSegmentsClean(m);
      ModuleSegmentsClean(n);
      JoinInjective(ModuleSegments(m), ModuleSegments(n), pr);
      ModuleSegmentsDetermine(m, n);
    }
  }

  // ---------- Resources ----------

  function ModeText(mode: ResourceMode): string {
    match mode
    case Managed => ""
    case Data => "data"
    case Ephemeral => "ephemeral"
    case ListMode => "list"
    case InvalidMode => "<invalid>"
  }

  function ModeWords(mode: ResourceMode): seq<Step> {
    if mode == Managed then [] else [Word(ModeText(mode))]
  }

  function ResourceSegments(r: ResourceInstance): seq<Step> {
    ModeWords(r.resource.mode) + [Word(r.resource.typeName), Step(r.resource.name, r.key)]
  }

  function Segments(r: AbsResourceInstance): seq<Step> {
    ModuleSegments(r.path) + ResourceSegments(r.resource)
  }

  function ResourceString(r: Resource): string {
    if r.mode == Managed then r.typeName + "." + r.name
    else ModeText(r.mode) + "." + r.typeName + "." + r.name
  }

  function ResourceInstanceString(r: ResourceInstance, pr: Printable): string {
    if r.key == NoKey then ResourceString(r.resource) else ResourceString(r.resource) + KeyString(r.key, pr)
  }

  function InstanceString(r: AbsResourceInstance, pr: Printable): string {
    if |r.path| == 0 then ResourceInstanceString(r.resource, pr)
    else ModuleString(r.path, pr) + "." + ResourceInstanceString(r.resource, pr)
  }

  function AbsResourceString(r: AbsResource, pr: Printable): string {
    if |r.path| == 0 then ResourceString(r.resource)
    else ModuleString(r.path, pr) + "." + ResourceString(r.resource)
  }

  function Unkeyed(names: Module): ModuleInstance {
    seq(|names|, i requires 0 <= i < |names| => Step(names[i], NoKey))
  }

  /** Module.String and ConfigResource.String: the same texts without keys. */
  function StaticString(names: Module, pr: Printable): string {
    ModuleString(Unkeyed(names), pr)
  }

  function ConfigResourceString(r: ConfigResource, pr: Printable): string {
    if |r.path| == 0 then ResourceString(r.resource)
    else StaticString(r.path, pr) + "." + ResourceString(r.resource)
  }

  predicate CleanInstance(r: AbsResourceInstance) {
    && CleanSteps(r.path) && CleanName(r.resource.resource.typeName)
    && CleanStep(Step(r.resource.resource.name, r.resource.key))
  }

  lemma {:induction false} JoinTwo(a: string, b: Step, pr: Printable)
    ensures Join([Word(a), b], pr) == a + "." + SegmentString(b, pr)
  {
    assert [Word(a), b][1..] == [b];
    assert a + "" == a;
  }

  lemma {:induction false} ResourceStringIsJoin(r: ResourceInstance, pr: Printable)
    ensures ResourceInstanceString(r, pr) == Join(ResourceSegments(r), pr)
  {
    var res, last := r.resource, Step(r.resource.name, r.key);
    var tail := [Word(res.typeName), last];
    JoinTwo(res.typeName, last, pr);
    var text := res.typeName + "." + res.name;
    Regroup(res.typeName + ".", res.name, KeyString(r.key, pr));
    assert text + "" == text;
    if res.mode.Managed? {
      assert ResourceSegments(r) == tail;
    } else {
      JoinAppend(ModeWords(res.mode), tail, pr);
      assert Join(ModeWords(res.mode), pr) == ModeText(res.mode);
      var head := ModeText(res.mode) + ".";
      assert ResourceString(res) == head + text;
      Regroup(head, text, KeyString(r.key, pr));
      Regroup(ModeText(res.mode), ".", Join(tail, pr));
    }
  }

  lemma {:induction false} InstanceStringIsJoin(r: AbsResourceInstance, pr: Printable)
    ensures InstanceString(r, pr) == Join(Segments(r), pr)
  {
    ResourceStringIsJoin(r.resource, pr);
    if r.path == [] {
      assert Segments(r) == ResourceSegments(r.resource);
    } else {
      JoinAppend(ModuleSegments(r.path), ResourceSegments(r.resource), pr);
    }
  }

  lemma {:induction false} SegmentsDetermine(r: AbsResourceInstance, s: AbsResourceInstance)
    requires Segments(r) == Segments(s)
    ensures r == s
  {
    var a, b := Segments(r), Segments(s);
    assert |a| == 2 * |r.path| + |ModeWords(r.resource.resource.mode)| + 2;
    assert |b| == 2 * |s.path| + |ModeWords(s.resource.resource.mode)| + 2;
    assert |r.path| == |s.path|;
    var n := 2 * |r.path|;
    assert ModuleSegments(r.path) == a[..n] && ModuleSegments(s.path) == b[..n];
    ModuleSegmentsDetermine(r.path, s.path);
    assert a[|a| - 2] == Word(r.resource.resource.typeName) && b[|b| - 2] == Word(s.resource.resource.typeName);
    assert a[|a| - 1] == Step(r.resource.resource.name, r.resource.key);
    assert b[|b| - 1] == Step(s.resource.resource.name, s.resource.key);
    if !r.resource.resource.mode.Managed? {
      assert a[n] == ModeWords(r.resource.resource.mode)[0] && b[n] == ModeWords(s.resource.resource.mode)[0];
    }
  }

  lemma {:induction false} SegmentsClean(r: AbsResourceInstance)
    requires CleanInstance(r)
    ensures CleanSteps(Segments(r)) && Segments(r) != []
  {
    ModuleSegmentsClean(r.path);
    assert CleanSteps(ModeWords(r.resource.resource.mode));
  }

  lemma {:induction false} InstanceStringInjective(r: AbsResourceInstance, s: AbsResourceInstance, pr: Printable)
    requires CleanInstance(r) && CleanInstance(s) && InstanceString(r, pr) == InstanceString(s, pr)
    ensures r == s
  {
    InstanceStringIsJoin(r, pr);
    InstanceStringIsJoin(s, pr);
    SegmentsClean(r);
    SegmentsClean(s);
    JoinInjective(Segments(r), Segments(s), pr);
    SegmentsDetermine(r, s);
  }

  // ---------- Unique keys ----------

  datatype Address =
    | ModuleInstanceAddress(m: ModuleInstance)
    | ResourceAddress(r: AbsResource)
    | InstanceAddress(ri: AbsResourceInstance)
    | ConfigResourceAddress(c: ConfigResource)

  /** One Go string type per address type, so that keys of different types never collide. */
  datatype UniqueKey =
    | ModuleInstanceKey(s: string)
    | AbsResourceKey(s: string)
    | AbsResourceInstanceKey(s: string)
    | ConfigResourceKey(s: string)

  function UniqueKeyOf(a: Address, pr: Printable): UniqueKey {
    match a
    case ModuleInstanceAddress(m) => ModuleInstanceKey(ModuleString(m, pr))
    case ResourceAddress(r) => AbsResourceKey(AbsResourceString(r, pr))
    case InstanceAddress(ri) => AbsResourceInstanceKey(InstanceString(ri, pr))
    case ConfigResourceAddress(c) => ConfigResourceKey(ConfigResourceString(c, pr))
  }

  predicate CleanAddress(a: Address) {
    match a
    case ModuleInstanceAddress(m) => CleanSteps(m)
    case ResourceAddress(r) => CleanInstance(r.Instance(NoKey))
    case InstanceAddress(ri) => CleanInstance(ri)
    case ConfigResourceAddress(c) => CleanInstance(AbsResource(Unkeyed(c.path), c.resource).Instance(NoKey))
  }

  /** Unique keys identify addresses. */
  lemma {:induction false} UniqueKeysIdentify(a: Address, b: Address, pr: Printable)
    requires CleanAddress(a) && CleanAddress(b)
    ensures UniqueKeyOf(a, pr) == UniqueKeyOf(b, pr) <==> a == b
  {
    if UniqueKeyOf(a, pr) == UniqueKeyOf(b, pr) {
      match a {
        case ModuleInstanceAddress(m) => ModuleStringInjective(m, b.m, pr);
        case ResourceAddress(r) => InstanceStringInjective(r.Instance(NoKey), b.r.Instance(NoKey), pr);
        case InstanceAddress(ri) => InstanceStringInjective(ri, b.ri, pr);
        case ConfigResourceAddress(c) =>
          var x, y := AbsResource(Unkeyed(c.path), c.resource), AbsResource(Unkeyed(b.c.path), b.c.resource);
          InstanceStringInjective(x.Instance(NoKey), y.Instance(NoKey), pr);
          assert StaticModule(x.path) == c.path && StaticModule(y.path) == b.c.path;
      }
    }
  }

  lemma {:induction false} ModuleAndResourceSegments(m: ModuleInstance, r: AbsResourceInstance)
    requires ModuleSegments(m) == Segments(r)
    ensures m == r.path + [Step(r.resource.resource.name, r.resource.key)]
    ensures r.resource.resource.mode == Managed && r.resource.resource.typeName == "module"
  {
    var a, b := ModuleSegments(m), Segments(r);
    assert |b| == 2 * |r.path| + |ModeWords(r.resource.resource.mode)| + 2;
    assert |m| == |r.path| + 1;
    assert b[|b| - 2] == Word(r.resource.resource.typeName);
    assert b[|b| - 1] == Step(r.resource.resource.name, r.resource.key);
    assert a[|a| - 2] == Word("module") && a[|a| - 1] == m[|m| - 1];
    forall i | 0 <= i < |r.path| ensures m[i] == r.path[i] {
      assert a[2 * i + 1] == m[i] && b[2 * i + 1] == ModuleSegments(r.path)[2 * i + 1];
    }
  }

  /** Across types the texts are not always distinct: a module instance prints like a resource
      instance exactly when the latter is a managed resource whose type is the word "module"
      (reachable through the optional "resource." prefix) in the parent module. */
  lemma {:induction false} ModuleAndResourceTexts(m: ModuleInstance, r: AbsResourceInstance, pr: Printable)
    requires CleanSteps(m) && CleanInstance(r)
    ensures ModuleString(m, pr) == InstanceString(r, pr) <==>
            && m == r.path + [Step(r.resource.resource.name, r.resource.key)]
            && r.resource.resource.mode == Managed && r.resource.resource.typeName == "module"
  {
    var last := Step(r.resource.resource.name, r.resource.key);
    InstanceStringIsJoin(r, pr);
    SegmentsClean(r);
    ModuleSegmentsClean(m);
    JoinOfMany(Segments(r), pr);
    if ModuleString(m, pr) == InstanceString(r, pr) {
      JoinInjective(ModuleSegments(m), Segments(r), pr);
      ModuleAndResourceSegments(m, r);
    }
    if m == r.path + [last] && r.resource.resource.mode == Managed && r.resource.resource.typeName == "module" {
      ModuleSegmentsAppend(r.path, last);
      assert ModuleSegments(m) == Segments(r);
    }
  }
}
