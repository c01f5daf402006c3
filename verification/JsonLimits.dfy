/** The structural limits of audit documents: a token-by-token scanner against the definition on JSON trees. */
module JsonLimits {
  import opened Options

  const MAX_DEPTH: nat := 32
  const MAX_STRING: nat := 32768
  const MAX_ARRAY: nat := 4096
  const MAX_KEYS: nat := 4096
  const SAFE_INTEGER_BOUND: int := 9007199254740991

  /** A JSON document; strings are their UTF-8 bytes and numbers their literals. */
  datatype Document =
    | Obj(members: seq<Member>)
    | Arr(items: seq<Document>)
    | Str(text: string)
    | Num(literal: string)
    | Other // true, false or null

  datatype Member = Member(name: string, value: Document)

  datatype Token = Open(isObject: bool) | Close(isObject: bool) | Text(text: string) | Number(literal: string) | Atom | Malformed

  // checkSafeInteger

  predicate Digit(c: char) {
    '0' <= c <= '9'
  }

  function ParseDigits(s: string): (r: Option<nat>)
    ensures r.Some? <==> s != [] && forall i :: 0 <= i < |s| ==> Digit(s[i])
  {
    if s == [] then None else
    var last := s[|s| - 1];
    if !Digit(last) then None else
    var d := last as int - '0' as int;
    if |s| == 1 then Some(d) else
    var front := ParseDigits(s[..|s| - 1]);
    if front.None? then
      assert exists i :: 0 <= i < |s| - 1 && !Digit(s[..|s| - 1][i]) && !Digit(s[i]);
      None
    else
      assert forall i :: 0 <= i < |s| - 1 ==> Digit(s[..|s| - 1][i]) && Digit(s[i]);
      Some(10 * front.value + d)
  }

  /** Base-10 big.Int parsing with an optional sign. */
  function ParseInteger(s: string): Option<int> {
    if s != [] && (s[0] == '-' || s[0] == '+') then
      match ParseDigits(s[1..])
      case None => None
      case Some(n) => var i: int := n; Some(if s[0] == '-' then -i else i)
    else
      match ParseDigits(s)
      case None => None
      case Some(n) => Some(n)
  }

  predicate HasFractionOrExponent(s: string) {
    '.' in s || 'e' in s || 'E' in s
  }

  predicate SafeLiteral(s: string) {
    HasFractionOrExponent(s) ||
    match ParseInteger(s)
    case None => false
    case Some(i) => -SAFE_INTEGER_BOUND <= i <= SAFE_INTEGER_BOUND
  }

  function RenderNat(n: nat): (s: string)
    ensures s != [] && forall i :: 0 <= i < |s| ==> Digit(s[i])
  {
    var d := [('0' as int + n % 10) as char];
    if n < 10 then d else RenderNat(n / 10) + d
  }

  function Render(i: int): string {
    if i < 0 then "-" + RenderNat(-i) else RenderNat(i)
  }

  lemma {:induction false} ParseRendered(n: nat)
    ensures ParseDigits(RenderNat(n)) == Some(n)
  {
    if n >= 10 {
      ParseRendered(n / 10);
      assert RenderNat(n)[..|RenderNat(n)| - 1] == RenderNat(n / 10);
    }
  }

  lemma IntegerRoundTrip(i: int)
    ensures ParseInteger(Render(i)) == Some(i)
  {
    ParseRendered(if i < 0 then -i else i);
    if i < 0 {
      assert Render(i)[1..] == RenderNat(-i);
    } else {
      assert Digit(Render(i)[0]);
    }
  }

  lemma IntegersArePlain(i: int)
    ensures !HasFractionOrExponent(Render(i))
  {
    var digits := RenderNat(if i < 0 then -i else i);
    forall c | c in Render(i) ensures c == '-' || Digit(c) {
      assert c == '-' || c in digits;
    }
  }

  /** An integer written in decimal passes exactly within [-(2^53)+1, (2^53)-1], section 6 of RFC 8259. */
  lemma SafeIntegerRange(i: int)
    ensures SafeLiteral(Render(i)) <==> -0x1F_FFFF_FFFF_FFFF <= i <= 0x1F_FFFF_FFFF_FFFF
  {
    IntegerRoundTrip(i);
    IntegersArePlain(i);
  }

  // The definition on trees

  /** Every limit holds in `j`, a value `depth` containers deep. */
  predicate WithinLimits(j: Document, depth: nat) {
    match j
    case Obj(members) =>
      && depth + 1 <= MAX_DEPTH && |members| <= MAX_KEYS
      && forall i :: 0 <= i < |members| ==> |members[i].name| <= MAX_STRING && WithinLimits(members[i].value, depth + 1)
    case Arr(items) =>
      && depth + 1 <= MAX_DEPTH && |items| <= MAX_ARRAY
      && forall i :: 0 <= i < |items| ==> WithinLimits(items[i], depth + 1)
    case Str(text) => |text| <= MAX_STRING
    case Num(literal) => SafeLiteral(literal)
    case Other => true
  }

  function Tokens(j: Document): (r: seq<Token>)
    decreases j, 0
  {
    match j
    case Obj(members) => [Open(true)] + MemberTokens(members) + [Close(true)]
    case Arr(items) => [Open(false)] + AllTokens(items) + [Close(false)]
    case Str(text) => [Text(text)]
    case Num(literal) => [Number(literal)]
    case Other => [Atom]
  }

  function AllTokens(items: seq<Document>): seq<Token>
    decreases items, 1
  {
    if items == [] then [] else Tokens(items[0]) + AllTokens(items[1..])
  }

  function MemberTokens(members: seq<Member>): seq<Token>
    decreases members, 1
  {
    if members == [] then [] else [Text(members[0].name)] + Tokens(members[0].value) + MemberTokens(members[1..])
  }

  // The scanner

  /** An open object or array; `awaitingValue` is set between a key and its value. */
  datatype Container = Container(isObject: bool, count: nat, awaitingValue: bool)

  /** None is a limit violation. */
  type Verdict = Option<seq<Container>>

  function Top(stack: seq<Container>): Container
    requires stack != []
  {
    stack[|stack| - 1]
  }

  function SetTop(stack: seq<Container>, c: Container): (r: seq<Container>)
    requires stack != []
    ensures |r| == |stack|
  {
    stack[..|stack| - 1] + [c]
  }

  function Counted(stack: seq<Container>): Verdict
    requires stack != []
  {
    var c := Top(stack).(count := Top(stack).count + 1, awaitingValue := false);
    if c.count > (if c.isObject then MAX_KEYS else MAX_ARRAY) then None else Some(SetTop(stack, c))
  }

  function RecordElement(stack: seq<Container>, isLeaf: bool): Verdict {
    if stack == [] then Some(stack)
    else if Top(stack).isObject && isLeaf && !Top(stack).awaitingValue then
      Some(SetTop(stack, Top(stack).(awaitingValue := true)))
    else Counted(stack)
  }

  function Handle(stack: seq<Container>, token: Token): Verdict {
    match token
    case Open(isObject) => if |stack| + 1 > MAX_DEPTH then None else Some(stack + [Container(isObject, 0, false)])
    case Close(_) => RecordElement(if stack == [] then [] else stack[..|stack| - 1], false)
    case Text(text) => if |text| > MAX_STRING then None else RecordElement(stack, true)
    case Number(literal) => if !SafeLiteral(literal) then None else RecordElement(stack, true)
    case Atom => RecordElement(stack, true)
    case Malformed => None
  }

  function Scan(stack: seq<Container>, tokens: seq<Token>): Verdict
    decreases |tokens|
  {
    if tokens == [] then Some(stack) else
    match Handle(stack, tokens[0])
    case None => None
    case Some(next) => Scan(next, tokens[1..])
  }

  /** The decoder object: nesting depth and container stack, updated one token at a time. */
  class LimitDecoder {
    var depth: nat
    var stack: seq<Container>

    constructor ()
      ensures depth == 0 && stack == []
    {
      depth, stack := 0, [];
    }

    ghost predicate Valid()
      reads this
    {
      depth == |stack|
    }

    method RecordElementInTop(isLeaf: bool) returns (ok: bool)
      requires Valid()
      modifies this
      ensures Valid()
      ensures ok <==> RecordElement(old(stack), isLeaf).Some?
      ensures ok ==> stack == RecordElement(old(stack), isLeaf).value
    {
      if |stack| == 0 {
        return true;
      }
      var top := stack[|stack| - 1];
      if top.isObject {
        if isLeaf && !top.awaitingValue {
          stack := SetTop(stack, top.(awaitingValue := true));
          return true;
        }
        top := top.(awaitingValue := false);
      }
      top := top.(count := top.count + 1, awaitingValue := false);
      stack := SetTop(stack, top);
      if top.isObject {
        if top.count > MAX_KEYS {
          return false;
        }
      } else if top.count > MAX_ARRAY {
        return false;
      }
      return true;
    }

    method HandleToken(token: Token) returns (ok: bool)
      requires Valid()
      modifies this
      ensures ok <==> Handle(old(stack), token).Some?
      ensures ok ==> Valid() && stack == Handle(old(stack), token).value
    {
      match token
      case Open(isObject) =>
        depth := depth + 1;
        if depth > MAX_DEPTH {
          return false;
        }
        stack := stack + [Container(isObject, 0, false)];
        return true;
      case Close(_) =>
        if depth > 0 {
          depth := depth - 1;
          stack := stack[..|stack| - 1];
        }
        ok := RecordElementInTop(false);
      case Text(text) =>
        if |text| > MAX_STRING {
          return false;
        }
        ok := RecordElementInTop(true);
      case Number(literal) =>
        if !SafeLiteral(literal) {
          return false;
        }
        ok := RecordElementInTop(true);
      case Atom =>
        ok := RecordElementInTop(true);
      case Malformed =>
        return false;
    }

    method Walk(tokens: seq<Token>) returns (ok: bool)
      requires depth == 0 && stack == []
      modifies this
      ensures ok <==> Scan([], tokens).Some?
    {
      for i := 0 to |tokens|
        invariant Valid()
        invariant Scan(stack, tokens[i..]) == Scan([], tokens)
      {
        ok := HandleToken(tokens[i]);
        if !ok {
          return false;
        }
      }
      return true;
    }
  }

  // The scanner decides the definition

  /** The parent is ready for a value: outside any container, in an array, or after a key. */
  ghost predicate ReadyForValue(stack: seq<Container>) {
    stack == [] || !Top(stack).isObject || Top(stack).awaitingValue
  }

  /** What a value leaves of its parent once it is over. */
  ghost function AfterValue(stack: seq<Container>): Verdict {
    if stack == [] then Some([]) else Counted(stack)
  }

  lemma ScanSplit(stack: seq<Container>, a: seq<Token>, b: seq<Token>)
    ensures Scan(stack, a + b) == match Scan(stack, a) case None => None case Some(mid) => Scan(mid, b)
    decreases |a|
  {
    if a == [] {
      assert a + b == b;
    } else {
      assert (a + b)[0] == a[0] && (a + b)[1..] == a[1..] + b;
      match Handle(stack, a[0])
      case None =>
      case Some(next) => ScanSplit(next, a[1..], b);
    }
  }

  lemma ScanOne(stack: seq<Container>, token: Token)
    ensures Scan(stack, [token]) == Handle(stack, token)
  {
  }

  /** Scanning one value's tokens succeeds exactly when the value is within limits and its parent has room. */
  lemma {:induction false} ScanValue(stack: seq<Container>, j: Document)
    requires ReadyForValue(stack)
    ensures Scan(stack, Tokens(j)) == if WithinLimits(j, |stack|) then AfterValue(stack) else None
    decreases j, 1
  {
    match j
    case Obj(members) => ScanObject(stack, members);
    case Arr(items) => ScanArray(stack, items);
    case Str(text) => ScanOne(stack, Text(text));
    case Num(literal) => ScanOne(stack, Number(literal));
    case Other => ScanOne(stack, Atom);
  }

  lemma {:induction false} ScanArray(stack: seq<Container>, items: seq<Document>)
    requires ReadyForValue(stack)
    ensures Scan(stack, Tokens(Arr(items))) == if WithinLimits(Arr(items), |stack|) then AfterValue(stack) else None
    decreases items, 2
  {
    var inner := stack + [Container(false, 0, false)];
    ScanSplit(stack, [Open(false)] + AllTokens(items), [Close(false)]);
    ScanSplit(stack, [Open(false)], AllTokens(items));
    ScanOne(stack, Open(false));
    if |stack| + 1 <= MAX_DEPTH {
      ScanItems(stack, 0, items);
      var done := stack + [Container(false, |items|, false)];
      ScanOne(done, Close(false));
      assert done[..|done| - 1] == stack;
    }
  }

  lemma {:induction false} ScanItems(stack: seq<Container>, count: nat, items: seq<Document>)
    requires count <= MAX_ARRAY
    ensures Scan(stack + [Container(false, count, false)], AllTokens(items)) ==
      if count + |items| <= MAX_ARRAY && forall i :: 0 <= i < |items| ==> WithinLimits(items[i], |stack| + 1)
      then Some(stack + [Container(false, count + |items|, false)]) else None
    decreases items, 1
  {
    if items != [] {
      var s := stack + [Container(false, count, false)];
      ScanValue(s, items[0]);
      ScanSplit(s, Tokens(items[0]), AllTokens(items[1..]));
      if count + 1 <= MAX_ARRAY {
        assert SetTop(s, Container(false, count + 1, false)) == stack + [Container(false, count + 1, false)];
        ScanItems(stack, count + 1, items[1..]);
      }
      assert (forall i :: 0 <= i < |items| ==> WithinLimits(items[i], |stack| + 1))
        <==> WithinLimits(items[0], |stack| + 1) && forall i :: 0 <= i < |items[1..]| ==> WithinLimits(items[1..][i], |stack| + 1);
    }
  }

  lemma {:induction false} ScanObject(stack: seq<Container>, members: seq<Member>)
    requires ReadyForValue(stack)
    ensures Scan(stack, Tokens(Obj(members))) == if WithinLimits(Obj(members), |stack|) then AfterValue(stack) else None
    decreases members, 2
  {
    ScanSplit(stack, [Open(true)] + MemberTokens(members), [Close(true)]);
    ScanSplit(stack, [Open(true)], MemberTokens(members));
    ScanOne(stack, Open(true));
    if |stack| + 1 <= MAX_DEPTH {
      ScanMembers(stack, 0, members);
      var done := stack + [Container(true, |members|, false)];
      ScanOne(done, Close(true));
      assert done[..|done| - 1] == stack;
    }
  }

  ghost predicate GoodMember(m: Member, depth: nat) {
    |m.name| <= MAX_STRING && WithinLimits(m.value, depth)
  }

  lemma ScanMember(stack: seq<Container>, count: nat, m: Member)
    requires count <= MAX_KEYS
    ensures Scan(stack + [Container(true, count, false)], [Text(m.name)] + Tokens(m.value)) ==
      if count + 1 <= MAX_KEYS && GoodMember(m, |stack| + 1) then Some(stack + [Container(true, count + 1, false)]) else None
    decreases m, 1
  {
    var s := stack + [Container(true, count, false)];
    var keyed := stack + [Container(true, count, true)];
    ScanSplit(s, [Text(m.name)], Tokens(m.value));
    ScanOne(s, Text(m.name));
    assert SetTop(s, Container(true, count, true)) == keyed;
    ScanValue(keyed, m.value);
    if count + 1 <= MAX_KEYS {
      assert SetTop(keyed, Container(true, count + 1, false)) == stack + [Container(true, count + 1, false)];
    }
  }

  lemma {:induction false} ScanMembers(stack: seq<Container>, count: nat, members: seq<Member>)
    requires count <= MAX_KEYS
    ensures Scan(stack + [Container(true, count, false)], MemberTokens(members)) ==
      if count + |members| <= MAX_KEYS && forall i :: 0 <= i < |members| ==> GoodMember(members[i], |stack| + 1)
      then Some(stack + [Container(true, count + |members|, false)]) else None
    decreases members, 1
  {
    if members != [] {
      var m := members[0];
      ScanSplit(stack + [Container(true, count, false)], [Text(m.name)] + Tokens(m.value), MemberTokens(members[1..]));
      ScanMember(stack, count, m);
      if count + 1 <= MAX_KEYS {
        ScanMembers(stack, count + 1, members[1..]);
      }
      assert (forall i :: 0 <= i < |members| ==> GoodMember(members[i], |stack| + 1))
        <==> GoodMember(m, |stack| + 1) && forall i :: 0 <= i < |members[1..]| ==> GoodMember(members[1..][i], |stack| + 1);
    }
  }

  /** On the tokens of any JSON values the scan succeeds exactly when every limit holds in every value. */
  lemma {:induction false} ScanDecidesLimits(values: seq<Document>)
    ensures Scan([], AllTokens(values)).Some? <==> forall i :: 0 <= i < |values| ==> WithinLimits(values[i], 0)
    ensures Scan([], AllTokens(values)).Some? ==> Scan([], AllTokens(values)) == Some([])
  {
    if values != [] {
      ScanSplit([], Tokens(values[0]), AllTokens(values[1..]));
      ScanValue([], values[0]);
      ScanDecidesLimits(values[1..]);
      assert (forall i :: 0 <= i < |values| ==> WithinLimits(values[i], 0))
        <==> WithinLimits(values[0], 0) && forall i :: 0 <= i < |values[1..]| ==> WithinLimits(values[1..][i], 0);
    }
  }

  // The limits, at their edges

  /** `n` containers, arrays or objects, one inside the other. */
  function Nest(n: nat, asObject: bool): Document {
    if n == 0 then Other else if asObject then Obj([Member("", Nest(n - 1, asObject))]) else Arr([Nest(n - 1, asObject)])
  }

  /** The scan lets the document through. */
  predicate Passes(j: Document) {
    Scan([], Tokens(j)).Some?
  }

  lemma {:induction false} NestWithin(n: nat, asObject: bool, depth: nat)
    requires depth <= 32
    ensures WithinLimits(Nest(n, asObject), depth) <==> depth + n <= 32
    decreases n
  {
    if n > 0 && depth < 32 {
      NestWithin(n - 1, asObject, depth + 1);
      var inner := Nest(n - 1, asObject);
      assert [inner][0] == inner && [Member("", inner)][0].value == inner;
    }
  }

  /** Containers may nest 32 deep and no deeper. */
  lemma DepthExactly(n: nat, asObject: bool)
    ensures Passes(Nest(n, asObject)) <==> n <= 32
  {
    ScanValue([], Nest(n, asObject));
    NestWithin(n, asObject, 0);
  }

  /** A string or an object key may have 32768 bytes and no more. */
  lemma StringExactly(text: string)
    ensures Passes(Str(text)) <==> |text| <= 32768
    ensures Passes(Obj([Member(text, Other)])) <==> |text| <= 32768
  {
    ScanValue([], Str(text));
    ScanValue([], Obj([Member(text, Other)]));
    assert [Member(text, Other)][0] == Member(text, Other);
  }

  /** An array may have 4096 elements and an object 4096 pairs, and no more. */
  lemma LengthExactly(items: seq<Document>, members: seq<Member>)
    requires forall i :: 0 <= i < |items| ==> items[i].Other?
    requires forall i :: 0 <= i < |members| ==> members[i].value.Other? && members[i].name == ""
    ensures Passes(Arr(items)) <==> |items| <= 4096
    ensures Passes(Obj(members)) <==> |members| <= 4096
  {
    ScanValue([], Arr(items));
    ScanValue([], Obj(members));
  }

  /** An integer passes exactly within plus or minus 9007199254740991, and a literal with a point or an exponent always. */
  lemma NumberExactly(i: int, literal: string)
    requires '.' in literal || 'e' in literal || 'E' in literal
    ensures Passes(Num(Render(i))) <==> -9007199254740991 <= i <= 9007199254740991
    ensures Passes(Num(literal))
  {
    SafeIntegerRange(i);
    ScanValue([], Num(Render(i)));
    ScanValue([], Num(literal));
  }
}
