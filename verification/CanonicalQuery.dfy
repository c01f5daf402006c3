/** The scoped idempotency key: percent-encoding, the canonical query, and when two requests share a key. */
module CanonicalQuery {
  import Strings
  import Sorting

  type Byte = c: char | c as int < 256 witness 'a'

  type Bytes = seq<Byte>

  // Percent-encoding of one query component

  predicate Unreserved(c: Byte) {
    'A' <= c <= 'Z' || 'a' <= c <= 'z' || '0' <= c <= '9' || c in "-_.~"
  }

  const HEX: seq<Byte> := "0123456789ABCDEF"

  function EscapeByte(c: Byte): Bytes {
    if Unreserved(c) then [c]
    else if c == ' ' then "+"
    else ['%', HEX[c as int / 16], HEX[c as int % 16]]
  }

  function Escape(s: Bytes): Bytes {
    if s == [] then [] else EscapeByte(s[0]) + Escape(s[1..])
  }

  function HexValue(c: char): (r: nat)
    ensures r < 16
  {
    if '0' <= c <= '9' then c as int - '0' as int
    else if 'A' <= c <= 'F' then c as int - 'A' as int + 10
    else 0
  }

  /** The decoder for well-formed components. */
  function Unescape(s: Bytes): Bytes {
    if s == [] then []
    else if s[0] == '%' && |s| >= 3 then [(16 * HexValue(s[1]) + HexValue(s[2])) as char] + Unescape(s[3..])
    else [if s[0] == '+' then ' ' else s[0]] + Unescape(s[1..])
  }

  lemma HexRoundTrip(n: nat)
    requires n < 16
    ensures HexValue(HEX[n]) == n && Unreserved(HEX[n])
  {
  }

  lemma UnescapeByte(c: Byte, rest: Bytes)
    ensures Unescape(EscapeByte(c) + rest) == [c] + Unescape(rest)
  {
    var e := EscapeByte(c);
    if |e| == 3 {
      HexRoundTrip(c as int / 16);
      HexRoundTrip(c as int % 16);
      assert (e + rest)[3..] == rest;
    } else {
      assert (e + rest)[1..] == rest;
    }
  }

  /** Decoding an encoded component gives it back. */
  lemma {:induction false} EscapeRoundTrip(s: Bytes)
    ensures Unescape(Escape(s)) == s
  {
    if s != [] {
      EscapeRoundTrip(s[1..]);
      UnescapeByte(s[0], Escape(s[1..]));
    }
  }

  /** An encoded component holds only unreserved bytes, '%' and '+'. */
  lemma {:induction false} EscapeIsClean(s: Bytes)
    ensures forall c :: c in Escape(s) ==> Unreserved(c) || c == '%' || c == '+'
  {
    if s != [] {
      EscapeIsClean(s[1..]);
      HexRoundTrip(s[0] as int / 16);
      HexRoundTrip(s[0] as int % 16);
    }
  }

  // The canonical query

  /** A parsed query: each name with its values in order of appearance. */
  type Query = map<Bytes, seq<Bytes>>

  /** Parsing only creates names together with a value. */
  ghost predicate Parsed(q: Query) {
    forall k :: k in q ==> q[k] != []
  }

  ghost predicate SameParameters(q1: Query, q2: Query) {
    q1.Keys == q2.Keys && forall k :: k in q1 ==> multiset(q1[k]) == multiset(q2[k])
  }

  function AtMost(a: Bytes, b: Bytes): bool {
    Strings.AtMost(a, b)
  }

  lemma StringOrder()
    ensures Sorting.Preorder(AtMost)
    ensures forall s: seq<Bytes> :: Sorting.Untied(s, AtMost)
  {
    forall x: Bytes, y: Bytes ensures AtMost(x, y) || AtMost(y, x) {
      Strings.LessTotal(x, y);
    }
    forall x: Bytes, y: Bytes, z: Bytes | AtMost(x, y) && AtMost(y, z) ensures AtMost(x, z) {
      if Strings.Less(x, y) && Strings.Less(y, z) {
        Strings.LessTransitive(x, y, z);
      }
    }
    forall x: Bytes, y: Bytes | AtMost(x, y) && AtMost(y, x) ensures x == y {
      if Strings.Less(x, y) {
        Strings.LessAsymmetric(x, y);
      }
    }
  }

  lemma {:induction false} Listing(names: set<Bytes>) returns (r: seq<Bytes>)
    ensures multiset(r) == multiset(names)
    decreases names
  {
    if names == {} {
      r := [];
    } else {
      var k :| k in names;
      var rest := Listing(names - {k});
      r := [k] + rest;
      assert multiset(names) == multiset{k} + multiset(names - {k});
    }
  }

  /** The names in byte order, each once. */
  ghost function InOrder(names: set<Bytes>): (r: seq<Bytes>)
    ensures Sorting.Sorted(r, AtMost) && multiset(r) == multiset(names)
  {
    assert exists r :: Sorting.Sorted(r, AtMost) && multiset(r) == multiset(names) by {
      var listing := Listing(names);
      StringOrder();
      Sorting.SortSorted(listing, AtMost);
      var r := Sorting.Sort(listing, AtMost);
      assert Sorting.Sorted(r, AtMost) && multiset(r) == multiset(names);
    }
    var r :| Sorting.Sorted(r, AtMost) && multiset(r) == multiset(names);
    r
  }

  function Fields(values: seq<Bytes>): Bytes {
    if values == [] then [] else ['='] + Escape(values[0]) + Fields(values[1..])
  }

  function Parameter(q: Query, k: Bytes): Bytes
    requires k in q
  {
    Escape(k) + Fields(Sorting.Sort(q[k], AtMost))
  }

  function Encode(q: Query, names: seq<Bytes>): Bytes
    requires forall k :: k in names ==> k in q
  {
    if names == [] then []
    else if |names| == 1 then Parameter(q, names[0])
    else Parameter(q, names[0]) + ['&'] + Encode(q, names[1..])
  }

  lemma InOrderNames(names: set<Bytes>)
    ensures forall k :: k in InOrder(names) <==> k in names
    ensures InOrder(names) == [] <==> names == {}
  {
    forall k ensures k in InOrder(names) <==> k in names {
      assert k in multiset(InOrder(names)) <==> k in multiset(names);
    }
    if names != {} {
      var k :| k in names;
      assert k in InOrder(names);
    }
  }

  /** The text two requests' queries are compared by. */
  ghost function Canonical(q: Query): Bytes {
    InOrderNames(q.Keys);
    Encode(q, InOrder(q.Keys))
  }

  lemma {:induction false} EncodeAppend(q: Query, names: seq<Bytes>, k: Bytes)
    requires forall n :: n in names + [k] ==> n in q
    ensures Encode(q, names + [k]) == (if names == [] then [] else Encode(q, names) + ['&']) + Parameter(q, k)
  {
    if names != [] {
      assert (names + [k])[0] == names[0] && (names + [k])[1..] == names[1..] + [k];
      EncodeAppend(q, names[1..], k);
      var head := Parameter(q, names[0]) + ['&'];
      if |names| > 1 {
        Regroup(head, Encode(q, names[1..]) + ['&'], Parameter(q, k));
        Regroup(head, Encode(q, names[1..]), ['&']);
      }
    } else {
      assert names + [k] == [k];
    }
  }

  method SortedKeys(q: Query) returns (names: seq<Bytes>)
    ensures names == InOrder(q.Keys)
  {
    names := [];
    var todo := q.Keys;
    while todo != {}
      invariant todo <= q.Keys
      invariant multiset(names) == multiset(q.Keys - todo)
      decreases todo
    {
      var k :| k in todo;
      assert q.Keys - (todo - {k}) == (q.Keys - todo) + {k};
      todo := todo - {k};
      names := names + [k];
    }
    assert q.Keys - todo == q.Keys;
    names := Sorting.Sort(names, AtMost);
    SortedNames(q, names);
  }

  method WriteFields(b: Bytes, vals: seq<Bytes>) returns (r: Bytes)
    ensures r == b + Fields(vals)
  {
    r := b;
    var j := 0;
    while j < |vals|
      invariant 0 <= j <= |vals|
      invariant r + Fields(vals[j..]) == b + Fields(vals)
    {
      FieldsNext(r, vals, j);
      r := r + ['='];
      r := r + Escape(vals[j]);
      j := j + 1;
    }
  }

  lemma FieldsNext(r: Bytes, vals: seq<Bytes>, j: nat)
    requires j < |vals|
    ensures r + Fields(vals[j..]) == r + ['='] + Escape(vals[j]) + Fields(vals[j + 1..])
  {
    assert vals[j..][1..] == vals[j + 1..];
    Regroup(r, ['='] + Escape(vals[j]), Fields(vals[j + 1..]));
    Regroup(r, ['='], Escape(vals[j]));
  }

  method WriteParameter(b: Bytes, q: Query, k: Bytes) returns (r: Bytes)
    requires k in q
    ensures r == b + Parameter(q, k)
  {
    var vals := Sorting.Sort(q[k], AtMost);
    r := WriteFields(b + Escape(k), vals);
    Regroup(b, Escape(k), Fields(vals));
  }

  lemma Regroup(a: Bytes, b: Bytes, c: Bytes)
    ensures (a + b) + c == a + (b + c)
  {
  }

  lemma EncodeNext(q: Query, names: seq<Bytes>, i: nat)
    requires i < |names| && forall k :: k in names ==> k in q
    ensures Encode(q, names[..i + 1]) == (if i == 0 then [] else Encode(q, names[..i]) + ['&']) + Parameter(q, names[i])
  {
    assert names[..i + 1] == names[..i] + [names[i]];
    EncodeAppend(q, names[..i], names[i]);
  }

  /** The encoder: sorted names, each with its sorted values, written to a growing buffer. */
  method BuildCanonicalQuery(q: Query) returns (b: Bytes)
    ensures b == Canonical(q)
  {
    InOrderNames(q.Keys);
    b := [];
    if q == map[] {
      return;
    }
    var names := SortedKeys(q);
    var i := 0;
    while i < |names|
      invariant 0 <= i <= |names|
      invariant b == Encode(q, names[..i])
    {
      var k := names[i];
      EncodeNext(q, names, i);
      if i > 0 {
        b := b + ['&'];
      }
      b := WriteParameter(b, q, k);
      i := i + 1;
    }
    assert names[..i] == names;
  }

  lemma SortedNames(q: Query, names: seq<Bytes>)
    requires exists s :: multiset(s) == multiset(q.Keys) && names == Sorting.Sort(s, AtMost)
    ensures names == InOrder(q.Keys)
  {
    var s :| multiset(s) == multiset(q.Keys) && names == Sorting.Sort(s, AtMost);
    StringOrder();
    Sorting.SortSorted(s, AtMost);
    Sorting.SortedUnique(names, InOrder(q.Keys), AtMost);
  }

  // The canonical query determines the parameters

  lemma {:induction false} FieldsClean(values: seq<Bytes>)
    ensures forall c :: c in Fields(values) ==> Unreserved(c) || c in "%+="
  {
    if values != [] {
      FieldsClean(values[1..]);
      EscapeIsClean(values[0]);
    }
  }

  lemma EscapeInjective(a: Bytes, b: Bytes)
    requires Escape(a) == Escape(b)
    ensures a == b
  {
    EscapeRoundTrip(a);
    EscapeRoundTrip(b);
  }

  lemma EscapeHasNoEquals(a: Bytes)
    ensures '=' !in Escape(a)
  {
    EscapeIsClean(a);
  }

  /** An encoded name followed by fields is a join at '='. */
  lemma FieldsJoin(a: Bytes, vs: seq<Bytes>)
    requires vs != []
    ensures Escape(a) + Fields(vs) == Strings.Join(Escape(a), '=', Escape(vs[0]) + Fields(vs[1..]))
  {
    assert Fields(vs) == ['='] + (Escape(vs[0]) + Fields(vs[1..]));
  }

  lemma EqualsMarksFields(a: Bytes, vs: seq<Bytes>)
    ensures '=' in Escape(a) + Fields(vs) <==> vs != []
  {
    EscapeHasNoEquals(a);
    if vs != [] {
      assert (Escape(a) + Fields(vs))[|Escape(a)|] == '=';
    }
  }

  /** A name and its values can be read back from their text. */
  lemma {:induction false} FieldsInjective(a: Bytes, vs: seq<Bytes>, b: Bytes, ws: seq<Bytes>)
    requires Escape(a) + Fields(vs) == Escape(b) + Fields(ws)
    ensures a == b && vs == ws
    decreases |vs|
  {
    EqualsMarksFields(a, vs);
    EqualsMarksFields(b, ws);
    if vs == [] {
      assert Escape(a) + Fields(vs) == Escape(a) && Escape(b) + Fields(ws) == Escape(b);
      EscapeInjective(a, b);
    } else {
      FieldsJoin(a, vs);
      FieldsJoin(b, ws);
      EscapeHasNoEquals(a);
      EscapeHasNoEquals(b);
      Strings.JoinInjective(Escape(a), Escape(vs[0]) + Fields(vs[1..]), Escape(b), Escape(ws[0]) + Fields(ws[1..]), '=');
      EscapeInjective(a, b);
      FieldsInjective(vs[0], vs[1..], ws[0], ws[1..]);
      assert vs == [vs[0]] + vs[1..] && ws == [ws[0]] + ws[1..];
    }
  }

  lemma ParameterClean(q: Query, k: Bytes)
    requires k in q
    ensures forall c :: c in Parameter(q, k) ==> Unreserved(c) || c in "%+="
    ensures q[k] != [] ==> '=' in Parameter(q, k)
  {
    EscapeIsClean(k);
    var sorted := Sorting.Sort(q[k], AtMost);
    FieldsClean(sorted);
    if q[k] != [] {
      assert Fields(sorted)[0] == '=';
    }
  }

  lemma {:induction false} EncodeClean(q: Query, names: seq<Bytes>)
    requires forall k :: k in names ==> k in q
    ensures forall c :: c in Encode(q, names) ==> Unreserved(c) || c in "%+=&"
  {
    if names != [] {
      ParameterClean(q, names[0]);
      EncodeClean(q, names[1..]);
    }
  }

  lemma ParameterInjective(q1: Query, k1: Bytes, q2: Query, k2: Bytes)
    requires k1 in q1 && k2 in q2 && Parameter(q1, k1) == Parameter(q2, k2)
    ensures k1 == k2 && multiset(q1[k1]) == multiset(q2[k2])
  {
    FieldsInjective(k1, Sorting.Sort(q1[k1], AtMost), k2, Sorting.Sort(q2[k2], AtMost));
  }

  lemma EncodeEmpty(q: Query, names: seq<Bytes>)
    requires Parsed(q) && forall k :: k in names ==> k in q
    ensures Encode(q, names) == [] <==> names == []
  {
    if names != [] {
      ParameterClean(q, names[0]);
      assert '=' in Encode(q, names);
    }
  }

  /** Equal encodings list the same names, and under each the same values. */
  lemma {:induction false} EncodeInjective(q1: Query, names1: seq<Bytes>, q2: Query, names2: seq<Bytes>)
    requires Parsed(q1) && Parsed(q2)
    requires (forall k :: k in names1 ==> k in q1) && (forall k :: k in names2 ==> k in q2)
    requires Encode(q1, names1) == Encode(q2, names2)
    ensures names1 == names2
    ensures forall k :: k in names1 ==> multiset(q1[k]) == multiset(q2[k])
    decreases |names1|
  {
    EncodeEmpty(q1, names1);
    EncodeEmpty(q2, names2);
    if names1 != [] {
      HeadInjective(q1, names1, q2, names2);
      if |names1| > 1 {
        EncodeInjective(q1, names1[1..], q2, names2[1..]);
      }
      HeadAndTail(q1, names1, q2, names2);
    }
  }

  lemma HeadAndTail(q1: Query, names1: seq<Bytes>, q2: Query, names2: seq<Bytes>)
    requires (forall k :: k in names1 ==> k in q1) && (forall k :: k in names2 ==> k in q2)
    requires names1 != [] && names2 != [] && names1[0] == names2[0] && names1[1..] == names2[1..]
    requires multiset(q1[names1[0]]) == multiset(q2[names1[0]])
    requires forall k :: k in names1[1..] ==> k in q1 && k in q2 && multiset(q1[k]) == multiset(q2[k])
    ensures names1 == names2
    ensures forall k :: k in names1 ==> multiset(q1[k]) == multiset(q2[k])
  {
    assert names1 == [names1[0]] + names1[1..] && names2 == [names2[0]] + names2[1..];
  }

  lemma EncodeHead(q: Query, names: seq<Bytes>)
    requires names != [] && forall k :: k in names ==> k in q
    ensures '&' !in Parameter(q, names[0])
    ensures '&' in Encode(q, names) <==> |names| > 1
    ensures |names| > 1 ==> Encode(q, names) == Strings.Join(Parameter(q, names[0]), '&', Encode(q, names[1..]))
  {
    ParameterClean(q, names[0]);
    if |names| > 1 {
      assert Strings.Join(Parameter(q, names[0]), '&', Encode(q, names[1..]))[|Parameter(q, names[0])|] == '&';
    }
  }

  lemma HeadInjective(q1: Query, names1: seq<Bytes>, q2: Query, names2: seq<Bytes>)
    requires (forall k :: k in names1 ==> k in q1) && (forall k :: k in names2 ==> k in q2)
    requires names1 != [] && names2 != [] && Encode(q1, names1) == Encode(q2, names2)
    ensures names1[0] == names2[0] && multiset(q1[names1[0]]) == multiset(q2[names2[0]])
    ensures |names1| == 1 <==> |names2| == 1
    ensures Encode(q1, names1[1..]) == Encode(q2, names2[1..])
  {
    EncodeHead(q1, names1);
    EncodeHead(q2, names2);
    var p1, p2 := Parameter(q1, names1[0]), Parameter(q2, names2[0]);
    if |names1| > 1 {
      Strings.JoinInjective(p1, Encode(q1, names1[1..]), p2, Encode(q2, names2[1..]), '&');
    }
    ParameterInjective(q1, names1[0], q2, names2[0]);
  }

  lemma {:induction false} EncodeAgrees(q1: Query, q2: Query, names: seq<Bytes>)
    requires SameParameters(q1, q2) && forall k :: k in names ==> k in q1
    ensures Encode(q1, names) == Encode(q2, names)
  {
    if names != [] {
      StringOrder();
      Sorting.SortCanonical(q1[names[0]], q2[names[0]], AtMost);
      EncodeAgrees(q1, q2, names[1..]);
    }
  }

  lemma SameNames(names1: set<Bytes>, names2: set<Bytes>)
    requires InOrder(names1) == InOrder(names2)
    ensures names1 == names2
  {
    assert multiset(names1) == multiset(names2);
    forall k: Bytes ensures k in names1 <==> k in names2 {
      assert k in multiset(names1) <==> k in multiset(names2);
    }
  }

  lemma CanonicalInjective(q1: Query, q2: Query)
    requires Parsed(q1) && Parsed(q2) && Canonical(q1) == Canonical(q2)
    ensures SameParameters(q1, q2)
  {
    InOrderNames(q1.Keys);
    InOrderNames(q2.Keys);
    var names := InOrder(q1.Keys);
    EncodeInjective(q1, names, q2, InOrder(q2.Keys));
    SameNames(q1.Keys, q2.Keys);
    forall k | k in q1 ensures multiset(q1[k]) == multiset(q2[k]) {
      assert k in q1.Keys;
      assert k in names;
    }
  }

  /** Two queries are encoded alike exactly when they give each name the same values, in any order. */
  lemma CanonicalExactly(q1: Query, q2: Query)
    requires Parsed(q1) && Parsed(q2)
    ensures Canonical(q1) == Canonical(q2) <==> SameParameters(q1, q2)
  {
    if Canonical(q1) == Canonical(q2) {
      CanonicalInjective(q1, q2);
    } else if SameParameters(q1, q2) {
      InOrderNames(q1.Keys);
      EncodeAgrees(q1, q2, InOrder(q1.Keys));
    }
  }

  /** A byte is written as itself, as '+' for a space, or as '%' and its two upper-case hexadecimal digits. */
  lemma ByteSpelled(c: Byte)
    ensures var e := Escape([c]);
      if 'a' <= c <= 'z' || 'A' <= c <= 'Z' || '0' <= c <= '9' || c in "-_.~" then e == [c]
      else if c == ' ' then e == "+"
      else exists hi: nat, lo: nat :: hi < 16 && lo < 16 && 16 * hi + lo == c as int && e == ['%', "0123456789ABCDEF"[hi], "0123456789ABCDEF"[lo]]
  {
    assert [c][1..] == [] && Escape([c]) == EscapeByte(c);
    assert 16 * (c as int / 16) + c as int % 16 == c as int;
  }

  lemma ParameterSpelled(q: Query, k: Bytes, v: Bytes)
    requires k in q && q[k] == [v]
    ensures Parameter(q, k) == Escape(k) + ['='] + Escape(v)
  {
    SingleSorted(v);
    assert [v][1..] == [] && Fields([v]) == ['='] + Escape(v);
    Regroup(Escape(k), ['='], Escape(v));
  }

  /** One parameter is written as its name and its value around '='. */
  lemma QuerySpelled(k: Bytes, v: Bytes)
    ensures Canonical(map[k := [v]]) == Escape(k) + ['='] + Escape(v)
  {
    var q: Query := map[k := [v]];
    ParameterSpelled(q, k, v);
    OnlyName(q.Keys, k);
  }

  /** Two stand in the byte order of their names, with '&' between them. */
  lemma PairSpelled(k: Bytes, v: Bytes, l: Bytes, w: Bytes)
    requires Strings.Less(k, l)
    ensures Canonical(map[k := [v], l := [w]]) == Canonical(map[k := [v]]) + ['&'] + Canonical(map[l := [w]])
  {
    var q: Query := map[k := [v], l := [w]];
    Strings.LessAsymmetric(k, l);
    QuerySpelled(k, v);
    QuerySpelled(l, w);
    ParameterSpelled(q, k, v);
    ParameterSpelled(q, l, w);
    TwoNames(q.Keys, k, l);
    EncodeTwo(q, k, l);
  }

  lemma EncodeTwo(q: Query, k: Bytes, l: Bytes)
    requires k in q && l in q
    ensures Encode(q, [k, l]) == Parameter(q, k) + ['&'] + Parameter(q, l)
  {
    assert [k, l][1..] == [l];
  }

  lemma TwoNames(names: set<Bytes>, k: Bytes, l: Bytes)
    requires names == {k, l} && Strings.Less(k, l) && k != l
    ensures InOrder(names) == [k, l]
  {
    var r := InOrder(names);
    Strings.LessAsymmetric(k, l);
    assert multiset(r) == multiset{k, l};
    assert |r| == |multiset(r)| == 2;
    assert r[0] in multiset(r) && r[1] in multiset(r);
    assert r == [r[0], r[1]];
    assert AtMost(r[0], r[1]);
  }

  lemma OnlyName(names: set<Bytes>, k: Bytes)
    requires names == {k}
    ensures InOrder(names) == [k]
  {
    var r := InOrder(names);
    assert multiset(r) == multiset{k};
    assert |r| == |multiset(r)| == 1;
    assert r[0] in multiset(r);
  }

  lemma SingleSorted(v: Bytes)
    ensures Sorting.Sort([v], AtMost) == [v]
  {
    StringOrder();
    Sorting.SortSorted([v], AtMost);
    var r := Sorting.Sort([v], AtMost);
    assert |r| == |multiset(r)| == 1;
    assert r[0] in multiset(r);
  }

  // The scoped key

  const NUL: Byte := 0 as char

  const MAX_KEY_BYTES := 256

  /** What the middleware reads from a request; `template` is empty when no route matched. */
  datatype Request = Request(principal: Bytes, verb: Bytes, template: Bytes, path: Bytes, query: Query, rawKey: Bytes)

  datatype Scope = KeyRequired | KeyTooLong | Scoped(key: Bytes)

  function Route(r: Request): Bytes {
    if r.template == [] then r.path else r.template
  }

  ghost function ScopedKey(r: Request): Bytes {
    r.principal + [NUL] + r.verb + [NUL] + Route(r) + [NUL] + r.path + [NUL] + Canonical(r.query) + [NUL] + r.rawKey
  }

  method ScopeOf(r: Request) returns (scope: Scope)
    ensures scope == if r.rawKey == [] then KeyRequired else if |r.rawKey| > 256 then KeyTooLong else Scoped(ScopedKey(r))
  {
    if r.rawKey == [] {
      return KeyRequired;
    }
    if |r.rawKey| > MAX_KEY_BYTES {
      return KeyTooLong;
    }
    var route := r.template;
    if route == [] {
      route := r.path;
    }
    var query := BuildCanonicalQuery(r.query);
    scope := Scoped(r.principal + [NUL] + r.verb + [NUL] + route + [NUL] + r.path + [NUL] + query + [NUL] + r.rawKey);
  }

  /** Only the concrete path may contain NUL. */
  ghost predicate Clean(r: Request) {
    Parsed(r.query) && NUL !in r.principal && NUL !in r.verb && NUL !in r.template && NUL !in r.rawKey
  }

  ghost predicate SameScope(r1: Request, r2: Request) {
    && r1.principal == r2.principal && r1.verb == r2.verb && Route(r1) == Route(r2) && r1.path == r2.path
    && SameParameters(r1.query, r2.query) && r1.rawKey == r2.rawKey
  }

  /** Either both requests matched a route, or neither did, or the unmatched path has no NUL. */
  predicate Separable(r1: Request, r2: Request) {
    (r1.template == [] && NUL in r1.path) || (r2.template == [] && NUL in r2.path) ==>
      (r1.template == [] <==> r2.template == [])
  }

  function Middle(r: Request): Bytes {
    Strings.Join(Route(r), NUL, r.path)
  }

  lemma MiddleInjective(r1: Request, r2: Request)
    requires Clean(r1) && Clean(r2) && Separable(r1, r2) && Middle(r1) == Middle(r2)
    ensures Route(r1) == Route(r2) && r1.path == r2.path
  {
    if NUL !in Route(r1) && NUL !in Route(r2) {
      Strings.JoinInjective(Route(r1), r1.path, Route(r2), r2.path, NUL);
    } else {
      var j := Middle(r1);
      assert |r1.path| == |r2.path|;
      assert r1.path == j[..|r1.path|] == r2.path;
    }
  }

  lemma CanonicalHasNoNul(q: Query)
    ensures NUL !in Canonical(q)
  {
    InOrderNames(q.Keys);
    EncodeClean(q, InOrder(q.Keys));
  }

  /** The key as nested two-field joins. */
  lemma KeyAsJoins(r: Request)
    ensures var tail := Strings.Join(Strings.Join(Middle(r), NUL, Canonical(r.query)), NUL, r.rawKey);
      ScopedKey(r) == Strings.Join(r.principal, NUL, Strings.Join(r.verb, NUL, tail))
  {
    var n: Bytes := [NUL];
    var query, head := Canonical(r.query), r.principal + n + r.verb + n;
    RegroupTail(head, Route(r), n, r.path, n, query, n, r.rawKey);
    var tail := Strings.Join(Strings.Join(Middle(r), NUL, query), NUL, r.rawKey);
    assert ScopedKey(r) == head + tail;
    Regroup(r.principal + n, r.verb, n);
    Regroup(r.principal + n, r.verb + n, tail);
  }

  lemma RegroupTail(head: Bytes, a: Bytes, b: Bytes, c: Bytes, d: Bytes, e: Bytes, f: Bytes, g: Bytes)
    ensures head + a + b + c + d + e + f + g == head + (a + b + c + d + e + f + g)
  {
    Regroup(head, a, b);
    Regroup(head, a + b, c);
    Regroup(head, a + b + c, d);
    Regroup(head, a + b + c + d, e);
    Regroup(head, a + b + c + d + e, f);
    Regroup(head, a + b + c + d + e + f, g);
  }

  /** Equal keys agree on everything but where the route ends and the path begins. */
  lemma KeysGiveMiddles(r1: Request, r2: Request)
    requires Clean(r1) && Clean(r2) && ScopedKey(r1) == ScopedKey(r2)
    ensures r1.principal == r2.principal && r1.verb == r2.verb && Middle(r1) == Middle(r2)
    ensures SameParameters(r1.query, r2.query) && r1.rawKey == r2.rawKey
  {
    CanonicalExactly(r1.query, r2.query);
    KeyAsJoins(r1);
    KeyAsJoins(r2);
    CanonicalHasNoNul(r1.query);
    CanonicalHasNoNul(r2.query);
    var c1, c2 := Strings.Join(Middle(r1), NUL, Canonical(r1.query)), Strings.Join(Middle(r2), NUL, Canonical(r2.query));
    var t1, t2 := Strings.Join(c1, NUL, r1.rawKey), Strings.Join(c2, NUL, r2.rawKey);
    Strings.JoinInjective(r1.principal, Strings.Join(r1.verb, NUL, t1), r2.principal, Strings.Join(r2.verb, NUL, t2), NUL);
    Strings.JoinInjective(r1.verb, t1, r2.verb, t2, NUL);
    Strings.JoinInjectiveRight(c1, r1.rawKey, c2, r2.rawKey, NUL);
    Strings.JoinInjectiveRight(Middle(r1), Canonical(r1.query), Middle(r2), Canonical(r2.query), NUL);
  }

  /** Two requests share a key exactly when principal, method, route, path and raw key agree and their
      queries give each name the same values. */
  lemma ScopedKeysExactly(r1: Request, r2: Request)
    requires Clean(r1) && Clean(r2) && Separable(r1, r2)
    ensures ScopedKey(r1) == ScopedKey(r2) <==> SameScope(r1, r2)
  {
    CanonicalExactly(r1.query, r2.query);
    if ScopedKey(r1) == ScopedKey(r2) {
      KeysGiveMiddles(r1, r2);
      MiddleInjective(r1, r2);
    }
  }

  // Requests that can be imitated

  /** Some clean request of another scope has this request's key. */
  ghost predicate Shared(r: Request) {
    exists other :: Clean(other) && ScopedKey(other) == ScopedKey(r) && !SameScope(other, r)
  }

  /** `k` path bytes, the template between two NULs, and the same `k` bytes again. */
  predicate Mirrored(r: Request, k: nat) {
    k <= |r.path| && r.path == r.path[..k] + [NUL] + r.template + [NUL] + r.path[..k]
  }

  /** An unmatched path that could begin with a template, or a matched path that mirrors around its template. */
  predicate Imitable(r: Request) {
    if r.template == [] then NUL in r.path && r.path[0] != NUL else exists k :: 0 <= k <= |r.path| && Mirrored(r, k)
  }

  lemma SameTail(r: Request, other: Request)
    requires other.principal == r.principal && other.verb == r.verb && other.query == r.query && other.rawKey == r.rawKey
    requires Middle(other) == Middle(r)
    ensures ScopedKey(other) == ScopedKey(r)
  {
    KeyAsJoins(r);
    KeyAsJoins(other);
  }

  lemma {:induction false} FirstNul(s: Bytes) returns (k: nat)
    requires NUL in s
    ensures k < |s| && s[k] == NUL && NUL !in s[..k]
  {
    if s[0] == NUL {
      k := 0;
    } else {
      var rest := FirstNul(s[1..]);
      k := rest + 1;
      assert s[..k] == [s[0]] + s[1..][..rest];
    }
  }

  /** An unmatched path with NUL past its first byte shares its key with a matched request. */
  lemma UnmatchedIsShared(r: Request)
    requires Clean(r) && r.template == [] && Imitable(r)
    ensures Shared(r)
  {
    var k := FirstNul(r.path);
    var a, b := r.path[..k], r.path[k + 1..];
    assert r.path == a + [NUL] + b;
    var other := r.(template := a, path := b + [NUL] + a + [NUL] + b);
    assert Middle(other) == Middle(r);
    SameTail(r, other);
    assert |other.path| > |r.path|;
  }

  /** A matched path that mirrors around its template shares its key with an unmatched request. */
  lemma MirroredIsShared(r: Request, k: nat)
    requires Clean(r) && r.template != [] && Mirrored(r, k)
    ensures Shared(r)
  {
    var other := r.(template := [], path := r.template + [NUL] + r.path[..k]);
    assert Middle(other) == Middle(r);
    SameTail(r, other);
    assert |other.path| < |r.path|;
  }

  lemma MirrorSplits(template: Bytes, path: Bytes, a: Bytes, b: Bytes)
    requires NUL !in template && NUL !in a
    requires Strings.Join(template, NUL, path) == Strings.Join(a + [NUL] + b, NUL, a + [NUL] + b)
    ensures template == a && path == b + [NUL] + a + [NUL] + b
  {
    var p, rest := a + [NUL] + b, b + [NUL] + (a + [NUL] + b);
    assert Strings.Join(p, NUL, p) == Strings.Join(a, NUL, rest);
    Strings.JoinInjective(template, path, a, rest, NUL);
  }

  /** A matched and an unmatched request with equal middles: the matched path mirrors, the unmatched one has an inner NUL. */
  lemma MatchedAndUnmatched(matched: Request, unmatched: Request)
    requires Clean(matched) && Clean(unmatched) && matched.template != [] && unmatched.template == [] && NUL in unmatched.path
    requires Middle(matched) == Middle(unmatched)
    ensures Imitable(matched) && Imitable(unmatched)
  {
    var k := FirstNul(unmatched.path);
    var a, b := unmatched.path[..k], unmatched.path[k + 1..];
    assert unmatched.path == a + [NUL] + b;
    MirrorSplits(matched.template, matched.path, a, b);
    assert matched.path[..|b|] == b;
    assert Mirrored(matched, |b|);
  }

  /** Another scope can share a request's key if and only if the request is imitable. */
  lemma SharedExactly(r: Request)
    requires Clean(r)
    ensures Shared(r) <==> Imitable(r)
  {
    if Shared(r) {
      var other :| Clean(other) && ScopedKey(other) == ScopedKey(r) && !SameScope(other, r);
      KeysGiveMiddles(r, other);
      if Separable(r, other) {
        MiddleInjective(r, other);
      } else if r.template == [] {
        MatchedAndUnmatched(other, r);
      } else {
        MatchedAndUnmatched(r, other);
      }
    }
    if Imitable(r) {
      if r.template == [] {
        UnmatchedIsShared(r);
      } else {
        var k :| 0 <= k <= |r.path| && Mirrored(r, k);
        MirroredIsShared(r, k);
      }
    }
  }
}
