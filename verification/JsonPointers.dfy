/** JSON documents and the local JSON pointers into them (RFC 6901). */
module JsonPointers {
  import opened Options

  datatype Json =
    | Null | Bool(value: bool) | Number(literal: string) | Str(text: string)
    | Arr(items: seq<Json>) | Obj(members: map<string, Json>)

  /** Every occurrence of '~' before `digit`, left to right, becomes `to`. */
  function ReplaceAll(s: string, digit: char, to: char): string {
    if |s| < 2 then s
    else if s[0] == '~' && s[1] == digit then [to] + ReplaceAll(s[2..], digit, to)
    else [s[0]] + ReplaceAll(s[1..], digit, to)
  }

  function DecodeToken(tok: string): string {
    ReplaceAll(ReplaceAll(tok, '1', '/'), '0', '~')
  }

  /** The pieces between slashes. */
  function Split(s: string): (r: seq<string>)
    ensures |r| > 0
  {
    if s == [] then [[]]
    else
      var rest := Split(s[1..]);
      if s[0] == '/' then [[]] + rest else [[s[0]] + rest[0]] + rest[1..]
  }

  /** Walks down object members by name. */
  function Follow(j: Json, names: seq<string>): Option<Json> {
    if names == [] then Some(j)
    else if j.Obj? && names[0] in j.members then Follow(j.members[names[0]], names[1..])
    else None
  }

  function Decoded(tokens: seq<string>): (r: seq<string>)
    ensures |r| == |tokens|
  {
    seq(|tokens|, i requires 0 <= i < |tokens| => DecodeToken(tokens[i]))
  }

  predicate IsLocal(ref: string) {
    ref == "#" || "#/" <= ref
  }

  /** The node a local pointer names. */
  function Target(root: Json, ref: string): Option<Json>
    requires IsLocal(ref)
  {
    if ref == "#" then Some(root) else Follow(root, Decoded(Split(ref[2..])))
  }

  method ResolvePointer(root: Json, ref: string) returns (r: Option<Json>)
    requires IsLocal(ref)
    ensures r == Target(root, ref)
  {
    if ref == "#" {
      return Some(root);
    }
    var cur := root;
    var tokens := Split(ref[2..]);
    var i := 0;
    while i < |tokens|
      invariant 0 <= i <= |tokens|
      invariant Follow(root, Decoded(tokens)) == Follow(cur, Decoded(tokens)[i..])
    {
      var tok := DecodeToken(tokens[i]);
      assert Decoded(tokens)[i..][0] == tok && Decoded(tokens)[i..][1..] == Decoded(tokens)[i + 1..];
      if !cur.Obj? || tok !in cur.members {
        return None;
      }
      cur := cur.members[tok];
      i := i + 1;
    }
    r := Some(cur);
  }

  /** RFC 6901's escaping of a name. */
  function EncodeToken(name: string): string {
    if name == [] then []
    else (if name[0] == '~' then "~0" else if name[0] == '/' then "~1" else [name[0]]) + EncodeToken(name[1..])
  }

  function PointerTo(names: seq<string>): string {
    if names == [] then [] else ['/'] + EncodeToken(names[0]) + PointerTo(names[1..])
  }

  /** Decoding in one pass from the left. */
  function OnePass(s: string): string {
    if |s| < 2 then s
    else if s[0] == '~' && s[1] == '1' then ['/'] + OnePass(s[2..])
    else if s[0] == '~' && s[1] == '0' then ['~'] + OnePass(s[2..])
    else [s[0]] + OnePass(s[1..])
  }

  lemma ReplaceStep(c: char, rest: string, digit: char, to: char)
    requires c != '~' || rest == [] || rest[0] != digit
    ensures ReplaceAll([c] + rest, digit, to) == [c] + ReplaceAll(rest, digit, to)
  {
    assert ([c] + rest)[1..] == rest;
  }

  lemma ReplaceHead(s: string)
    ensures s != [] && s[0] == '0' ==> ReplaceAll(s, '1', '/') != [] && ReplaceAll(s, '1', '/')[0] == '0'
    ensures s == [] <==> ReplaceAll(s, '1', '/') == []
    ensures ReplaceAll(s, '1', '/') != [] && ReplaceAll(s, '1', '/')[0] == '0' ==> s[0] == '0'
  {
  }

  /** Replacing "~1" first and "~0" second is the single left-to-right decoding. */
  lemma {:induction false} DecodeIsOnePass(s: string)
    ensures DecodeToken(s) == OnePass(s)
    decreases |s|
  {
    if |s| >= 2 {
      if s[0] == '~' && s[1] == '1' {
        DecodeIsOnePass(s[2..]);
        ReplaceStep('/', ReplaceAll(s[2..], '1', '/'), '0', '~');
      } else if s[0] == '~' && s[1] == '0' {
        var rest := ReplaceAll(s[2..], '1', '/');
        assert s[1..] == ['0'] + s[2..];
        ReplaceStep('0', s[2..], '1', '/');
        assert ReplaceAll(s, '1', '/') == ['~', '0'] + rest;
        assert (['~', '0'] + rest)[2..] == rest;
        DecodeIsOnePass(s[2..]);
      } else {
        var rest := ReplaceAll(s[1..], '1', '/');
        ReplaceHead(s[1..]);
        ReplaceStep(s[0], rest, '0', '~');
        DecodeIsOnePass(s[1..]);
      }
    }
  }

  /** Decoding undoes the standard's encoding. */
  lemma {:induction false} TokenRoundTrip(name: string)
    ensures DecodeToken(EncodeToken(name)) == name
  {
    DecodeIsOnePass(EncodeToken(name));
    EncodeOnePass(name);
  }

  lemma {:induction false} EncodeOnePass(name: string)
    ensures OnePass(EncodeToken(name)) == name
    ensures '/' !in EncodeToken(name)
  {
    if name != [] {
      EncodeOnePass(name[1..]);
      var rest := EncodeToken(name[1..]);
      assert EncodeToken(name)[1..] == rest || EncodeToken(name)[2..] == rest;
    }
  }

  lemma {:induction false} SplitToken(token: string, rest: string)
    requires '/' !in token
    ensures Split(token) == [token]
    ensures Split(token + ['/'] + rest) == [token] + Split(rest)
  {
    var s := token + ['/'] + rest;
    if token == [] {
      assert s[1..] == rest;
    } else {
      assert s[1..] == token[1..] + ['/'] + rest;
      SplitToken(token[1..], rest);
      assert [s[0]] + token[1..] == token;
    }
  }

  lemma DecodedCons(token: string, tokens: seq<string>)
    ensures Decoded([token] + tokens) == [DecodeToken(token)] + Decoded(tokens)
  {
  }

  lemma PointerTail(names: seq<string>)
    requires |names| > 1
    ensures PointerTo(names)[1..] == EncodeToken(names[0]) + ['/'] + PointerTo(names[1..])[1..]
  {
    var rest := PointerTo(names[1..]);
    assert rest[0] == '/' && rest == ['/'] + rest[1..];
  }

  lemma {:induction false} SplitPointer(names: seq<string>)
    requires names != []
    ensures Decoded(Split(PointerTo(names)[1..])) == names
  {
    var token := EncodeToken(names[0]);
    EncodeOnePass(names[0]);
    TokenRoundTrip(names[0]);
    if |names| == 1 {
      assert PointerTo(names)[1..] == token;
      SplitToken(token, []);
    } else {
      var rest := PointerTo(names[1..])[1..];
      PointerTail(names);
      SplitToken(token, rest);
      SplitPointer(names[1..]);
      DecodedCons(token, Split(rest));
      assert names == [names[0]] + names[1..];
    }
  }

  /** The pointer written for any path of names resolves to the node at that path. */
  lemma PointersResolve(root: Json, names: seq<string>)
    ensures IsLocal(['#'] + PointerTo(names)) && Target(root, ['#'] + PointerTo(names)) == Follow(root, names)
  {
    if names != [] {
      var ref := ['#'] + PointerTo(names);
      assert ref[2..] == PointerTo(names)[1..];
      SplitPointer(names);
    }
  }
}
