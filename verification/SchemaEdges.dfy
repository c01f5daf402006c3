/** The dialect at its edges: which keywords, types and reference chains the schema guard lets through. */
module SchemaEdges {
  import opened Options
  import opened JsonPointers
  import opened SchemaGuard

  lemma NoSchema(root: Json, node: Json, refs: nat, depth: nat)
    requires !node.Obj?
    ensures !Conforms(root, node, refs, depth)
  {
  }

  /** A document without sub-schemas is accepted exactly when its one node is in order. */
  lemma LeafAccepted(root: Json)
    requires root.Obj? && !RefNode(root) && InPlace(root.members) == {} && Values(root.members, "$defs") == {}
    ensures Accepts(root) <==> PlainNode(root) && ShapesOk(root.members)
  {
    GuardAcceptsExactly(root);
    if PlainNode(root) && ShapesOk(root.members) {
      assert Conforms(root, root, MAX_REFS, 1);
    }
  }

  /** A document that is no object, or whose walk does not get past its first node, is refused. */
  lemma FirstNodeRefused(root: Json)
    requires !RefNode(root) && !(PlainNode(root) && ShapesOk(root.members))
    ensures !Accepts(root)
  {
    GuardAcceptsExactly(root);
  }

  function One(name: string, value: Json): Json {
    Obj(map[name := value])
  }

  /** The keywords whose values the guard does not look at. */
  ghost predicate Unchecked(name: string) {
    name in {
      "enum", "const", "minLength", "maxLength", "pattern", "minimum", "maximum", "exclusiveMinimum", "exclusiveMaximum",
      "minItems", "maxItems", "uniqueItems",
      "title", "description", "default", "examples", "$comment", "$id", "$schema", "deprecated", "readOnly", "writeOnly"
    }
  }

  /** The keywords whose values it does. */
  ghost predicate Checked(name: string) {
    name in {"type", "required", "properties", "additionalProperties", "items", "$ref", "$defs"}
  }

  lemma KeywordSplits(name: string)
    ensures Keyword(name) <==> Unchecked(name) || Checked(name)
  {
  }

  /** Any value may stand under the twenty-two unchecked keywords; a null under anything else is refused. */
  lemma KeywordsExactly(name: string, value: Json)
    ensures Unchecked(name) ==> Accepts(One(name, value))
    ensures Accepts(One(name, Null)) <==> Unchecked(name)
  {
    KeywordSplits(name);
    if Unchecked(name) {
      UncheckedAccepted(name, value);
      UncheckedAccepted(name, Null);
    } else {
      NullRefused(name);
    }
  }

  lemma UncheckedAccepted(name: string, value: Json)
    requires Unchecked(name)
    ensures Accepts(One(name, value))
  {
    var root := One(name, value);
    KeywordSplits(name);
    UncheckedIsNotChecked(name);
    assert InDialect(root);
    LeafAccepted(root);
  }

  lemma UncheckedIsNotChecked(name: string)
    requires Unchecked(name)
    ensures !Checked(name)
  {
  }

  lemma NullRefused(name: string)
    requires !Unchecked(name)
    ensures !Accepts(One(name, Null))
  {
    var root := One(name, Null);
    KeywordSplits(name);
    assert name in root.members && !RefNode(root);
    if name == "additionalProperties" || name == "items" {
      PartRefused(root, Null);
    } else {
      FirstNodeRefused(root);
    }
  }

  /** A document with a sub-schema that is no schema is refused. */
  lemma PartRefused(root: Json, sub: Json)
    requires root.Obj? && "$ref" !in root.members && sub in InPlace(root.members) + Values(root.members, "$defs") && !sub.Obj?
    ensures !Accepts(root)
  {
    GuardAcceptsExactly(root);
    forall depth: nat ensures !Conforms(root, root, MAX_REFS, depth) {
      ConformsPlain(root, root, MAX_REFS, depth);
      if depth > 0 {
        NoSchema(root, sub, MAX_REFS, depth - 1);
      }
    }
  }

  /** Items are a schema; so is every property and definition, and additional properties that are no boolean. */
  lemma PartsAreSchemas(name: string, value: Json)
    requires !value.Obj?
    ensures !Accepts(One("items", value))
    ensures !Accepts(One("additionalProperties", value)) || value.Bool?
    ensures !Accepts(One("properties", One(name, value))) && !Accepts(One("$defs", One(name, value)))
  {
    assert value in Single(One("items", value).members, "items");
    PartRefused(One("items", value), value);
    if !value.Bool? {
      assert value in Single(One("additionalProperties", value).members, "additionalProperties");
      PartRefused(One("additionalProperties", value), value);
    }
    MemberRefused("properties", name, value);
    MemberRefused("$defs", name, value);
  }

  lemma MemberRefused(container: string, name: string, value: Json)
    requires container in {"properties", "$defs"} && !value.Obj?
    ensures !Accepts(One(container, One(name, value)))
  {
    var root := One(container, One(name, value));
    assert One(name, value).members[name] == value;
    assert value in Values(root.members, container);
    PartRefused(root, value);
  }

  ghost predicate JsonType(j: Json) {
    j.Str? && j.text in {"object", "array", "string", "integer", "number", "boolean", "null"}
  }

  /** A type is one of the seven names, or a nonempty array of distinct ones. */
  lemma TypesExactly(value: Json)
    ensures Accepts(One("type", value)) <==>
      || JsonType(value)
      || (value.Arr? && value.items != []
          && (forall i :: 0 <= i < |value.items| ==> JsonType(value.items[i]))
          && (forall i, k :: 0 <= i < k < |value.items| ==> value.items[i] != value.items[k]))
  {
    var root := One("type", value);
    KeywordSplits("type");
    assert Checked("type");
    assert InDialect(root);
    LeafAccepted(root);
  }

  /** The required names are an array of strings. */
  lemma RequiredExactly(value: Json)
    ensures Accepts(One("required", value)) <==> value.Arr? && forall i :: 0 <= i < |value.items| ==> value.items[i].Str?
  {
    var root := One("required", value);
    KeywordSplits("required");
    assert Checked("required");
    assert InDialect(root);
    LeafAccepted(root);
  }

  /** The containers of sub-schemas may be empty objects, and additional properties a boolean. */
  lemma EmptyParts(allow: bool)
    ensures Accepts(One("properties", Obj(map[]))) && Accepts(One("$defs", Obj(map[]))) && Accepts(One("additionalProperties", Bool(allow)))
  {
    EmptyContainer("properties");
    EmptyContainer("$defs");
    BooleanExtras(allow);
  }

  lemma EmptyContainer(name: string)
    requires name == "properties" || name == "$defs"
    ensures Accepts(One(name, Obj(map[])))
  {
    var root := One(name, Obj(map[]));
    KeywordSplits(name);
    assert Checked(name);
    assert InDialect(root);
    LeafAccepted(root);
  }

  lemma BooleanExtras(allow: bool)
    ensures Accepts(One("additionalProperties", Bool(allow)))
  {
    var root := One("additionalProperties", Bool(allow));
    KeywordSplits("additionalProperties");
    assert Checked("additionalProperties");
    assert InDialect(root);
    LeafAccepted(root);
  }

  /** A reference stands alone, and is "#" or begins with "#/". */
  lemma ReferencesStandAlone(root: Json)
    requires Accepts(root) && root.Obj? && "$ref" in root.members
    ensures exists ref :: root == One("$ref", Str(ref)) && (ref == "#" || (|ref| >= 2 && ref[0] == '#' && ref[1] == '/'))
  {
    ReferenceNode(root);
    var ref := Ref(root);
    OnlyKey(root.members, "$ref");
    assert root.members == map["$ref" := Str(ref)];
    LocalBegins(ref);
  }

  lemma ReferenceNode(root: Json)
    requires Accepts(root) && root.Obj? && "$ref" in root.members
    ensures RefNode(root)
  {
    if !RefNode(root) {
      FirstNodeRefused(root);
    }
  }

  lemma LocalBegins(ref: string)
    requires IsLocal(ref)
    ensures ref == "#" || (|ref| >= 2 && ref[0] == '#' && ref[1] == '/')
  {
  }

  lemma OnlyKey(m: map<string, Json>, name: string)
    requires |m| == 1 && name in m
    ensures m.Keys == {name}
  {
    forall other | other in m.Keys ensures other == name {
      if other != name {
        OnlyMember(m, name, other);
      }
    }
  }

  // Reference chains

  function Name(i: nat): string {
    seq(i, _ => 'x')
  }

  function RefTo(i: nat): string {
    ['#'] + PointerTo(["$defs", Name(i)])
  }

  /** Definition `i` refers to definition `i - 1`; the first is the empty schema. */
  function Link(i: nat): Json {
    if i == 0 then Obj(map[]) else One("$ref", Str(RefTo(i - 1)))
  }

  function Links(n: nat): map<string, Json> {
    if n == 0 then map[Name(0) := Link(0)] else Links(n - 1)[Name(n) := Link(n)]
  }

  /** A document whose definitions form a chain of `n` references. */
  function ChainOf(n: nat): Json {
    One("$defs", Obj(Links(n)))
  }

  lemma {:induction false} LinkAt(n: nat, i: nat)
    requires i <= n
    ensures Name(i) in Links(n) && Links(n)[Name(i)] == Link(i)
  {
    if i < n {
      LinkAt(n - 1, i);
      assert |Name(i)| != |Name(n)|;
    }
  }

  lemma {:induction false} OnlyLinks(n: nat, sub: Json)
    requires sub in Links(n).Values
    ensures exists i :: 0 <= i <= n && sub == Link(i)
  {
    if n > 0 && sub != Link(n) {
      OnlyLinks(n - 1, sub);
    } else {
      assert sub == Link(n);
    }
  }

  lemma LinkTarget(n: nat, i: nat)
    requires i <= n
    ensures IsLocal(RefTo(i)) && Target(ChainOf(n), RefTo(i)) == Some(Link(i))
  {
    LinkAt(n, i);
    PointersResolve(ChainOf(n), ["$defs", Name(i)]);
    assert ["$defs", Name(i)][1..] == [Name(i)];
    assert Follow(ChainOf(n), ["$defs", Name(i)]) == Follow(Obj(Links(n)), [Name(i)]) == Follow(Link(i), []);
  }

  lemma LinkIsRef(n: nat, i: nat)
    requires 0 < i <= n
    ensures RefNode(Link(i)) && Ref(Link(i)) == RefTo(i - 1)
  {
    LinkTarget(n, i - 1);
    assert Checked("$ref");
    KeywordSplits("$ref");
  }

  /** Each node but the first refers to the one before it; the first is the empty schema. */
  ghost predicate Chained(root: Json, nodes: seq<Json>) {
    && (forall i :: 0 < i < |nodes| ==> RefNode(nodes[i]) && Target(root, Ref(nodes[i])) == Some(nodes[i - 1]))
    && (nodes != [] ==> nodes[0] == Obj(map[]))
  }

  /** Node `i` of a chain needs `i` references. */
  lemma {:induction false} ChainConforms(root: Json, nodes: seq<Json>, i: nat, refs: nat, depth: nat)
    requires i < |nodes| && Chained(root, nodes)
    ensures Conforms(root, nodes[i], refs, depth) <==> i <= refs && i < depth
    decreases i
  {
    if i == 0 {
      EmptyConforms(root, refs, depth);
    } else {
      ConformsRef(root, nodes[i], refs, depth);
      if depth > 0 && refs > 0 {
        ChainConforms(root, nodes, i - 1, refs - 1, depth - 1);
      }
    }
  }

  lemma LinkFollows(n: nat, i: nat)
    requires 0 < i <= n
    ensures RefNode(Link(i)) && Target(ChainOf(n), Ref(Link(i))) == Some(Link(i - 1))
  {
    LinkIsRef(n, i);
    LinkTarget(n, i - 1);
  }

  lemma LinksChained(n: nat) returns (nodes: seq<Json>)
    ensures |nodes| == n + 1 && (forall i :: 0 <= i <= n ==> nodes[i] == Link(i)) && Chained(ChainOf(n), nodes)
  {
    nodes := seq(n + 1, (i: nat) => Link(i));
    forall i | 0 < i <= n ensures RefNode(nodes[i]) && Target(ChainOf(n), Ref(nodes[i])) == Some(nodes[i - 1]) {
      LinkFollows(n, i);
    }
  }

  lemma LinkConforms(n: nat, i: nat, refs: nat, depth: nat)
    requires i <= n
    ensures Conforms(ChainOf(n), Link(i), refs, depth) <==> i <= refs && i < depth
  {
    var nodes := LinksChained(n);
    ChainConforms(ChainOf(n), nodes, i, refs, depth);
  }

  lemma EmptyConforms(root: Json, refs: nat, depth: nat)
    ensures Conforms(root, Obj(map[]), refs, depth) <==> depth > 0
  {
    var node := Obj(map[]);
    assert InPlace(node.members) == {} && Values(node.members, "$defs") == {};
    assert PlainNode(node) && !RefNode(node);
    ConformsPlain(root, node, refs, depth);
  }

  lemma ChainIsPlain(n: nat)
    ensures var root := ChainOf(n);
      PlainNode(root) && !RefNode(root) && ShapesOk(root.members) && InPlace(root.members) == {} && Values(root.members, "$defs") == Links(n).Values
  {
    assert Checked("$defs");
    KeywordSplits("$defs");
  }

  lemma LongChainRefused(n: nat)
    requires n > 32
    ensures !Accepts(ChainOf(n))
  {
    var root := ChainOf(n);
    ChainIsPlain(n);
    GuardAcceptsExactly(root);
    LinkAt(n, n);
    assert Link(n) in Links(n).Values;
    forall depth: nat ensures !Conforms(root, root, MAX_REFS, depth) {
      if Conforms(root, root, MAX_REFS, depth) {
        ConformsPlain(root, root, MAX_REFS, depth);
        LinkConforms(n, n, MAX_REFS, depth - 1);
      }
    }
  }

  lemma LinksConform(n: nat)
    requires n <= 32
    ensures AllConform(ChainOf(n), Links(n).Values, MAX_REFS, n + 1)
  {
    forall sub | sub in Links(n).Values ensures Conforms(ChainOf(n), sub, MAX_REFS, n + 1) {
      OnlyLinks(n, sub);
      var i :| 0 <= i <= n && sub == Link(i);
      LinkConforms(n, i, MAX_REFS, n + 1);
    }
  }

  lemma ShortChainAccepted(n: nat)
    requires n <= 32
    ensures Accepts(ChainOf(n))
  {
    var root := ChainOf(n);
    ChainIsPlain(n);
    GuardAcceptsExactly(root);
    LinksConform(n);
    ConformsPlain(root, root, MAX_REFS, n + 2);
    assert Conforms(root, root, MAX_REFS, n + 2);
  }

  /** A chain of 32 references is accepted and no longer one. */
  lemma ChainsExactly(n: nat)
    ensures Accepts(ChainOf(n)) <==> n <= 32
  {
    if n <= 32 {
      ShortChainAccepted(n);
    } else {
      LongChainRefused(n);
    }
  }
}
