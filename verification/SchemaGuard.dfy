/** The asset-schema guard: a closed dialect, local references and their termination. */
module SchemaGuard {
  import opened Options
  import opened JsonPointers

  predicate Keyword(name: string) {
    name in {
      "type", "properties", "required", "additionalProperties", "items", "$ref", "enum", "const",
      "minLength", "maxLength", "pattern", "minimum", "maximum", "exclusiveMinimum", "exclusiveMaximum",
      "minItems", "maxItems", "uniqueItems"
    } || Annotation(name)
  }

  predicate Annotation(name: string) {
    name in {
      "title", "description", "default", "examples", "$comment", "$defs", "$id", "$schema",
      "deprecated", "readOnly", "writeOnly"
    }
  }

  const TYPES: set<string> := {"object", "array", "string", "integer", "number", "boolean", "null"}

  const MAX_REFS := 32

  // Checks on one node

  predicate TypeName(j: Json) {
    j.Str? && j.text in TYPES
  }

  /** A type name, or a nonempty array of distinct ones. */
  ghost predicate TypeOk(j: Json) {
    TypeName(j)
    || (j.Arr? && j.items != []
        && (forall i :: 0 <= i < |j.items| ==> TypeName(j.items[i]))
        && (forall i, k :: 0 <= i < k < |j.items| ==> j.items[i] != j.items[k]))
  }

  method ValidateTypeValue(j: Json) returns (ok: bool)
    ensures ok <==> TypeOk(j)
  {
    if !j.Arr? {
      return TypeName(j);
    }
    if j.items == [] {
      return false;
    }
    var seen: set<string> := {};
    var i := 0;
    while i < |j.items|
      invariant 0 <= i <= |j.items|
      invariant forall k :: 0 <= k < i ==> TypeName(j.items[k]) && j.items[k].text in seen
      invariant forall name :: name in seen ==> exists k :: 0 <= k < i && j.items[k] == Str(name)
      invariant forall k, l :: 0 <= k < l < i ==> j.items[k] != j.items[l]
    {
      var item := j.items[i];
      if !TypeName(item) || item.text in seen {
        return false;
      }
      seen := seen + {item.text};
      i := i + 1;
    }
    ok := true;
  }

  ghost predicate RequiredOk(j: Json) {
    j.Arr? && forall i :: 0 <= i < |j.items| ==> j.items[i].Str?
  }

  // The walk

  datatype Verdict = Accepted | Rejected | Unfinished

  /** Verdicts of members visited in an unspecified order: Unfinished as soon as some order runs on. */
  ghost function Together(verdicts: set<Verdict>): (r: Verdict)
    ensures r == Accepted <==> Rejected !in verdicts && Unfinished !in verdicts
    ensures r == Unfinished <==> Unfinished in verdicts
  {
    if Unfinished in verdicts then Unfinished else if Rejected in verdicts then Rejected else Accepted
  }

  function Then(first: Verdict, second: Verdict): Verdict {
    if first == Accepted then second else first
  }

  predicate InDialect(j: Json) {
    j.Obj? && forall name :: name in j.members ==> Keyword(name)
  }

  /** A node that is one local reference and nothing else. */
  predicate RefNode(j: Json) {
    InDialect(j) && "$ref" in j.members && |j.members| == 1 && j.members["$ref"].Str? && IsLocal(j.members["$ref"].text)
  }

  function Ref(j: Json): (ref: string)
    requires RefNode(j)
    ensures IsLocal(ref)
  {
    j.members["$ref"].text
  }

  /** Any other node that passes the checks before the first descent. */
  ghost predicate PlainNode(j: Json) {
    && InDialect(j) && "$ref" !in j.members
    && ("type" in j.members ==> TypeOk(j.members["type"]))
    && ("required" in j.members ==> RequiredOk(j.members["required"]))
  }

  /** The walk from `node`, having followed the references in `chain`, at most `fuel` schema nodes deep. */
  ghost function WalkSchema(root: Json, node: Json, chain: set<string>, fuel: nat): Verdict
    decreases fuel, 2
  {
    if fuel == 0 then Unfinished
    else if RefNode(node) then WalkRef(root, Ref(node), chain, fuel)
    else if PlainNode(node) then WalkParts(root, node.members, chain, fuel)
    else Rejected
  }

  ghost function WalkParts(root: Json, m: map<string, Json>, chain: set<string>, fuel: nat): Verdict
    requires fuel > 0
    decreases fuel, 1
  {
    Then(WalkMembers(root, m, "properties", chain, fuel),
         Then(WalkOptional(root, m, "additionalProperties", chain, fuel),
              Then(WalkOptional(root, m, "items", chain, fuel),
                   WalkMembers(root, m, "$defs", {}, fuel))))
  }

  /** The schemas under `properties` or `$defs`. */
  ghost function WalkMembers(root: Json, m: map<string, Json>, name: string, chain: set<string>, fuel: nat): Verdict
    requires fuel > 0
    decreases fuel, 0
  {
    if name !in m then Accepted
    else if !m[name].Obj? then Rejected
    else Together(set sub | sub in m[name].members.Values :: WalkSchema(root, sub, chain, fuel - 1))
  }

  /** The one schema under `items` or `additionalProperties`, which may also be a boolean. */
  ghost function WalkOptional(root: Json, m: map<string, Json>, name: string, chain: set<string>, fuel: nat): Verdict
    requires fuel > 0
    decreases fuel, 0
  {
    if name in m && !(name == "additionalProperties" && m[name].Bool?) then WalkSchema(root, m[name], chain, fuel - 1) else Accepted
  }

  ghost function WalkRef(root: Json, ref: string, chain: set<string>, fuel: nat): Verdict
    requires fuel > 0 && IsLocal(ref)
    decreases fuel, 0
  {
    if ref in chain || |chain| >= MAX_REFS || Target(root, ref).None? then Rejected
    else WalkSchema(root, Target(root, ref).value, chain + {ref}, fuel - 1)
  }

  ghost function Guard(root: Json, fuel: nat): Verdict {
    WalkSchema(root, root, {}, fuel)
  }

  // What the parts of a node contribute

  ghost function Values(m: map<string, Json>, name: string): set<Json> {
    if name in m && m[name].Obj? then m[name].members.Values else {}
  }

  ghost function Single(m: map<string, Json>, name: string): set<Json> {
    if name in m && !(name == "additionalProperties" && m[name].Bool?) then {m[name]} else {}
  }

  /** The sub-schemas that continue their node's reference chain. */
  ghost function InPlace(m: map<string, Json>): set<Json> {
    Values(m, "properties") + Single(m, "additionalProperties") + Single(m, "items")
  }

  ghost predicate ShapesOk(m: map<string, Json>) {
    ("properties" in m ==> m["properties"].Obj?) && ("$defs" in m ==> m["$defs"].Obj?)
  }

  ghost predicate AllAccepted(root: Json, subs: set<Json>, chain: set<string>, fuel: nat) {
    forall sub :: sub in subs ==> WalkSchema(root, sub, chain, fuel) == Accepted
  }

  ghost predicate AllFinished(root: Json, subs: set<Json>, chain: set<string>, fuel: nat) {
    forall sub :: sub in subs ==> WalkSchema(root, sub, chain, fuel) != Unfinished
  }

  lemma MembersVerdict(root: Json, m: map<string, Json>, name: string, chain: set<string>, fuel: nat)
    requires fuel > 0
    ensures WalkMembers(root, m, name, chain, fuel) == Accepted <==>
      (name in m ==> m[name].Obj?) && AllAccepted(root, Values(m, name), chain, fuel - 1)
    ensures AllFinished(root, Values(m, name), chain, fuel - 1) ==> WalkMembers(root, m, name, chain, fuel) != Unfinished
  {
    if name in m && m[name].Obj? {
      var verdicts := set sub | sub in m[name].members.Values :: WalkSchema(root, sub, chain, fuel - 1);
      forall sub | sub in m[name].members.Values ensures WalkSchema(root, sub, chain, fuel - 1) in verdicts {
      }
    }
  }

  /** A node's parts are accepted exactly when each is, and finish when each does. */
  lemma PartsVerdict(root: Json, m: map<string, Json>, chain: set<string>, fuel: nat)
    requires fuel > 0
    ensures WalkParts(root, m, chain, fuel) == Accepted <==>
      ShapesOk(m) && AllAccepted(root, InPlace(m), chain, fuel - 1) && AllAccepted(root, Values(m, "$defs"), {}, fuel - 1)
    ensures AllFinished(root, InPlace(m), chain, fuel - 1) && AllFinished(root, Values(m, "$defs"), {}, fuel - 1) ==>
      WalkParts(root, m, chain, fuel) != Unfinished
  {
    MembersVerdict(root, m, "properties", chain, fuel);
    MembersVerdict(root, m, "$defs", {}, fuel);
  }

  // A finished walk's verdict does not depend on the bound

  lemma {:induction false} VerdictStable(root: Json, node: Json, chain: set<string>, fuel: nat)
    requires WalkSchema(root, node, chain, fuel) != Unfinished
    ensures WalkSchema(root, node, chain, fuel + 1) == WalkSchema(root, node, chain, fuel)
    decreases fuel, 2
  {
    if RefNode(node) {
      var ref := Ref(node);
      if ref !in chain && |chain| < MAX_REFS && Target(root, ref).Some? {
        VerdictStable(root, Target(root, ref).value, chain + {ref}, fuel - 1);
      }
    } else if PlainNode(node) {
      PartsStable(root, node.members, chain, fuel);
    }
  }

  lemma MembersStable(root: Json, m: map<string, Json>, name: string, chain: set<string>, fuel: nat)
    requires fuel > 0 && WalkMembers(root, m, name, chain, fuel) != Unfinished
    ensures WalkMembers(root, m, name, chain, fuel + 1) == WalkMembers(root, m, name, chain, fuel)
    decreases fuel, 0
  {
    if name in m && m[name].Obj? {
      var subs := m[name].members.Values;
      var verdicts := set sub | sub in subs :: WalkSchema(root, sub, chain, fuel - 1);
      forall sub | sub in subs ensures WalkSchema(root, sub, chain, fuel) == WalkSchema(root, sub, chain, fuel - 1) {
        assert WalkSchema(root, sub, chain, fuel - 1) in verdicts;
        VerdictStable(root, sub, chain, fuel - 1);
      }
      assert verdicts == set sub | sub in subs :: WalkSchema(root, sub, chain, fuel);
    }
  }

  lemma OptionalStable(root: Json, m: map<string, Json>, name: string, chain: set<string>, fuel: nat)
    requires fuel > 0 && WalkOptional(root, m, name, chain, fuel) != Unfinished
    ensures WalkOptional(root, m, name, chain, fuel + 1) == WalkOptional(root, m, name, chain, fuel)
    decreases fuel, 0
  {
    if name in m && !(name == "additionalProperties" && m[name].Bool?) {
      VerdictStable(root, m[name], chain, fuel - 1);
    }
  }

  lemma PartsStable(root: Json, m: map<string, Json>, chain: set<string>, fuel: nat)
    requires fuel > 0 && WalkParts(root, m, chain, fuel) != Unfinished
    ensures WalkParts(root, m, chain, fuel + 1) == WalkParts(root, m, chain, fuel)
    decreases fuel, 1
  {
    MembersStable(root, m, "properties", chain, fuel);
    if WalkMembers(root, m, "properties", chain, fuel) == Accepted {
      OptionalStable(root, m, "additionalProperties", chain, fuel);
      if WalkOptional(root, m, "additionalProperties", chain, fuel) == Accepted {
        OptionalStable(root, m, "items", chain, fuel);
        if WalkOptional(root, m, "items", chain, fuel) == Accepted {
          MembersStable(root, m, "$defs", {}, fuel);
        }
      }
    }
  }

  /** Two finished walks of a document agree. */
  lemma {:induction false} GuardStable(root: Json, fuel: nat, more: nat)
    requires Guard(root, fuel) != Unfinished && fuel <= more
    ensures Guard(root, more) == Guard(root, fuel)
    decreases more - fuel
  {
    if fuel < more {
      VerdictStable(root, root, {}, fuel);
      GuardStable(root, fuel + 1, more);
    }
  }

  // What is accepted

  /** The document's unfolding from `node` is a tree at most `depth` deep, every schema in it is in the dialect,
      and no path follows more than `refs` references, counting afresh below each $defs. */
  ghost predicate Conforms(root: Json, node: Json, refs: nat, depth: nat)
    decreases depth, 0
  {
    && depth > 0
    && if RefNode(node) then
         && refs > 0 && Target(root, Ref(node)).Some?
         && Conforms(root, Target(root, Ref(node)).value, refs - 1, depth - 1)
       else
         && PlainNode(node) && ShapesOk(node.members)
         && PartsConform(root, node.members, refs, depth - 1)
  }

  ghost predicate PartsConform(root: Json, m: map<string, Json>, refs: nat, depth: nat)
    decreases depth, 2
  {
    AllConform(root, InPlace(m), refs, depth) && AllConform(root, Values(m, "$defs"), MAX_REFS, depth)
  }

  ghost predicate AllConform(root: Json, subs: set<Json>, refs: nat, depth: nat)
    decreases depth, 1
  {
    forall sub :: sub in subs ==> Conforms(root, sub, refs, depth)
  }

  lemma ConformsRef(root: Json, node: Json, refs: nat, depth: nat)
    requires RefNode(node)
    ensures Conforms(root, node, refs, depth) <==>
      depth > 0 && refs > 0 && Target(root, Ref(node)).Some? && Conforms(root, Target(root, Ref(node)).value, refs - 1, depth - 1)
  {
  }

  lemma ConformsPlain(root: Json, node: Json, refs: nat, depth: nat)
    requires !RefNode(node)
    ensures Conforms(root, node, refs, depth) <==>
      && depth > 0 && PlainNode(node) && ShapesOk(node.members)
      && AllConform(root, InPlace(node.members), refs, depth - 1) && AllConform(root, Values(node.members, "$defs"), MAX_REFS, depth - 1)
  {
    if depth > 0 && PlainNode(node) && ShapesOk(node.members) {
      assert PartsConform(root, node.members, refs, depth - 1) <==>
        AllConform(root, InPlace(node.members), refs, depth - 1) && AllConform(root, Values(node.members, "$defs"), MAX_REFS, depth - 1);
    }
  }

  lemma {:induction false} ConformsMore(root: Json, node: Json, refs: nat, depth: nat, refs2: nat, depth2: nat)
    requires Conforms(root, node, refs, depth) && refs <= refs2 && depth <= depth2
    ensures Conforms(root, node, refs2, depth2)
    decreases depth, 0
  {
    if RefNode(node) {
      ConformsMore(root, Target(root, Ref(node)).value, refs - 1, depth - 1, refs2 - 1, depth2 - 1);
    } else {
      PartsConformMore(root, node.members, refs, depth - 1, refs2, depth2 - 1);
    }
  }

  lemma PartsConformMore(root: Json, m: map<string, Json>, refs: nat, depth: nat, refs2: nat, depth2: nat)
    requires PartsConform(root, m, refs, depth) && refs <= refs2 && depth <= depth2
    ensures PartsConform(root, m, refs2, depth2)
    decreases depth, 2
  {
    AllConformMore(root, InPlace(m), refs, depth, refs2, depth2);
    AllConformMore(root, Values(m, "$defs"), MAX_REFS, depth, MAX_REFS, depth2);
  }

  lemma AllConformMore(root: Json, subs: set<Json>, refs: nat, depth: nat, refs2: nat, depth2: nat)
    requires AllConform(root, subs, refs, depth) && refs <= refs2 && depth <= depth2
    ensures AllConform(root, subs, refs2, depth2)
    decreases depth, 1
  {
    forall sub | sub in subs ensures Conforms(root, sub, refs2, depth2) {
      ConformsMore(root, sub, refs, depth, refs2, depth2);
    }
  }

  /** An accepted walk has seen a finite unfolding in the dialect. */
  lemma {:induction false} AcceptedConforms(root: Json, node: Json, chain: set<string>, fuel: nat)
    requires |chain| <= MAX_REFS && WalkSchema(root, node, chain, fuel) == Accepted
    ensures Conforms(root, node, MAX_REFS - |chain|, fuel)
    decreases fuel, 0
  {
    if RefNode(node) {
      AcceptedConforms(root, Target(root, Ref(node)).value, chain + {Ref(node)}, fuel - 1);
    } else {
      PartsAcceptedConform(root, node.members, chain, fuel);
    }
  }

  lemma PartsAcceptedConform(root: Json, m: map<string, Json>, chain: set<string>, fuel: nat)
    requires fuel > 0 && |chain| <= MAX_REFS && WalkParts(root, m, chain, fuel) == Accepted
    ensures ShapesOk(m) && PartsConform(root, m, MAX_REFS - |chain|, fuel - 1)
    decreases fuel - 1, 2
  {
    PartsVerdict(root, m, chain, fuel);
    AllAcceptedConform(root, InPlace(m), chain, fuel - 1);
    AllAcceptedConform(root, Values(m, "$defs"), {}, fuel - 1);
  }

  lemma AllAcceptedConform(root: Json, subs: set<Json>, chain: set<string>, fuel: nat)
    requires |chain| <= MAX_REFS && AllAccepted(root, subs, chain, fuel)
    ensures AllConform(root, subs, MAX_REFS - |chain|, fuel)
    decreases fuel, 1
  {
    forall sub | sub in subs ensures Conforms(root, sub, MAX_REFS - |chain|, fuel) {
      AcceptedConforms(root, sub, chain, fuel);
    }
  }

  /** The targets of the references followed so far unfold deeper than `depth`. */
  ghost predicate Deeper(root: Json, chain: set<string>, depth: nat) {
    forall ref :: ref in chain ==>
      IsLocal(ref) && Target(root, ref).Some? && !Conforms(root, Target(root, ref).value, MAX_REFS, depth)
  }

  lemma DeeperStill(root: Json, chain: set<string>, depth: nat, less: nat)
    requires Deeper(root, chain, depth) && less <= depth
    ensures Deeper(root, chain, less)
  {
    forall ref | ref in chain ensures !Conforms(root, Target(root, ref).value, MAX_REFS, less) {
      if Conforms(root, Target(root, ref).value, MAX_REFS, less) {
        ConformsMore(root, Target(root, ref).value, MAX_REFS, less, MAX_REFS, depth);
      }
    }
  }

  lemma {:induction false} Shallowest(root: Json, node: Json, refs: nat, depth: nat) returns (least: nat)
    requires Conforms(root, node, refs, depth)
    ensures 0 < least <= depth && Conforms(root, node, refs, least) && !Conforms(root, node, refs, least - 1)
    decreases depth
  {
    if Conforms(root, node, refs, depth - 1) {
      least := Shallowest(root, node, refs, depth - 1);
    } else {
      least := depth;
    }
  }

  /** A finite unfolding never meets a reference it is already below, so the walk accepts it. */
  lemma {:induction false} ConformsAccepted(root: Json, node: Json, chain: set<string>, least: nat, depth: nat)
    requires |chain| <= MAX_REFS && Conforms(root, node, MAX_REFS - |chain|, depth)
    requires least > 0 && Conforms(root, node, MAX_REFS, least) && Deeper(root, chain, least - 1)
    ensures WalkSchema(root, node, chain, depth) == Accepted
    decreases depth, 0
  {
    if RefNode(node) {
      ConformsRef(root, node, MAX_REFS - |chain|, depth);
      ConformsRef(root, node, MAX_REFS, least);
      RefConformsAccepted(root, Ref(node), Target(root, Ref(node)).value, chain, least, depth);
    } else {
      ConformsPlain(root, node, MAX_REFS - |chain|, depth);
      ConformsPlain(root, node, MAX_REFS, least);
      PartsConformAccepted(root, node.members, chain, least - 1, depth);
    }
  }

  lemma RefConformsAccepted(root: Json, ref: string, target: Json, chain: set<string>, least: nat, depth: nat)
    requires depth > 0 && |chain| < MAX_REFS && IsLocal(ref) && Target(root, ref) == Some(target)
    requires Conforms(root, target, MAX_REFS - |chain| - 1, depth - 1)
    requires least > 0 && Conforms(root, target, MAX_REFS - 1, least - 1) && Deeper(root, chain, least - 1)
    ensures ref !in chain && WalkSchema(root, target, chain + {ref}, depth - 1) == Accepted
    decreases depth - 1, 2
  {
    var next := FollowedDeeper(root, ref, target, chain, least - 1);
    assert |chain + {ref}| == |chain| + 1;
    ConformsAccepted(root, target, chain + {ref}, next, depth - 1);
  }

  /** The reference is new, and everything followed so far, itself included, unfolds at least as deep as its target. */
  lemma FollowedDeeper(root: Json, ref: string, target: Json, chain: set<string>, depth: nat) returns (next: nat)
    requires IsLocal(ref) && Target(root, ref) == Some(target)
    requires Conforms(root, target, MAX_REFS - 1, depth) && Deeper(root, chain, depth)
    ensures ref !in chain && 0 < next <= depth
    ensures Conforms(root, target, MAX_REFS, next) && Deeper(root, chain + {ref}, next - 1)
  {
    ConformsMore(root, target, MAX_REFS - 1, depth, MAX_REFS, depth);
    next := Shallowest(root, target, MAX_REFS, depth);
    DeeperStill(root, chain, depth, next - 1);
    DeeperHere(root, chain, ref, target, next - 1);
  }

  lemma DeeperHere(root: Json, chain: set<string>, ref: string, target: Json, depth: nat)
    requires Deeper(root, chain, depth) && IsLocal(ref) && Target(root, ref) == Some(target)
    requires !Conforms(root, target, MAX_REFS, depth)
    ensures Deeper(root, chain + {ref}, depth)
  {
  }

  lemma PartsConformAccepted(root: Json, m: map<string, Json>, chain: set<string>, least: nat, depth: nat)
    requires depth > 0 && |chain| <= MAX_REFS && ShapesOk(m) && PartsConform(root, m, MAX_REFS - |chain|, depth - 1)
    requires PartsConform(root, m, MAX_REFS, least) && Deeper(root, chain, least)
    ensures WalkParts(root, m, chain, depth) == Accepted
    decreases depth - 1, 2
  {
    AllConformAccepted(root, InPlace(m), chain, least, depth - 1);
    AllConformAccepted(root, Values(m, "$defs"), {}, least, depth - 1);
    PartsVerdict(root, m, chain, depth);
  }

  lemma AllConformAccepted(root: Json, subs: set<Json>, chain: set<string>, least: nat, depth: nat)
    requires |chain| <= MAX_REFS && AllConform(root, subs, MAX_REFS - |chain|, depth)
    requires AllConform(root, subs, MAX_REFS, least) && Deeper(root, chain, least)
    ensures AllAccepted(root, subs, chain, depth)
    decreases depth, 1
  {
    forall sub | sub in subs ensures WalkSchema(root, sub, chain, depth) == Accepted {
      assert Conforms(root, sub, MAX_REFS, least);
      DeeperStill(root, chain, least, least - 1);
      ConformsAccepted(root, sub, chain, least, depth);
    }
  }

  ghost predicate Accepts(root: Json) {
    exists fuel: nat :: Guard(root, fuel) == Accepted
  }

  ghost predicate UnfoldsInDialect(root: Json) {
    exists depth: nat :: Conforms(root, root, MAX_REFS, depth)
  }

  /** The guard accepts exactly the documents with a finite unfolding in the dialect that nests at most
      32 references between one $defs and the next. */
  lemma GuardAcceptsExactly(root: Json)
    ensures Accepts(root) <==> UnfoldsInDialect(root)
  {
    if Accepts(root) {
      var fuel: nat :| Guard(root, fuel) == Accepted;
      AcceptedConforms(root, root, {}, fuel);
    }
    if UnfoldsInDialect(root) {
      var depth: nat :| Conforms(root, root, MAX_REFS, depth);
      var least := Shallowest(root, root, MAX_REFS, depth);
      ConformsAccepted(root, root, {}, least, depth);
      assert Guard(root, depth) == Accepted;
    }
  }

  // Termination

  ghost function UpperBound(s: set<nat>): (r: nat)
    ensures forall x :: x in s ==> x <= r
  {
    if s == {} then 0 else
    var x :| x in s;
    var rest := UpperBound(s - {x});
    assert forall y :: y in s ==> y == x || y in s - {x};
    if x < rest then rest else x
  }

  /** Object nesting. */
  ghost function Height(j: Json): nat {
    if j.Obj? then 1 + UpperBound(set name | name in j.members :: Height(j.members[name])) else 0
  }

  /** No object in `j` has a $defs member. */
  ghost predicate NoDefs(j: Json) {
    j.Obj? ==> "$defs" !in j.members && forall name :: name in j.members ==> NoDefs(j.members[name])
  }

  /** No object in `j` refers to the whole document. */
  ghost predicate NoRootRef(j: Json) {
    j.Obj? ==>
      && !("$ref" in j.members && j.members["$ref"] == Str("#"))
      && forall name :: name in j.members ==> NoRootRef(j.members[name])
  }

  /** $defs only at the root and, if it is there, no reference to the root. */
  ghost predicate InDomain(root: Json) {
    root.Obj? ==>
      && (forall name :: name in root.members ==> NoDefs(root.members[name]))
      && ("$defs" in root.members ==> NoRootRef(root))
  }

  lemma MemberHeight(j: Json, name: string)
    requires j.Obj? && name in j.members
    ensures Height(j.members[name]) < Height(j)
  {
    var heights := set n | n in j.members :: Height(j.members[n]);
    assert Height(j.members[name]) in heights;
  }

  /** Following names only goes down. */
  lemma {:induction false} FollowDown(j: Json, names: seq<string>)
    requires Follow(j, names).Some?
    ensures var target := Follow(j, names).value;
      Height(target) <= Height(j) && (NoDefs(j) ==> NoDefs(target)) && (NoRootRef(j) ==> NoRootRef(target))
  {
    if names != [] {
      MemberHeight(j, names[0]);
      FollowDown(j.members[names[0]], names[1..]);
    }
  }

  lemma TargetInDomain(root: Json, ref: string)
    requires InDomain(root) && IsLocal(ref) && Target(root, ref).Some? && (ref == "#" ==> NoDefs(root))
    ensures var target := Target(root, ref).value;
      Height(target) <= Height(root) && NoDefs(target) && (NoDefs(root) || NoRootRef(target))
  {
    if ref != "#" {
      var names := Decoded(Split(ref[2..]));
      FollowDown(root, names);
      FollowDown(root.members[names[0]], names[1..]);
    }
  }

  /** Every sub-schema lies strictly below its node. */
  lemma PartsBelow(node: Json, sub: Json)
    requires node.Obj? && sub in InPlace(node.members) + Values(node.members, "$defs")
    ensures Height(sub) < Height(node)
    ensures (forall name :: name in node.members ==> NoDefs(node.members[name])) ==> NoDefs(sub)
    ensures NoRootRef(node) ==> NoRootRef(sub)
  {
    var m := node.members;
    if sub in Values(m, "properties") {
      ValueBelow(node, "properties", sub);
    } else if sub in Values(m, "$defs") {
      ValueBelow(node, "$defs", sub);
    } else {
      var name := if sub in Single(m, "items") then "items" else "additionalProperties";
      MemberHeight(node, name);
      assert sub == m[name];
    }
  }

  lemma ValueBelow(node: Json, name: string, sub: Json)
    requires node.Obj? && sub in Values(node.members, name)
    ensures Height(sub) < Height(node)
    ensures (forall n :: n in node.members ==> NoDefs(node.members[n])) ==> NoDefs(sub)
    ensures NoRootRef(node) ==> NoRootRef(sub)
  {
    var inner := node.members[name];
    var key :| key in inner.members && inner.members[key] == sub;
    MemberHeight(node, name);
    MemberHeight(inner, key);
    assert NoRootRef(node) ==> NoRootRef(inner);
  }

  /** Enough for `left` more references into a document of height `top`. */
  ghost function Budget(top: nat, left: nat): nat {
    if left == 0 then 0 else Budget(top, left - 1) + top + 1
  }

  /** References left to follow come first, then the height left in this node. */
  ghost predicate Fueled(root: Json, node: Json, followed: nat, fuel: nat) {
    followed <= MAX_REFS && fuel > Budget(Height(root), MAX_REFS - followed) + Height(node)
  }

  lemma FueledBelow(root: Json, node: Json, sub: Json, followed: nat, fuel: nat)
    requires Fueled(root, node, followed, fuel) && Height(sub) < Height(node)
    ensures fuel > 0 && Fueled(root, sub, followed, fuel - 1)
  {
  }

  lemma FueledTarget(root: Json, node: Json, target: Json, followed: nat, fuel: nat)
    requires Fueled(root, node, followed, fuel) && Height(target) <= Height(root) && followed < MAX_REFS
    ensures fuel > 0 && Fueled(root, target, followed + 1, fuel - 1)
  {
  }

  lemma {:induction false} WalkFinishes(root: Json, node: Json, chain: set<string>, fuel: nat)
    requires InDomain(root) && |chain| <= MAX_REFS && NoDefs(node) && (NoDefs(root) || NoRootRef(node))
    requires Fueled(root, node, |chain|, fuel)
    ensures WalkSchema(root, node, chain, fuel) != Unfinished
    decreases fuel, 1
  {
    if RefNode(node) {
      if Ref(node) !in chain && |chain| < MAX_REFS && Target(root, Ref(node)).Some? {
        RefFinishes(root, node, chain, fuel);
      }
    } else if PlainNode(node) {
      PartsFinish(root, node, chain, fuel);
    }
  }

  lemma PartsFinish(root: Json, node: Json, chain: set<string>, fuel: nat)
    requires InDomain(root) && |chain| <= MAX_REFS && NoDefs(node) && (NoDefs(root) || NoRootRef(node))
    requires Fueled(root, node, |chain|, fuel) && PlainNode(node)
    ensures WalkParts(root, node.members, chain, fuel) != Unfinished
    decreases fuel, 0
  {
    forall sub | sub in InPlace(node.members) ensures WalkSchema(root, sub, chain, fuel - 1) != Unfinished {
      PartFinishes(root, node, sub, chain, fuel);
    }
    PartsVerdict(root, node.members, chain, fuel);
  }

  lemma PartFinishes(root: Json, node: Json, sub: Json, chain: set<string>, fuel: nat)
    requires InDomain(root) && |chain| <= MAX_REFS && NoDefs(node) && (NoDefs(root) || NoRootRef(node))
    requires Fueled(root, node, |chain|, fuel) && node.Obj? && sub in InPlace(node.members)
    ensures WalkSchema(root, sub, chain, fuel - 1) != Unfinished
    decreases fuel - 1, 2
  {
    PartsBelow(node, sub);
    FueledBelow(root, node, sub, |chain|, fuel);
    WalkFinishes(root, sub, chain, fuel - 1);
  }

  lemma RefFinishes(root: Json, node: Json, chain: set<string>, fuel: nat)
    requires InDomain(root) && |chain| < MAX_REFS && RefNode(node) && (NoDefs(root) || NoRootRef(node))
    requires Ref(node) !in chain && Target(root, Ref(node)).Some? && Fueled(root, node, |chain|, fuel)
    ensures WalkSchema(root, Target(root, Ref(node)).value, chain + {Ref(node)}, fuel - 1) != Unfinished
    decreases fuel - 1, 2
  {
    var target := Target(root, Ref(node)).value;
    TargetInDomain(root, Ref(node));
    FueledTarget(root, node, target, |chain|, fuel);
    WalkFinishes(root, target, chain + {Ref(node)}, fuel - 1);
  }

  ghost function Enough(root: Json): nat {
    Budget(Height(root), MAX_REFS) + Height(root) + 1
  }

  /** In the domain every walk ends, whatever order it visits members in. */
  lemma GuardTerminates(root: Json)
    requires InDomain(root)
    ensures Guard(root, Enough(root)) != Unfinished
  {
    var fuel := Enough(root);
    if NoDefs(root) {
      WalkFinishes(root, root, {}, fuel);
    } else if RefNode(root) {
      OnlyMember(root.members, "$ref", "$defs");
    } else if PlainNode(root) {
      forall sub | sub in InPlace(root.members) + Values(root.members, "$defs")
        ensures WalkSchema(root, sub, {}, fuel - 1) != Unfinished
      {
        PartsBelow(root, sub);
        WalkFinishes(root, sub, {}, fuel - 1);
      }
      PartsVerdict(root, root.members, {}, fuel);
    }
  }

  lemma OnlyMember(m: map<string, Json>, only: string, other: string)
    requires |m| == 1 && only in m && only != other
    ensures other !in m
  {
    if other in m {
      assert |{only, other}| == 2 && {only, other} <= m.Keys;
      Subsets({only, other}, m.Keys);
    }
  }

  lemma Subsets(a: set<string>, b: set<string>)
    requires a <= b
    ensures |a| <= |b|
  {
    assert b == a + (b - a);
  }
}
