/** When the schema guard ends: exactly when no schema's walk on a fresh chain comes back to it on a fresh chain. */
module SchemaTermination {
  import opened Options
  import opened JsonPointers
  import opened SchemaGuard

  /** A schema about to be walked, with the references followed so far. */
  datatype Config = Config(node: Json, chain: set<string>)

  // The parts of a node, in the order they are walked

  ghost function WalkPart(root: Json, c: Config, k: nat, fuel: nat): Verdict
    requires fuel > 0 && c.node.Obj?
  {
    match k
    case 0 => WalkMembers(root, c.node.members, "properties", c.chain, fuel)
    case 1 => WalkOptional(root, c.node.members, "additionalProperties", c.chain, fuel)
    case 2 => WalkOptional(root, c.node.members, "items", c.chain, fuel)
    case _ => WalkMembers(root, c.node.members, "$defs", {}, fuel)
  }

  ghost function PartSubs(node: Json, k: nat): set<Json>
    requires node.Obj?
  {
    match k
    case 0 => Values(node.members, "properties")
    case 1 => Single(node.members, "additionalProperties")
    case 2 => Single(node.members, "items")
    case _ => Values(node.members, "$defs")
  }

  /** Only the $defs entries start a fresh chain. */
  function PartChain(c: Config, k: nat): set<string> {
    if k == 3 then {} else c.chain
  }

  /** The walk of the part ends in acceptance. */
  ghost predicate PartAccepted(root: Json, c: Config, k: nat)
    requires c.node.Obj?
  {
    exists fuel: nat :: fuel > 0 && WalkPart(root, c, k, fuel) == Accepted
  }

  /** The walk follows `c`'s reference to `d`. */
  ghost predicate VisitsTarget(root: Json, c: Config, d: Config) {
    && RefNode(c.node) && Ref(c.node) !in c.chain && |c.chain| < MAX_REFS
    && Target(root, Ref(c.node)) == Some(d.node) && d.chain == c.chain + {Ref(c.node)}
  }

  /** The walk of `c` accepts every part before `k` and then walks `d` in part `k`. */
  ghost predicate VisitsPart(root: Json, c: Config, d: Config, k: nat) {
    && k < 4 && PlainNode(c.node) && d.node in PartSubs(c.node, k) && d.chain == PartChain(c, k)
    && forall j :: 0 <= j < k ==> PartAccepted(root, c, j)
  }

  ghost predicate Visits(root: Json, c: Config, d: Config) {
    VisitsTarget(root, c, d) || exists k: nat :: VisitsPart(root, c, d, k)
  }

  ghost predicate Path(root: Json, path: seq<Config>) {
    path != [] && forall i :: 0 <= i < |path| - 1 ==> Visits(root, path[i], path[i + 1])
  }

  // A walk runs out of fuel exactly when it has a path that long

  lemma {:induction false} PartStays(root: Json, c: Config, k: nat, fuel: nat, more: nat)
    requires 0 < fuel <= more && c.node.Obj? && WalkPart(root, c, k, fuel) != Unfinished
    ensures WalkPart(root, c, k, more) == WalkPart(root, c, k, fuel)
    decreases more - fuel
  {
    if fuel < more {
      PartStep(root, c, k, fuel);
      PartStays(root, c, k, fuel + 1, more);
    }
  }

  lemma PartStep(root: Json, c: Config, k: nat, fuel: nat)
    requires fuel > 0 && c.node.Obj? && WalkPart(root, c, k, fuel) != Unfinished
    ensures WalkPart(root, c, k, fuel + 1) == WalkPart(root, c, k, fuel)
  {
    match k
    case 0 => MembersStable(root, c.node.members, "properties", c.chain, fuel);
    case 1 => OptionalStable(root, c.node.members, "additionalProperties", c.chain, fuel);
    case 2 => OptionalStable(root, c.node.members, "items", c.chain, fuel);
    case _ => MembersStable(root, c.node.members, "$defs", {}, fuel);
  }

  /** A part that ends in acceptance is never rejected on the way. */
  lemma AcceptedNotRejected(root: Json, c: Config, k: nat, fuel: nat)
    requires fuel > 0 && c.node.Obj? && PartAccepted(root, c, k)
    ensures WalkPart(root, c, k, fuel) != Rejected
  {
    var f: nat :| f > 0 && WalkPart(root, c, k, f) == Accepted;
    if WalkPart(root, c, k, fuel) == Rejected {
      PartStays(root, c, k, fuel, if f < fuel then fuel else f);
      PartStays(root, c, k, f, if f < fuel then fuel else f);
    }
  }

  lemma MemberRunsOn(root: Json, m: map<string, Json>, name: string, chain: set<string>, fuel: nat, sub: Json)
    requires fuel > 0 && sub in Values(m, name) && WalkSchema(root, sub, chain, fuel - 1) == Unfinished
    ensures WalkMembers(root, m, name, chain, fuel) == Unfinished
  {
    var verdicts := set s | s in m[name].members.Values :: WalkSchema(root, s, chain, fuel - 1);
    assert WalkSchema(root, sub, chain, fuel - 1) in verdicts;
  }

  /** One unfinished sub-schema leaves its part unfinished. */
  lemma PartRunsOn(root: Json, c: Config, d: Config, k: nat, fuel: nat)
    requires fuel > 0 && c.node.Obj? && k < 4 && d.node in PartSubs(c.node, k) && d.chain == PartChain(c, k)
    requires WalkSchema(root, d.node, d.chain, fuel - 1) == Unfinished
    ensures WalkPart(root, c, k, fuel) == Unfinished
  {
    if k == 0 {
      MemberRunsOn(root, c.node.members, "properties", c.chain, fuel, d.node);
    } else if k == 3 {
      MemberRunsOn(root, c.node.members, "$defs", {}, fuel, d.node);
    }
  }

  lemma VisitRunsOn(root: Json, c: Config, d: Config, fuel: nat)
    requires fuel > 0 && Visits(root, c, d) && WalkSchema(root, d.node, d.chain, fuel - 1) == Unfinished
    ensures WalkSchema(root, c.node, c.chain, fuel) == Unfinished
  {
    if !VisitsTarget(root, c, d) {
      var k: nat :| VisitsPart(root, c, d, k);
      PartRunsOn(root, c, d, k, fuel);
      forall j: nat | j < k ensures WalkPart(root, c, j, fuel) != Rejected {
        AcceptedNotRejected(root, c, j, fuel);
      }
      PlainRunsOn(root, c, k, fuel);
    }
  }

  /** The parts before the unfinished one were accepted or are unfinished themselves. */
  lemma PlainRunsOn(root: Json, c: Config, k: nat, fuel: nat)
    requires fuel > 0 && PlainNode(c.node) && k < 4 && WalkPart(root, c, k, fuel) == Unfinished
    requires forall j: nat :: j < k ==> WalkPart(root, c, j, fuel) != Rejected
    ensures WalkParts(root, c.node.members, c.chain, fuel) == Unfinished
  {
    assert k > 0 ==> WalkPart(root, c, 0, fuel) != Rejected;
    assert k > 1 ==> WalkPart(root, c, 1, fuel) != Rejected;
    assert k > 2 ==> WalkPart(root, c, 2, fuel) != Rejected;
  }

  lemma {:induction false} PathRunsOn(root: Json, path: seq<Config>)
    requires Path(root, path)
    ensures WalkSchema(root, path[0].node, path[0].chain, |path| - 1) == Unfinished
    decreases |path|
  {
    if |path| > 1 {
      PathTail(root, path);
      PathRunsOn(root, path[1..]);
      VisitRunsOn(root, path[0], path[1], |path| - 1);
    }
  }

  lemma PathTail(root: Json, path: seq<Config>)
    requires Path(root, path) && |path| > 1
    ensures Path(root, path[1..]) && Visits(root, path[0], path[1])
  {
    forall i | 0 <= i < |path[1..]| - 1 ensures Visits(root, path[1..][i], path[1..][i + 1]) {
      assert Visits(root, path[i + 1], path[i + 2]);
    }
  }

  lemma UnfinishedMember(root: Json, m: map<string, Json>, name: string, chain: set<string>, fuel: nat) returns (sub: Json)
    requires fuel > 0 && WalkMembers(root, m, name, chain, fuel) == Unfinished
    ensures sub in Values(m, name) && WalkSchema(root, sub, chain, fuel - 1) == Unfinished
  {
    var verdicts := set s | s in m[name].members.Values :: WalkSchema(root, s, chain, fuel - 1);
    assert Unfinished in verdicts;
    sub :| sub in m[name].members.Values && WalkSchema(root, sub, chain, fuel - 1) == Unfinished;
  }

  lemma UnfinishedPart(root: Json, c: Config, k: nat, fuel: nat) returns (d: Config)
    requires fuel > 0 && c.node.Obj? && k < 4 && WalkPart(root, c, k, fuel) == Unfinished
    ensures d.node in PartSubs(c.node, k) && d.chain == PartChain(c, k)
    ensures WalkSchema(root, d.node, d.chain, fuel - 1) == Unfinished
  {
    var m := c.node.members;
    match k
    case 0 =>
      var sub := UnfinishedMember(root, m, "properties", c.chain, fuel);
      d := Config(sub, c.chain);
    case 1 => d := Config(m["additionalProperties"], c.chain);
    case 2 => d := Config(m["items"], c.chain);
    case _ =>
      var sub := UnfinishedMember(root, m, "$defs", {}, fuel);
      d := Config(sub, {});
  }

  /** The first unfinished part of an unfinished node; the earlier ones are accepted. */
  lemma FirstUnfinished(root: Json, c: Config, fuel: nat) returns (k: nat)
    requires fuel > 0 && PlainNode(c.node) && WalkParts(root, c.node.members, c.chain, fuel) == Unfinished
    ensures k < 4 && WalkPart(root, c, k, fuel) == Unfinished
    ensures forall j: nat :: j < k ==> WalkPart(root, c, j, fuel) == Accepted
  {
    k := 0;
    if WalkPart(root, c, 0, fuel) == Accepted {
      k := 1;
      if WalkPart(root, c, 1, fuel) == Accepted {
        k := if WalkPart(root, c, 2, fuel) == Accepted then 3 else 2;
      }
    }
  }

  /** An unfinished walk visits something whose walk is unfinished with one less. */
  lemma UnfinishedVisit(root: Json, c: Config, fuel: nat) returns (d: Config)
    requires fuel > 0 && WalkSchema(root, c.node, c.chain, fuel) == Unfinished
    ensures Visits(root, c, d) && WalkSchema(root, d.node, d.chain, fuel - 1) == Unfinished
  {
    if RefNode(c.node) {
      d := Config(Target(root, Ref(c.node)).value, c.chain + {Ref(c.node)});
      assert VisitsTarget(root, c, d);
    } else {
      var k := FirstUnfinished(root, c, fuel);
      d := UnfinishedPart(root, c, k, fuel);
      forall j | 0 <= j < k ensures PartAccepted(root, c, j) {
        assert WalkPart(root, c, j, fuel) == Accepted;
      }
      assert VisitsPart(root, c, d, k);
    }
  }

  lemma {:induction false} UnfinishedPath(root: Json, c: Config, fuel: nat) returns (path: seq<Config>)
    requires WalkSchema(root, c.node, c.chain, fuel) == Unfinished
    ensures Path(root, path) && |path| == fuel + 1 && path[0] == c
    decreases fuel
  {
    path := [c];
    if fuel > 0 {
      var d := UnfinishedVisit(root, c, fuel);
      var rest := UnfinishedPath(root, d, fuel - 1);
      path := [c] + rest;
      forall i | 0 <= i < |path| - 1 ensures Visits(root, path[i], path[i + 1]) {
        if i > 0 {
          assert Visits(root, rest[i - 1], rest[i]);
        }
      }
    }
  }

  // A finite document has finitely many schemas and short stretches between fresh chains

  /** Every value nested in `j` through object members, itself included. */
  ghost function Subs(j: Json): set<Json> {
    {j} + if j.Obj? then set name, sub | name in j.members && sub in Subs(j.members[name]) :: sub else {}
  }

  lemma MemberWithin(root: Json, j: Json, name: string)
    requires j in Subs(root) && j.Obj? && name in j.members
    ensures j.members[name] in Subs(root) && Height(j.members[name]) < Height(j)
  {
    MemberHeight(j, name);
    assert j.members[name] in Subs(j.members[name]);
    assert j.members[name] in Subs(j);
    SubsNest(root, j, j.members[name]);
  }

  lemma {:induction false} SubsNest(root: Json, j: Json, sub: Json)
    requires j in Subs(root) && sub in Subs(j)
    ensures sub in Subs(root)
  {
    if j != root {
      var name :| name in root.members && j in Subs(root.members[name]);
      SubsNest(root.members[name], j, sub);
    }
  }

  lemma {:induction false} FollowWithin(root: Json, j: Json, names: seq<string>)
    requires j in Subs(root) && Follow(j, names).Some?
    ensures Follow(j, names).value in Subs(root) && Height(Follow(j, names).value) <= Height(j)
    decreases |names|
  {
    if names != [] {
      MemberWithin(root, j, names[0]);
      FollowWithin(root, j.members[names[0]], names[1..]);
    }
  }

  lemma TargetWithin(root: Json, ref: string)
    requires IsLocal(ref) && Target(root, ref).Some?
    ensures Target(root, ref).value in Subs(root) && Height(Target(root, ref).value) <= Height(root)
  {
    if ref != "#" {
      FollowWithin(root, root, Decoded(Split(ref[2..])));
    }
  }

  lemma PartWithin(root: Json, node: Json, k: nat, sub: Json)
    requires node in Subs(root) && node.Obj? && k < 4 && sub in PartSubs(node, k)
    ensures sub in Subs(root) && Height(sub) < Height(node)
  {
    if k == 0 || k == 3 {
      var name := if k == 0 then "properties" else "$defs";
      MemberWithin(root, node, name);
      var key :| key in node.members[name].members && node.members[name].members[key] == sub;
      MemberWithin(root, node.members[name], key);
    } else {
      MemberWithin(root, node, if k == 1 then "additionalProperties" else "items");
    }
  }

  ghost predicate Within(root: Json, c: Config) {
    c.node in Subs(root) && |c.chain| <= MAX_REFS
  }

  /** References left to follow, then the height left: what a stretch without a fresh chain uses up. */
  ghost function Left(root: Json, c: Config): nat
    requires |c.chain| <= MAX_REFS
  {
    Budget(Height(root), MAX_REFS - |c.chain|) + Height(c.node)
  }

  /** A visit stays in the document, and starts a fresh chain or uses something up. */
  lemma VisitWithin(root: Json, c: Config, d: Config)
    requires Within(root, c) && Visits(root, c, d)
    ensures Within(root, d) && (d.chain == {} || Left(root, d) < Left(root, c))
  {
    if VisitsTarget(root, c, d) {
      TargetWithin(root, Ref(c.node));
      assert |d.chain| == |c.chain| + 1;
    } else {
      var k: nat :| VisitsPart(root, c, d, k);
      PartWithin(root, c.node, k, d.node);
    }
  }

  lemma {:induction false} BudgetGrows(top: nat, less: nat, more: nat)
    requires less <= more
    ensures Budget(top, less) <= Budget(top, more)
    decreases more - less
  {
    if less < more {
      BudgetGrows(top, less, more - 1);
    }
  }

  lemma {:induction false} SubsHeight(root: Json, j: Json)
    requires j in Subs(root)
    ensures Height(j) <= Height(root)
  {
    if j != root {
      var name :| name in root.members && j in Subs(root.members[name]);
      MemberHeight(root, name);
      SubsHeight(root.members[name], j);
    }
  }

  /** The longest stretch without a fresh chain. */
  ghost function Stretch(root: Json): nat {
    Budget(Height(root), MAX_REFS) + Height(root) + 1
  }

  lemma LeftBounded(root: Json, c: Config)
    requires Within(root, c)
    ensures Left(root, c) < Stretch(root)
  {
    BudgetGrows(Height(root), MAX_REFS - |c.chain|, MAX_REFS);
    SubsHeight(root, c.node);
  }

  lemma {:induction false} PathWithin(root: Json, path: seq<Config>, i: nat)
    requires Path(root, path) && Within(root, path[0]) && i < |path|
    ensures Within(root, path[i])
  {
    if i > 0 {
      PathWithin(root, path, i - 1);
      assert Visits(root, path[i - 1], path[i - 1 + 1]);
      VisitWithin(root, path[i - 1], path[i]);
    }
  }

  /** A fresh chain comes soon after any point of a path. */
  lemma {:induction false} FreshSoon(root: Json, path: seq<Config>, from: nat) returns (i: nat)
    requires Path(root, path) && from < |path| && Within(root, path[0])
    requires from + Left(root, PathAt(root, path, from)) + 1 < |path|
    ensures from < i <= from + Left(root, PathAt(root, path, from)) + 1 && path[i].chain == {}
    decreases |path| - from
  {
    PathWithin(root, path, from);
    PathWithin(root, path, from + 1);
    assert Visits(root, path[from], path[from + 1]);
    VisitWithin(root, path[from], path[from + 1]);
    if path[from + 1].chain == {} {
      i := from + 1;
    } else {
      i := FreshSoon(root, path, from + 1);
    }
  }

  ghost function PathAt(root: Json, path: seq<Config>, i: nat): (c: Config)
    requires Path(root, path) && i < |path| && Within(root, path[0])
    ensures c == path[i] && Within(root, c)
  {
    PathWithin(root, path, i);
    path[i]
  }

  ghost function Long(stretch: nat, count: nat): nat {
    if count == 0 then 1 else Long(stretch, count - 1) + stretch
  }

  /** Positions of `count` fresh chains, in order, on a path long enough. */
  lemma {:induction false} FreshPositions(root: Json, path: seq<Config>, count: nat) returns (at: seq<nat>)
    requires Path(root, path) && Within(root, path[0]) && |path| >= Long(Stretch(root), count)
    ensures |at| == count && forall i :: 0 <= i < count ==> at[i] < Long(Stretch(root), count) <= |path| && path[at[i]].chain == {}
    ensures forall i, j :: 0 <= i < j < count ==> at[i] < at[j]
    decreases count
  {
    if count == 0 {
      at := [];
    } else {
      var prior := FreshPositions(root, path, count - 1);
      var from := Long(Stretch(root), count - 1) - 1;
      LeftBounded(root, PathAt(root, path, from));
      var next := FreshSoon(root, path, from);
      at := prior + [next];
    }
  }

  /** More values than a set holds repeat one. */
  lemma {:induction false} Pigeonhole(values: seq<Json>, holes: set<Json>) returns (i: nat, j: nat)
    requires |values| > |holes| && forall k :: 0 <= k < |values| ==> values[k] in holes
    ensures i < j < |values| && values[i] == values[j]
    decreases |values|
  {
    var n := |values| - 1;
    if k :| 0 <= k < n && values[k] == values[n] {
      i, j := k, n;
    } else {
      var fewer := holes - {values[n]};
      i, j := Pigeonhole(values[..n], fewer);
    }
  }

  // Coming back

  ghost predicate Leads(root: Json, c: Config, d: Config) {
    exists path :: Path(root, path) && path[0] == c && path[|path| - 1] == d
  }

  ghost predicate LeadsBack(root: Json, c: Config) {
    exists path :: Path(root, path) && |path| > 1 && path[0] == c && path[|path| - 1] == c
  }

  /** The walk of the document comes to some schema on a fresh chain, and that schema's own walk comes back to it on a
      fresh chain. Each step is one that the walk takes after accepting the earlier parts of its node. */
  ghost predicate Reenters(root: Json) {
    exists d: Json :: Leads(root, Config(root, {}), Config(d, {})) && LeadsBack(root, Config(d, {}))
  }

  lemma SubPath(root: Json, path: seq<Config>, i: nat, j: nat)
    requires Path(root, path) && i <= j < |path|
    ensures Path(root, path[i..j + 1]) && path[i..j + 1][0] == path[i] && path[i..j + 1][j - i] == path[j]
  {
    var part := path[i..j + 1];
    forall k | 0 <= k < |part| - 1 ensures Visits(root, part[k], part[k + 1]) {
      assert Visits(root, path[i + k], path[i + k + 1]);
    }
  }

  lemma JoinPaths(root: Json, p: seq<Config>, q: seq<Config>)
    requires Path(root, p) && Path(root, q) && p[|p| - 1] == q[0]
    ensures Path(root, p + q[1..]) && (p + q[1..])[0] == p[0] && (p + q[1..])[|p| + |q| - 2] == q[|q| - 1]
  {
    var r := p + q[1..];
    forall k | 0 <= k < |r| - 1 ensures Visits(root, r[k], r[k + 1]) {
      if k < |p| - 1 {
        assert Visits(root, p[k], p[k + 1]);
      } else {
        assert Visits(root, q[k - |p| + 1], q[k - |p| + 1 + 1]);
      }
    }
  }

  /** A long enough path from the root is at some schema on a fresh chain twice. */
  lemma FreshTwice(root: Json, path: seq<Config>) returns (a: nat, b: nat)
    requires Path(root, path) && path[0] == Config(root, {}) && |path| >= Long(Stretch(root), |Subs(root)| + 1)
    ensures a < b < |path| && path[a] == path[b] && path[a].chain == {}
  {
    var count := |Subs(root)| + 1;
    var at := FreshPositions(root, path, count);
    var nodes := seq(count, i requires 0 <= i < count => path[at[i]].node);
    forall i | 0 <= i < count ensures nodes[i] in Subs(root) {
      PathWithin(root, path, at[i]);
    }
    var i, j := Pigeonhole(nodes, Subs(root));
    a, b := at[i], at[j];
    assert path[a].node == nodes[i] == nodes[j] == path[b].node;
  }

  lemma LongPathReenters(root: Json, path: seq<Config>)
    requires Path(root, path) && path[0] == Config(root, {}) && |path| >= Long(Stretch(root), |Subs(root)| + 1)
    ensures Reenters(root)
  {
    var a, b := FreshTwice(root, path);
    SubPath(root, path, 0, a);
    SubPath(root, path, a, b);
    LeadsBy(root, path[0..a + 1], path[a..b + 1], path[a].node);
  }

  lemma LeadsBy(root: Json, p: seq<Config>, q: seq<Config>, d: Json)
    requires Path(root, p) && p[0] == Config(root, {}) && p[|p| - 1] == Config(d, {})
    requires Path(root, q) && |q| > 1 && q[0] == Config(d, {}) && q[|q| - 1] == Config(d, {})
    ensures Reenters(root)
  {
    assert Leads(root, Config(root, {}), Config(d, {})) && LeadsBack(root, Config(d, {}));
  }

  /** Going round and round gives paths of any length. */
  lemma {:induction false} RoundAndRound(root: Json, p: seq<Config>, q: seq<Config>, n: nat) returns (path: seq<Config>)
    requires Path(root, p) && Path(root, q) && |q| > 1 && p[|p| - 1] == q[0] == q[|q| - 1]
    ensures Path(root, path) && path[0] == p[0] && path[|path| - 1] == q[0] && |path| > n
    decreases n
  {
    if n == 0 {
      path := p;
    } else {
      var prior := RoundAndRound(root, p, q, n - 1);
      JoinPaths(root, prior, q);
      path := prior + q[1..];
    }
  }

  lemma ReenteringDiverges(root: Json, fuel: nat)
    requires Reenters(root)
    ensures Guard(root, fuel) == Unfinished
  {
    var d :| Leads(root, Config(root, {}), Config(d, {})) && LeadsBack(root, Config(d, {}));
    var p :| Path(root, p) && p[0] == Config(root, {}) && p[|p| - 1] == Config(d, {});
    var q :| Path(root, q) && |q| > 1 && q[0] == Config(d, {}) && q[|q| - 1] == Config(d, {});
    var path := RoundAndRound(root, p, q, fuel);
    SubPath(root, path, 0, fuel);
    PathRunsOn(root, path[0..fuel + 1]);
  }

  ghost predicate Terminates(root: Json) {
    exists fuel: nat :: Guard(root, fuel) != Unfinished
  }

  /** The guard ends on a document, in every order of visiting members, if and only if its walk never reenters a schema. */
  lemma GuardTerminatesExactly(root: Json)
    ensures Terminates(root) <==> !Reenters(root)
  {
    if Reenters(root) {
      forall fuel: nat ensures Guard(root, fuel) == Unfinished {
        ReenteringDiverges(root, fuel);
      }
    } else {
      var fuel := Long(Stretch(root), |Subs(root)| + 1);
      if Guard(root, fuel) == Unfinished {
        var path := UnfinishedPath(root, Config(root, {}), fuel);
        LongPathReenters(root, path);
      }
    }
  }

  // Two ways to reenter

  const LOOPING := Obj(map["$defs" := Obj(map["x" := Obj(map["$ref" := Str("#")])])])

  /** An unbounded walk of a node that has only definitions comes to each of them on a fresh chain. */
  lemma VisitsDefinition(root: Json, name: string, sub: Json, chain: set<string>)
    ensures Visits(root, Config(Obj(map["$defs" := Obj(map[name := sub])]), chain), Config(sub, {}))
  {
    var c, d := Config(Obj(map["$defs" := Obj(map[name := sub])]), chain), Config(sub, {});
    assert Annotation("$defs") && PlainNode(c.node);
    assert c.node.members["$defs"].members[name] == sub;
    forall j | 0 <= j < 3 ensures PartAccepted(root, c, j) {
      assert WalkPart(root, c, j, 1) == Accepted;
    }
    assert VisitsPart(root, c, d, 3);
  }

  lemma VisitsReference(root: Json, ref: string, target: Json)
    requires IsLocal(ref) && Target(root, ref) == Some(target)
    ensures Visits(root, Config(Obj(map["$ref" := Str(ref)]), {}), Config(target, {ref}))
  {
    var c, d := Config(Obj(map["$ref" := Str(ref)]), {}), Config(target, {ref});
    assert Keyword("$ref") && RefNode(c.node) && {} + {ref} == {ref};
    assert VisitsTarget(root, c, d);
  }

  /** Some definition that refers to the root is walked without end. */
  lemma RootReferenceDiverges(fuel: nat)
    ensures Guard(LOOPING, fuel) == Unfinished
  {
    var x := Obj(map["$ref" := Str("#")]);
    VisitsDefinition(LOOPING, "x", x, {});
    VisitsReference(LOOPING, "#", LOOPING);
    VisitsDefinition(LOOPING, "x", x, {"#"});
    LeadsBy(LOOPING, [Config(LOOPING, {}), Config(x, {})], [Config(x, {}), Config(LOOPING, {"#"}), Config(x, {})], x);
    ReenteringDiverges(LOOPING, fuel);
  }

  /** "#/$defs/a" */
  const INNER_REF: string := ['#'] + PointerTo(["$defs", "a"])

  const INNER := Obj(map["$defs" := Obj(map["b" := Obj(map["$ref" := Str(INNER_REF)])])])

  const NESTED := Obj(map["$defs" := Obj(map["a" := INNER])])

  lemma InnerTarget()
    ensures IsLocal(INNER_REF) && Target(NESTED, INNER_REF) == Some(INNER)
  {
    PointersResolve(NESTED, ["$defs", "a"]);
    assert ["$defs", "a"][1..] == ["a"];
    assert Follow(NESTED, ["$defs", "a"]) == Follow(Obj(map["a" := INNER]), ["a"]) == Follow(INNER, []);
  }

  lemma NestedHasNoRootRef()
    ensures NoRootRef(NESTED)
  {
    var leaf := Obj(map["$ref" := Str(INNER_REF)]);
    assert INNER_REF[1] == '/';
    assert NoRootRef(Str(INNER_REF)) && NoRootRef(leaf);
    assert NoRootRef(Obj(map["b" := leaf]));
    assert NoRootRef(INNER);
    assert NoRootRef(Obj(map["a" := INNER]));
  }

  /** So is some definition that refers to a node with definitions of its own, without any reference to the root. */
  lemma NestedDefsDiverge(fuel: nat)
    ensures Guard(NESTED, fuel) == Unfinished && NoRootRef(NESTED)
  {
    var b := Obj(map["$ref" := Str(INNER_REF)]);
    NestedHasNoRootRef();
    InnerTarget();
    VisitsDefinition(NESTED, "a", INNER, {});
    VisitsDefinition(NESTED, "b", b, {});
    VisitsReference(NESTED, INNER_REF, INNER);
    VisitsDefinition(NESTED, "b", b, {INNER_REF});
    LeadsBy(NESTED, [Config(NESTED, {}), Config(INNER, {}), Config(b, {})], [Config(b, {}), Config(INNER, {INNER_REF}), Config(b, {})], b);
    ReenteringDiverges(NESTED, fuel);
  }
}
