/** The pipeline document and its static validation. */
module Pipelines {
  import opened Wrappers
  import opened Graphs
  import opened Topo
  import opened Json
  import opened References

  datatype NodeSpec = NodeSpec(id: NodeId, typeName: string, config: Value)

  datatype Pipeline = Pipeline(nodes: seq<NodeSpec>, edges: seq<Edge>)

  /** What the engine reads off a registered node class. */
  datatype NodeClass = NodeClass(inputPorts: set<string>, outputPorts: set<string>, multiInput: bool, fanOut: bool)

  type Registry = map<string, NodeClass>

  /** What each class itself checks, by its name: its config model, the ports that must have an edge,
      and further findings about a config and its counts of edges per port. */
  datatype ClassChecks = ClassChecks(
    validate: (string, Value) -> Result<Value, string>,
    required: (string, Value) -> seq<string>,
    checkSpec: (string, Value, map<string, nat>) -> seq<string>)

  datatype Issue =
    | DuplicateId(node: NodeId)
    | NoNodes
    | UnknownType(node: NodeId)
    | InvalidConfig(node: NodeId, message: string)
    | PortUnfed(node: NodeId, port: string)
    | SpecFinding(node: NodeId, message: string)
    | UnknownEndpoint(node: NodeId)
    | NoOutputPort(node: NodeId, port: string)
    | NoInputPort(node: NodeId, port: string)
    | PortTaken(node: NodeId, port: string)
    | HasCycle
    | NestedIterator(node: NodeId)
    | OverlappingScopes(node: NodeId)
    | IterOutsideScope(node: NodeId)
    | UnknownTarget(node: NodeId, target: NodeId)
    | NotAnAncestor(node: NodeId, target: NodeId)

  function Ids(nodes: seq<NodeSpec>): (ids: seq<NodeId>)
    ensures |ids| == |nodes| && forall i :: 0 <= i < |nodes| ==> ids[i] == nodes[i].id
  {
    seq(|nodes|, i requires 0 <= i < |nodes| => nodes[i].id)
  }

  /** `graph.nodes[id]`: of repeated declarations the last one. */
  function SpecOf(p: Pipeline, n: NodeId): (spec: NodeSpec)
    requires n in Ids(p.nodes)
    ensures spec in p.nodes && spec.id == n
  {
    p.nodes[DeclIndex(Ids(p.nodes), n)]
  }

  predicate IsIterator(reg: Registry, p: Pipeline, n: NodeId) {
    n in Ids(p.nodes) && SpecOf(p, n).typeName in reg && reg[SpecOf(p, n).typeName].fanOut
  }

  /** The declared iterators, in declaration order. */
  function IteratorIds(reg: Registry, nodes: seq<NodeSpec>): seq<NodeId> {
    if nodes == [] then []
    else
      var n := nodes[|nodes| - 1];
      IteratorIds(reg, nodes[..|nodes| - 1]) + if n.typeName in reg && reg[n.typeName].fanOut then [n.id] else []
  }

  // ---------------------------------------------------------------- what validation promises

  ghost predicate EdgeFits(reg: Registry, p: Pipeline, e: Edge) {
    && e.src in Ids(p.nodes) && e.dst in Ids(p.nodes)
    && (SpecOf(p, e.src).typeName in reg ==> e.srcPort in reg[SpecOf(p, e.src).typeName].outputPorts)
    && (SpecOf(p, e.dst).typeName in reg ==> e.dstPort in reg[SpecOf(p, e.dst).typeName].inputPorts)
  }

  /** Single-edge ports have at most one edge. */
  ghost predicate PortsUnshared(reg: Registry, p: Pipeline) {
    forall i, j ::
      0 <= i < j < |p.edges| && PortOf(p.edges[i]) == PortOf(p.edges[j]) ==> AllowsMany(reg, p, p.edges[j].dst)
  }

  predicate AllowsMany(reg: Registry, p: Pipeline, n: NodeId) {
    n in Ids(p.nodes) && SpecOf(p, n).typeName in reg ==> reg[SpecOf(p, n).typeName].multiInput
  }

  /** No iterator lies in another's scope, and no node lies in two scopes. */
  ghost predicate ScopesSeparate(iterators: seq<NodeId>, edges: seq<Edge>) {
    forall a, b :: a in iterators && b in iterators && a != b ==>
      b !in Descendants(edges, a) && Descendants(edges, a) !! Descendants(edges, b)
  }

  ghost predicate RefAllowed(iterators: seq<NodeId>, p: Pipeline, n: NodeId, ref: Ref) {
    match ref.kind
    case Iter => exists it :: it in iterators && n in Descendants(p.edges, it)
    case Upstream => StaticTarget(ref.path) in Ids(p.nodes) && StaticTarget(ref.path) in Ancestors(p.edges, n)
  }

  ghost predicate RefsAllowed(iterators: seq<NodeId>, p: Pipeline, node: NodeSpec) {
    forall ref :: ref in FindRefs(node.config) ==> RefAllowed(iterators, p, node.id, ref)
  }

  /** The number of edges into a port. */
  function PortCount(edges: seq<Edge>, port: (NodeId, string)): nat {
    if edges == [] then 0
    else PortCount(edges[..|edges| - 1], port) + if PortOf(edges[|edges| - 1]) == port then 1 else 0
  }

  /** The edge counts of a node's fed input ports. */
  ghost function CountsOf(reg: Registry, p: Pipeline, n: NodeId): map<string, nat>
    requires n in Ids(p.nodes) && SpecOf(p, n).typeName in reg
  {
    map port | port in reg[SpecOf(p, n).typeName].inputPorts && PortCount(p.edges, (n, port)) > 0 ::
        PortCount(p.edges, (n, port))
  }

  /** A config without references passes its class's own checks. */
  ghost predicate ConfigPasses(checks: ClassChecks, reg: Registry, p: Pipeline, node: NodeSpec)
    requires node.id in Ids(p.nodes) && SpecOf(p, node.id).typeName in reg
  {
    FindRefs(node.config) == [] ==>
      && checks.validate(node.typeName, node.config).Ok?
      && FeedsPass(checks, node, checks.validate(node.typeName, node.config).value, CountsOf(reg, p, node.id))
  }

  /** Every port that the config requires is fed, and the class finds nothing else. */
  predicate FeedsPass(checks: ClassChecks, node: NodeSpec, config: Value, counts: map<string, nat>) {
    && (forall i :: 0 <= i < |checks.required(node.typeName, config)| ==>
       checks.required(node.typeName, config)[i] in counts)
    && checks.checkSpec(node.typeName, config, counts) == []
  }

  /** What an empty issue list means: the graph is accepted and every static config passes. */
  ghost predicate Runnable(checks: ClassChecks, reg: Registry, p: Pipeline) {
    Accepted(reg, p) && forall i :: 0 <= i < |p.nodes| ==> NodePasses(checks, reg, p, i)
  }

  ghost predicate NodePasses(checks: ClassChecks, reg: Registry, p: Pipeline, i: nat)
    requires i < |p.nodes|
  {
    var n := p.nodes[i].id;
    assert Ids(p.nodes)[i] == n;
    SpecOf(p, n).typeName in reg && ConfigPasses(checks, reg, p, p.nodes[i])
  }

  /** The part of it that is about the graph. */
  ghost predicate Accepted(reg: Registry, p: Pipeline) {
    && p.nodes != [] && Distinct(Ids(p.nodes))
    && (forall node :: node in p.nodes ==> node.typeName in reg)
    && (forall e :: e in p.edges ==> EdgeFits(reg, p, e))
    && PortsUnshared(reg, p)
    && !Cyclic(Known(Ids(p.nodes), p.edges))
    && ScopesSeparate(IteratorIds(reg, p.nodes), p.edges)
    && forall node :: node in p.nodes ==> RefsAllowed(IteratorIds(reg, p.nodes), p, node)
  }

  // ---------------------------------------------------------------- what each issue says

  /** A finding about the ids: node `j` repeats one. */
  ghost predicate IdIssueAt(nodes: seq<NodeSpec>, j: nat, issue: Issue)
    requires j < |nodes|
  {
    issue == DuplicateId(nodes[j].id) && Repeats(nodes, j)
  }

  ghost predicate Repeats(nodes: seq<NodeSpec>, j: nat)
    requires j < |nodes|
  {
    exists i :: 0 <= i < j && nodes[i].id == nodes[j].id
  }

  /** A finding about one node's type and static config. */
  ghost predicate ConfigIssueAt(checks: ClassChecks, reg: Registry, node: NodeSpec, issue: Issue) {
    if node.typeName !in reg then issue == UnknownType(node.id)
    else
      && FindRefs(node.config) == [] && checks.validate(node.typeName, node.config).Err?
      && issue == InvalidConfig(node.id, checks.validate(node.typeName, node.config).error)
  }

  /** The node's class is known and has no such output port. */
  predicate LacksOutput(reg: Registry, p: Pipeline, n: NodeId, port: string) {
    n in Ids(p.nodes) && SpecOf(p, n).typeName in reg && port !in reg[SpecOf(p, n).typeName].outputPorts
  }

  predicate LacksInput(reg: Registry, p: Pipeline, n: NodeId, port: string) {
    n in Ids(p.nodes) && SpecOf(p, n).typeName in reg && port !in reg[SpecOf(p, n).typeName].inputPorts
  }

  /** A finding about edge `k`. */
  ghost predicate EdgeIssueAt(reg: Registry, p: Pipeline, k: nat, issue: Issue)
    requires k < |p.edges|
  {
    var e := p.edges[k];
    match issue
    case UnknownEndpoint(n) => n !in Ids(p.nodes) && (n == e.src || n == e.dst)
    case NoOutputPort(n, port) => n == e.src && port == e.srcPort && LacksOutput(reg, p, n, port)
    case NoInputPort(n, port) => n == e.dst && port == e.dstPort && LacksInput(reg, p, n, port)
    case PortTaken(n, port) => (n, port) == PortOf(e) && Conflict(reg, p, k)
    case _ => false
  }

  /** The static configs that parse, by node id: of repeated ids the last. */
  function ParsedConfigs(checks: ClassChecks, reg: Registry, nodes: seq<NodeSpec>): map<NodeId, Value> {
    if nodes == [] then map[]
    else
      WithParsed(checks, reg, nodes[|nodes| - 1], ParsedConfigs(checks, reg, nodes[..|nodes| - 1]))
  }

  function WithParsed(checks: ClassChecks, reg: Registry, node: NodeSpec, configs: map<NodeId,
                      Value>): map<NodeId, Value>
  {
    if Parses(checks, reg, node) then configs[node.id := checks.validate(node.typeName, node.config).value] else configs
  }

  /** The node's class is known, and its config is static and valid. */
  predicate Parses(checks: ClassChecks, reg: Registry, node: NodeSpec) {
    node.typeName in reg && FindRefs(node.config) == [] && checks.validate(node.typeName, node.config).Ok?
  }

  /** Node `k` is the last declaration of the id whose config parses, and parses to this one. */
  ghost predicate LastParse(checks: ClassChecks, reg: Registry, nodes: seq<NodeSpec>, k: nat, n: NodeId, config: Value)
    requires k < |nodes|
  {
    && nodes[k].id == n && Parses(checks, reg, nodes[k])
    && checks.validate(nodes[k].typeName, nodes[k].config).value == config
    && forall j :: k < j < |nodes| ==> !(nodes[j].id == n && Parses(checks, reg, nodes[j]))
  }

  lemma LastParseOfFront(checks: ClassChecks, reg: Registry, nodes: seq<NodeSpec>, k: nat, n: NodeId, config: Value)
    requires k < |nodes| - 1 && !(nodes[|nodes| - 1].id == n && Parses(checks, reg, nodes[|nodes| - 1]))
    ensures LastParse(checks, reg, nodes[..|nodes| - 1], k, n, config) <==> LastParse(checks, reg, nodes, k, n, config)
  {
    var before := nodes[..|nodes| - 1];
    assert forall j :: 0 <= j < |before| ==> before[j] == nodes[j];
    if LastParse(checks, reg, nodes, k, n, config) {
      forall j | k < j < |before| ensures !(before[j].id == n && Parses(checks, reg, before[j])) {
        assert before[j] == nodes[j];
      }
    }
  }

  lemma {:induction false} ParsedConfigsAre(checks: ClassChecks, reg: Registry, nodes: seq<NodeSpec>, n: NodeId,
                                            config: Value)
    ensures n in ParsedConfigs(checks, reg, nodes) && ParsedConfigs(checks, reg, nodes)[n] == config <==>
            exists k :: 0 <= k < |nodes| && LastParse(checks, reg, nodes, k, n, config)
  {
    if nodes != [] {
      var last := |nodes| - 1;
      var before := nodes[..last];
      ParsedConfigsAre(checks, reg, before, n, config);
      if nodes[last].id == n && Parses(checks, reg, nodes[last]) {
        assert forall k :: 0 <= k < last ==> !LastParse(checks, reg, nodes, k, n, config);
        assert checks.validate(nodes[last].typeName, nodes[last].config).value == config <==>
            LastParse(checks, reg, nodes, last, n, config);
      } else {
        forall k | 0 <= k < last
          ensures LastParse(checks, reg, before, k, n, config) <==> LastParse(checks, reg, nodes, k, n, config)
        {
          LastParseOfFront(checks, reg, nodes, k, n, config);
        }
      }
    }
  }

  /** The edges counted on each port of a node; none if its class is unknown. */
  ghost function FedPorts(reg: Registry, p: Pipeline, n: NodeId): map<string, nat> {
    if n in Ids(p.nodes) && SpecOf(p, n).typeName in reg then CountsOf(reg, p, n) else map[]
  }

  /** A finding about one parsed config with the ports that are fed. */
  predicate FeedIssueAt(checks: ClassChecks, reg: Registry, node: NodeSpec, configs: map<NodeId, Value>,
                        counts: map<string, nat>, issue: Issue) {
    && node.typeName in reg && node.id in configs
    && match issue
       case PortUnfed(n, port) =>
         n == node.id && port in checks.required(node.typeName, configs[node.id]) && port !in counts
       case SpecFinding(n, message) =>
         n == node.id && message in checks.checkSpec(node.typeName, configs[node.id], counts)
       case _ => false
  }

  /** A finding about the iterators' scopes. */
  ghost predicate ScopeIssue(iterators: seq<NodeId>, edges: seq<Edge>, issue: Issue) {
    match issue
    case NestedIterator(n) => n in iterators && exists a :: a in iterators && a != n && n in Descendants(edges, a)
    case OverlappingScopes(n) => exists a, b ::
      a in iterators && b in iterators && a != b && n in Descendants(edges, a) && n in Descendants(edges, b)
    case _ => false
  }

  /** A finding about one reference of a node. */
  ghost predicate RefIssue(iterators: seq<NodeId>, p: Pipeline, node: NodeId, ref: Ref, issue: Issue) {
    match issue
    case IterOutsideScope(n) =>
      n == node && ref.kind.Iter? && forall it :: it in iterators ==> n !in Descendants(p.edges, it)
    case UnknownTarget(n, target) =>
      n == node && ref.kind.Upstream? && target == StaticTarget(ref.path) && target !in Ids(p.nodes)
    case NotAnAncestor(n, target) =>
      && n == node && ref.kind.Upstream? && target == StaticTarget(ref.path) && target in Ids(p.nodes)
      && target !in Ancestors(p.edges, n)
    case _ => false
  }

  ghost predicate RefIssueAt(iterators: seq<NodeId>, p: Pipeline, node: NodeSpec, issue: Issue) {
    exists ref :: ref in FindRefs(node.config) && RefIssue(iterators, p, node.id, ref, issue)
  }

  /** A finding of the checks before the order. */
  ghost predicate LocalIssue(checks: ClassChecks, reg: Registry, p: Pipeline, issue: Issue) {
    || (exists j :: 0 <= j < |p.nodes| && IdIssueAt(p.nodes, j, issue))
    || (issue == NoNodes && p.nodes == [])
    || (exists j :: 0 <= j < |p.nodes| && ConfigIssueAt(checks, reg, p.nodes[j], issue))
    || (exists k :: 0 <= k < |p.edges| && EdgeIssueAt(reg, p, k, issue))
    || FeedIssue(checks, reg, p, issue)
  }

  ghost predicate FeedIssue(checks: ClassChecks, reg: Registry, p: Pipeline, issue: Issue) {
    var configs := ParsedConfigs(checks, reg, p.nodes);
    exists j ::
      0 <= j < |p.nodes| && FeedIssueAt(checks, reg, p.nodes[j], configs, FedPorts(reg, p, p.nodes[j].id), issue)
  }

  /** The issue is true of the pipeline; scopes and references are looked at only without a cycle. */
  ghost predicate IssueHolds(checks: ClassChecks, reg: Registry, p: Pipeline, issue: Issue) {
    || LocalIssue(checks, reg, p, issue)
    || if Cyclic(Known(Ids(p.nodes), p.edges)) then issue == HasCycle
       else
         || ScopeIssue(IteratorIds(reg, p.nodes), p.edges, issue)
         || exists j :: 0 <= j < |p.nodes| && RefIssueAt(IteratorIds(reg, p.nodes), p, p.nodes[j], issue)
  }

  // ---------------------------------------------------------------- ids and types

  lemma SeenMeansRepeated(nodes: seq<NodeSpec>, i: nat)
    requires i < |nodes|
    ensures nodes[i].id in Elements(Ids(nodes)[..i]) <==> Repeats(nodes, i)
    ensures Elements(Ids(nodes)[..i + 1]) == Elements(Ids(nodes)[..i]) + {nodes[i].id}
  {
    var seen, id := Ids(nodes)[..i], nodes[i].id;
    assert Ids(nodes)[..i + 1] == seen + [id];
    assert forall j :: 0 <= j < i ==> seen[j] == nodes[j].id;
  }

  lemma NoRepeatsMeansDistinct(nodes: seq<NodeSpec>)
    ensures (forall j :: 0 <= j < |nodes| ==> !Repeats(nodes, j)) <==> Distinct(Ids(nodes))
  {
    var ids := Ids(nodes);
    if forall j :: 0 <= j < |nodes| ==> !Repeats(nodes, j) {
      forall i, j | 0 <= i < j < |ids| ensures ids[i] != ids[j] {
        assert !Repeats(nodes, j);
      }
    }
    if Distinct(ids) {
      forall i, j | 0 <= i < j < |nodes| ensures nodes[i].id != nodes[j].id {
        assert ids[i] != ids[j];
      }
    }
  }

  /** No finding about the ids means that there are some and none is repeated. */
  lemma IdIssuesMean(nodes: seq<NodeSpec>, issues: seq<Issue>)
    requires forall x :: x in issues <==>
              (exists j :: 0 <= j < |nodes| && IdIssueAt(nodes, j, x)) || (x == NoNodes && nodes == [])
    ensures issues == [] <==> nodes != [] && Distinct(Ids(nodes))
  {
    NoRepeatsMeansDistinct(nodes);
    if issues == [] {
      assert NoNodes !in issues;
      forall j | 0 <= j < |nodes| ensures !Repeats(nodes, j) {
        assert DuplicateId(nodes[j].id) !in issues;
        assert !IdIssueAt(nodes, j, DuplicateId(nodes[j].id));
      }
    } else {
      assert issues[0] in issues;
    }
  }

  method CheckIds(nodes: seq<NodeSpec>) returns (issues: seq<Issue>)
    ensures issues == [] <==> nodes != [] && Distinct(Ids(nodes))
    ensures forall x :: x in issues <==>
              (exists j :: 0 <= j < |nodes| && IdIssueAt(nodes, j, x)) || (x == NoNodes && nodes == [])
  {
    issues := [];
    var seen: set<NodeId> := {};
    for i := 0 to |nodes|
      invariant seen == Elements(Ids(nodes)[..i])
      invariant forall x :: x in issues <==> exists j :: 0 <= j < i && IdIssueAt(nodes, j, x)
    {
      var id := nodes[i].id;
      SeenMeansRepeated(nodes, i);
      var more := if id in seen then [DuplicateId(id)] else [];
      assert forall x :: x in more <==> IdIssueAt(nodes, i, x);
      issues := issues + more;
      seen := seen + {id};
    }
    assert Ids(nodes)[..|nodes|] == Ids(nodes);
    if nodes == [] {
      issues := issues + [NoNodes];
    }
    IdIssuesMean(nodes, issues);
  }

  /** The config that validation parses for a node, if it has no references. */
  predicate StaticConfigOk(checks: ClassChecks, reg: Registry, node: NodeSpec) {
    node.typeName in reg && (FindRefs(node.config) == [] ==> checks.validate(node.typeName, node.config).Ok?)
  }

  ghost predicate Parsed(checks: ClassChecks, nodes: seq<NodeSpec>, k: nat, configs: map<NodeId, Value>)
    requires k <= |nodes|
  {
    && (forall n :: n in configs ==> exists j :: 0 <= j < k && nodes[j].id == n)
    && forall j :: 0 <= j < k ==> ParsedAt(checks, nodes[j], configs)
  }

  ghost predicate ParsedAt(checks: ClassChecks, node: NodeSpec, configs: map<NodeId, Value>) {
    if FindRefs(node.config) != [] then node.id !in configs
    else node.id in configs && checks.validate(node.typeName, node.config) == Ok(configs[node.id])
  }

  lemma ParsedStep(checks: ClassChecks, nodes: seq<NodeSpec>, k: nat, configs: map<NodeId, Value>,
                   configs': map<NodeId, Value>)
    requires k < |nodes| && Distinct(Ids(nodes)) && Parsed(checks, nodes, k, configs)
    requires ParsedAt(checks, nodes[k], configs')
    requires configs' == configs
              || (nodes[k].id in configs' && configs' == configs[nodes[k].id := configs'[nodes[k].id]])
    ensures Parsed(checks, nodes, k + 1, configs')
  {
    forall j | 0 <= j < k ensures ParsedAt(checks, nodes[j], configs') {
      assert Ids(nodes)[j] != Ids(nodes)[k];
      assert ParsedAt(checks, nodes[j], configs);
    }
    forall n | n in configs' ensures exists j :: 0 <= j < k + 1 && nodes[j].id == n {
      if n != nodes[k].id {
        var j :| 0 <= j < k && nodes[j].id == n;
      }
    }
  }

  /** The type and the static config of one node. */
  method CheckConfig(checks: ClassChecks, reg: Registry, node: NodeSpec, configs: map<NodeId, Value>)
    returns (configs': map<NodeId, Value>, issues: seq<Issue>)
    ensures forall x :: x in issues <==> ConfigIssueAt(checks, reg, node, x)
    ensures configs' == WithParsed(checks, reg, node, configs)
  {
    configs', issues := configs, [];
    if node.typeName !in reg {
      issues := [UnknownType(node.id)];
    } else if FindRefs(node.config) == [] {
      match checks.validate(node.typeName, node.config)
      case Ok(config) => configs' := configs[node.id := config];
      case Err(m) => issues := [InvalidConfig(node.id, m)];
    }
  }

  /** Types and static configs. With distinct ids and no issue, exactly the configs without references
      are parsed. */
  method CheckConfigs(checks: ClassChecks, reg: Registry, nodes: seq<NodeSpec>)
    returns (issues: seq<Issue>, configs: map<NodeId, Value>)
    ensures issues == [] <==> forall j :: 0 <= j < |nodes| ==> StaticConfigOk(checks, reg, nodes[j])
    ensures issues == [] && Distinct(Ids(nodes)) ==> Parsed(checks, nodes, |nodes|, configs)
    ensures configs == ParsedConfigs(checks, reg, nodes)
    ensures forall x :: x in issues <==> exists j :: 0 <= j < |nodes| && ConfigIssueAt(checks, reg, nodes[j], x)
  {
    issues, configs := [], map[];
    for i := 0 to |nodes|
      invariant configs == ParsedConfigs(checks, reg, nodes[..i])
      invariant forall x :: x in issues <==> exists j :: 0 <= j < i && ConfigIssueAt(checks, reg, nodes[j], x)
    {
      assert nodes[..i + 1][..i] == nodes[..i];
      var more;
      configs, more := CheckConfig(checks, reg, nodes[i], configs);
      issues := issues + more;
    }
    assert nodes[..|nodes|] == nodes;
    ConfigIssuesMean(checks, reg, nodes, issues);
    if issues == [] && Distinct(Ids(nodes)) {
      ParsedAll(checks, reg, nodes, |nodes|);
    }
  }

  /** No finding about the configs means that all static ones parse. */
  lemma ConfigIssuesMean(checks: ClassChecks, reg: Registry, nodes: seq<NodeSpec>, issues: seq<Issue>)
    requires forall x :: x in issues <==> exists j :: 0 <= j < |nodes| && ConfigIssueAt(checks, reg, nodes[j], x)
    ensures issues == [] <==> forall j :: 0 <= j < |nodes| ==> StaticConfigOk(checks, reg, nodes[j])
  {
    if issues == [] {
      forall j | 0 <= j < |nodes| ensures StaticConfigOk(checks, reg, nodes[j]) {
        var node := nodes[j];
        assert UnknownType(node.id) !in issues;
        assert checks.validate(node.typeName, node.config).Err? ==>
            InvalidConfig(node.id, checks.validate(node.typeName, node.config).error) !in issues;
      }
    } else {
      assert issues[0] in issues;
    }
  }

  lemma {:induction false} ParsedAll(checks: ClassChecks, reg: Registry, nodes: seq<NodeSpec>, k: nat)
    requires Distinct(Ids(nodes)) && k <= |nodes|
    requires forall j :: 0 <= j < |nodes| ==> StaticConfigOk(checks, reg, nodes[j])
    ensures Parsed(checks, nodes, k, ParsedConfigs(checks, reg, nodes[..k]))
  {
    if k > 0 {
      var before := ParsedConfigs(checks, reg, nodes[..k - 1]);
      ParsedAll(checks, reg, nodes, k - 1);
      assert nodes[..k][..k - 1] == nodes[..k - 1];
      UnparsedYet(checks, nodes, k - 1, before);
      ParsedStep(checks, nodes, k - 1, before, ParsedConfigs(checks, reg, nodes[..k]));
    }
  }

  lemma UnparsedYet(checks: ClassChecks, nodes: seq<NodeSpec>, k: nat, configs: map<NodeId, Value>)
    requires k < |nodes| && Distinct(Ids(nodes)) && Parsed(checks, nodes, k, configs)
    ensures nodes[k].id !in configs
  {
    forall j | 0 <= j < k ensures nodes[j].id != nodes[k].id {
      assert Ids(nodes)[j] != Ids(nodes)[k];
    }
  }

  // ---------------------------------------------------------------- edges and ports

  /** The checks of one edge besides port sharing. */
  function EdgeIssues(reg: Registry, p: Pipeline, e: Edge): (issues: seq<Issue>)
    ensures issues == [] <==> EdgeFits(reg, p, e)
  {
    EndpointIssues(Ids(p.nodes), e) + PortIssues(reg, p, e)
  }

  function EndpointIssues(ids: seq<NodeId>, e: Edge): (issues: seq<Issue>)
    ensures issues == [] <==> e.src in ids && e.dst in ids
    ensures forall x :: x in issues <==> x.UnknownEndpoint? && x.node !in ids && (x.node == e.src || x.node == e.dst)
  {
    (if e.src in ids then [] else [UnknownEndpoint(e.src)]) + (if e.dst in ids then [] else [UnknownEndpoint(e.dst)])
  }

  function PortIssues(reg: Registry, p: Pipeline, e: Edge): (issues: seq<Issue>)
    ensures issues == [] <==> !LacksOutput(reg, p, e.src, e.srcPort) && !LacksInput(reg, p, e.dst, e.dstPort)
    ensures forall x :: x in issues <==>
              || (x == NoOutputPort(e.src, e.srcPort) && LacksOutput(reg, p, e.src, e.srcPort))
              || (x == NoInputPort(e.dst, e.dstPort) && LacksInput(reg, p, e.dst, e.dstPort))
  {
    (if LacksOutput(reg, p, e.src, e.srcPort) then [NoOutputPort(e.src, e.srcPort)] else [])
    + (if LacksInput(reg, p, e.dst, e.dstPort) then [NoInputPort(e.dst, e.dstPort)] else [])
  }

  /** The target class exists and has the port, so the edge is counted on it. */
  predicate Counted(reg: Registry, p: Pipeline, port: (NodeId, string)) {
    && port.0 in Ids(p.nodes)
    && SpecOf(p, port.0).typeName in reg
    && port.1 in reg[SpecOf(p, port.0).typeName].inputPorts
  }

  function PortOf(e: Edge): (NodeId, string) {
    (e.dst, e.dstPort)
  }

  /** One of the first `k` edges feeds the port. */
  ghost predicate Taken(edges: seq<Edge>, k: nat, port: (NodeId, string))
    requires k <= |edges|
  {
    exists j :: 0 <= j < k && PortOf(edges[j]) == port
  }

  /** Edge `k` takes a single-edge port that an earlier edge already feeds. */
  ghost predicate Conflict(reg: Registry, p: Pipeline, k: nat)
    requires k < |p.edges|
  {
    var port := PortOf(p.edges[k]);
    Counted(reg, p, port) && !AllowsMany(reg, p, port.0) && Taken(p.edges, k, port)
  }

  lemma NoConflictMeansUnshared(reg: Registry, p: Pipeline)
    requires forall node :: node in p.nodes ==> node.typeName in reg
    requires forall j :: 0 <= j < |p.edges| ==> EdgeFits(reg, p, p.edges[j])
    ensures (forall j :: 0 <= j < |p.edges| ==> !Conflict(reg, p, j)) <==> PortsUnshared(reg, p)
  {
    forall j | 0 <= j < |p.edges| ensures Counted(reg, p, PortOf(p.edges[j])) {
      assert EdgeFits(reg, p, p.edges[j]);
    }
    if PortsUnshared(reg, p) {
      forall j | 0 <= j < |p.edges| ensures !Conflict(reg, p, j) {
      }
    }
    if forall j :: 0 <= j < |p.edges| ==> !Conflict(reg, p, j) {
      forall i, j | 0 <= i < j < |p.edges| && p.edges[i].dst == p.edges[j].dst
          && p.edges[i].dstPort == p.edges[j].dstPort
        ensures AllowsMany(reg, p, p.edges[j].dst)
      {
        assert PortOf(p.edges[i]) == PortOf(p.edges[j]);
        assert Taken(p.edges, j, PortOf(p.edges[j]));
        assert !Conflict(reg, p, j);
      }
    }
  }

  ghost predicate CountsTaken(reg: Registry, p: Pipeline, k: nat, counts: map<(NodeId, string), nat>)
    requires k <= |p.edges|
  {
    && (forall port :: port in counts <==> Counted(reg, p, port) && PortCount(p.edges[..k], port) > 0)
    && forall port :: port in counts ==> counts[port] == PortCount(p.edges[..k], port)
  }

  lemma PortCountNext(edges: seq<Edge>, k: nat, port: (NodeId, string))
    requires k < |edges|
    ensures PortCount(edges[..k + 1], port) == PortCount(edges[..k], port) + if PortOf(edges[k]) == port then 1 else 0
  {
    assert edges[..k + 1][..k] == edges[..k];
  }

  lemma {:induction false} TakenIsCounted(edges: seq<Edge>, k: nat, port: (NodeId, string))
    requires k <= |edges|
    ensures Taken(edges, k, port) <==> PortCount(edges[..k], port) > 0
  {
    if k > 0 {
      TakenIsCounted(edges, k - 1, port);
      PortCountNext(edges, k - 1, port);
    }
  }

  /** Exactly the findings about the edge besides a taken port. */
  lemma EdgeIssuesAre(reg: Registry, p: Pipeline, k: nat, issue: Issue)
    requires k < |p.edges|
    ensures issue in EdgeIssues(reg, p, p.edges[k]) <==> EdgeIssueAt(reg, p, k, issue) && !issue.PortTaken?
  {
  }

  /** Count one edge on its port; an issue is raised exactly on a conflict. */
  method CountEdge(reg: Registry, p: Pipeline, k: nat, counts: map<(NodeId, string), nat>)
    returns (counts': map<(NodeId, string), nat>, issues: seq<Issue>)
    requires k < |p.edges| && CountsTaken(reg, p, k, counts)
    ensures CountsTaken(reg, p, k + 1, counts')
    ensures issues == [] <==> !Conflict(reg, p, k)
    ensures forall x :: x in issues <==> EdgeIssueAt(reg, p, k, x) && x.PortTaken?
  {
    var port := PortOf(p.edges[k]);
    counts', issues := counts, [];
    forall q ensures PortCount(p.edges[..k + 1], q) == PortCount(p.edges[..k], q) + if port == q then 1 else 0 {
      PortCountNext(p.edges, k, q);
    }
    TakenIsCounted(p.edges, k, port);
    if Counted(reg, p, port) {
      var count: nat := (if port in counts then counts[port] else 0) + 1;
      counts' := counts[port := count];
      if !AllowsMany(reg, p, port.0) && count > 1 {
        issues := [PortTaken(port.0, port.1)];
      }
    }
  }

  /** All checks of one edge. */
  method CheckEdge(reg: Registry, p: Pipeline, k: nat, counts: map<(NodeId, string), nat>)
    returns (counts': map<(NodeId, string), nat>, issues: seq<Issue>)
    requires k < |p.edges| && CountsTaken(reg, p, k, counts)
    ensures CountsTaken(reg, p, k + 1, counts')
    ensures issues == [] <==> EdgeFits(reg, p, p.edges[k]) && !Conflict(reg, p, k)
    ensures forall x :: x in issues <==> EdgeIssueAt(reg, p, k, x)
  {
    counts', issues := CountEdge(reg, p, k, counts);
    forall x ensures x in EdgeIssues(reg, p, p.edges[k]) <==> EdgeIssueAt(reg, p, k, x) && !x.PortTaken? {
      EdgeIssuesAre(reg, p, k, x);
    }
    issues := EdgeIssues(reg, p, p.edges[k]) + issues;
  }

  method CheckEdges(reg: Registry, p: Pipeline) returns (issues: seq<Issue>, counts: map<(NodeId, string), nat>)
    ensures issues == [] <==>
              forall j :: 0 <= j < |p.edges| ==> EdgeFits(reg, p, p.edges[j]) && !Conflict(reg, p, j)
    ensures CountsTaken(reg, p, |p.edges|, counts)
    ensures forall x :: x in issues <==> exists k :: 0 <= k < |p.edges| && EdgeIssueAt(reg, p, k, x)
  {
    issues, counts := [], map[];
    for i := 0 to |p.edges|
      invariant issues == [] <==> forall j :: 0 <= j < i ==> EdgeFits(reg, p, p.edges[j]) && !Conflict(reg, p, j)
      invariant CountsTaken(reg, p, i, counts)
      invariant forall x :: x in issues <==> exists k :: 0 <= k < i && EdgeIssueAt(reg, p, k, x)
    {
      var more;
      counts, more := CheckEdge(reg, p, i, counts);
      issues := issues + more;
    }
  }

  // ---------------------------------------------------------------- what each class requires

  /** `port_counts[n]`. */
  function CountsFor(counts: map<(NodeId, string), nat>, n: NodeId): map<string, nat> {
    map key | key in counts && key.0 == n :: key.1 := counts[key]
  }

  lemma CountsAreFedPorts(reg: Registry, p: Pipeline, counts: map<(NodeId, string), nat>, n: NodeId)
    requires CountsTaken(reg, p, |p.edges|, counts)
    ensures CountsFor(counts, n) == FedPorts(reg, p, n)
  {
    if n in Ids(p.nodes) && SpecOf(p, n).typeName in reg {
      CountsAgree(reg, p, counts, n);
    } else {
      assert forall key :: key in counts ==> key.0 != n;
    }
  }

  lemma CountsAgree(reg: Registry, p: Pipeline, counts: map<(NodeId, string), nat>, n: NodeId)
    requires CountsTaken(reg, p, |p.edges|, counts) && n in Ids(p.nodes) && SpecOf(p, n).typeName in reg
    ensures CountsFor(counts, n) == CountsOf(reg, p, n)
  {
    assert p.edges[..|p.edges|] == p.edges;
    forall port ensures port in CountsFor(counts, n) <==> (n, port) in counts {
      if (n, port) in counts {
        assert (n, port).0 == n;
      }
    }
    assert forall port :: port in CountsOf(reg, p, n) <==> (n, port) in counts;
  }

  /** The issues of one node with a parsed config. */
  function FeedIssues(checks: ClassChecks, node: NodeSpec, config: Value,
                      counts: map<string, nat>): (issues: seq<Issue>)
    ensures issues == [] <==> FeedsPass(checks, node, config, counts)
  {
    Unfed(node.id, checks.required(node.typeName, config), counts)
    + SpecFindings(node.id, checks.checkSpec(node.typeName, config, counts))
  }

  function Unfed(n: NodeId, ports: seq<string>, counts: map<string, nat>): (issues: seq<Issue>)
    ensures issues == [] <==> forall i :: 0 <= i < |ports| ==> ports[i] in counts
    ensures forall x :: x in issues <==> x.PortUnfed? && x.node == n && x.port in ports && x.port !in counts
  {
    if ports == [] then []
    else
      assert ports == ports[..|ports| - 1] + [ports[|ports| - 1]];
      Unfed(n, ports[..|ports| - 1], counts) + if ports[|ports| - 1] in counts then []
          else [PortUnfed(n, ports[|ports| - 1])]
  }

  function SpecFindings(n: NodeId, messages: seq<string>): (issues: seq<Issue>)
    ensures |issues| == |messages|
    ensures forall x :: x in issues <==> x.SpecFinding? && x.node == n && x.message in messages
  {
    var issues := seq(|messages|, i requires 0 <= i < |messages| => SpecFinding(n, messages[i]));
    assert forall i :: 0 <= i < |messages| ==> issues[i] == SpecFinding(n, messages[i]);
    issues
  }

  /** The parsed config of node `i`, if there is one, passes with the counted edges. */
  predicate FedAt(checks: ClassChecks, nodes: seq<NodeSpec>, i: nat, configs: map<NodeId, Value>,
                  counts: map<(NodeId, string), nat>)
    requires i < |nodes|
  {
    nodes[i].id in configs ==> FeedsPass(checks, nodes[i], configs[nodes[i].id], CountsFor(counts, nodes[i].id))
  }

  method CheckFeeds(checks: ClassChecks, reg: Registry, nodes: seq<NodeSpec>, configs: map<NodeId, Value>,
                    counts: map<(NodeId, string), nat>)
    returns (issues: seq<Issue>)
    ensures issues == [] <==>
              forall j :: 0 <= j < |nodes| && nodes[j].typeName in reg ==> FedAt(checks, nodes, j, configs, counts)
    ensures forall x :: x in issues <==> exists j ::
              0 <= j < |nodes| && FeedIssueAt(checks, reg, nodes[j], configs, CountsFor(counts, nodes[j].id), x)
  {
    issues := [];
    for i := 0 to |nodes|
      invariant issues == [] <==> forall j :: 0 <= j < i && nodes[j].typeName in reg ==>
              FedAt(checks, nodes, j, configs, counts)
      invariant forall x :: x in issues <==> exists j ::
              0 <= j < i && FeedIssueAt(checks, reg, nodes[j], configs, CountsFor(counts, nodes[j].id), x)
    {
      var node := nodes[i];
      if node.typeName in reg && node.id in configs {
        issues := issues + FeedIssues(checks, node, configs[node.id], CountsFor(counts, node.id));
      }
    }
  }

  lemma FeedIssuesMean(checks: ClassChecks, reg: Registry, p: Pipeline, configs: map<NodeId, Value>,
                       counts: map<(NodeId, string), nat>, x: Issue)
    requires configs == ParsedConfigs(checks, reg, p.nodes) && CountsTaken(reg, p, |p.edges|, counts)
    ensures FeedIssue(checks, reg, p, x) <==> exists j ::
              0 <= j < |p.nodes| && FeedIssueAt(checks, reg, p.nodes[j], configs, CountsFor(counts, p.nodes[j].id), x)
  {
    forall n ensures CountsFor(counts, n) == FedPorts(reg, p, n) {
      CountsAreFedPorts(reg, p, counts, n);
    }
  }

  /** Together the two checks mean that every static config passes. */
  lemma ConfigChecksMean(checks: ClassChecks, reg: Registry, p: Pipeline, configs: map<NodeId, Value>,
                         counts: map<(NodeId, string), nat>)
    requires Distinct(Ids(p.nodes)) && Parsed(checks, p.nodes, |p.nodes|, configs)
    requires CountsTaken(reg, p, |p.edges|, counts)
    requires forall j :: 0 <= j < |p.nodes| ==> StaticConfigOk(checks, reg, p.nodes[j])
    ensures (forall j :: 0 <= j < |p.nodes| && p.nodes[j].typeName in reg ==>
            FedAt(checks, p.nodes, j, configs, counts))
        <==> forall j :: 0 <= j < |p.nodes| ==> NodePasses(checks, reg, p, j)
  {
    forall j | 0 <= j < |p.nodes|
      ensures p.nodes[j].typeName in reg
      ensures (FedAt(checks, p.nodes, j, configs, counts) <==> NodePasses(checks, reg, p, j))
    {
      FedMeansPasses(checks, reg, p, configs, counts, j);
    }
  }

  lemma FedMeansPasses(checks: ClassChecks, reg: Registry, p: Pipeline, configs: map<NodeId, Value>,
                       counts: map<(NodeId, string), nat>, j: nat)
    requires Distinct(Ids(p.nodes)) && j < |p.nodes| && StaticConfigOk(checks, reg, p.nodes[j])
    requires ParsedAt(checks, p.nodes[j], configs) && CountsTaken(reg, p, |p.edges|, counts)
    ensures FedAt(checks, p.nodes, j, configs, counts) <==> NodePasses(checks, reg, p, j)
  {
    OwnSpec(p, j);
    CountsAgree(reg, p, counts, p.nodes[j].id);
  }

  lemma OwnSpec(p: Pipeline, j: nat)
    requires Distinct(Ids(p.nodes)) && j < |p.nodes|
    ensures p.nodes[j].id in Ids(p.nodes) && SpecOf(p, p.nodes[j].id) == p.nodes[j]
  {
    assert Ids(p.nodes)[j] == p.nodes[j].id;
    assert DeclIndex(Ids(p.nodes), p.nodes[j].id) == j;
  }

  /** A static config that passes was valid. */
  lemma PassingIsValid(checks: ClassChecks, reg: Registry, p: Pipeline, j: nat)
    requires Distinct(Ids(p.nodes)) && j < |p.nodes| && NodePasses(checks, reg, p, j)
    ensures StaticConfigOk(checks, reg, p.nodes[j])
  {
    OwnSpec(p, j);
  }

  // ---------------------------------------------------------------- iterator scopes

  /** `scopes`: each iterator with its descendants. A repeated id has one entry. */
  method ComputeScopes(iterators: seq<NodeId>, edges: seq<Edge>)
    returns (keys: seq<NodeId>, scopes: map<NodeId, set<NodeId>>)
    ensures Distinct(keys) && Elements(keys) == Elements(iterators) == scopes.Keys
    ensures forall it :: it in scopes ==> scopes[it] == Descendants(edges, it)
  {
    keys, scopes := [], map[];
    for i := 0 to |iterators|
      invariant Distinct(keys) && Elements(keys) == Elements(iterators[..i]) == scopes.Keys
      invariant forall it :: it in scopes ==> scopes[it] == Descendants(edges, it)
    {
      var it := iterators[i];
      assert Elements(iterators[..i + 1]) == Elements(iterators[..i]) + {it} by {
        assert iterators[..i + 1] == iterators[..i] + [it];
      }
      var scope := FindDescendants(edges, it);
      if it !in scopes {
        assert Elements(keys + [it]) == Elements(keys) + {it};
        assert forall j :: 0 <= j < |keys| ==> keys[j] in Elements(keys);
        keys := keys + [it];
      }
      scopes := scopes[it := scope];
    }
    assert iterators[..|iterators|] == iterators;
  }

  method CheckNesting(iterators: seq<NodeId>, keys: seq<NodeId>, scopes: map<NodeId, set<NodeId>>)
    returns (issues: seq<Issue>)
    requires Elements(keys) == scopes.Keys
    ensures issues == [] <==> forall a, b :: a in scopes && b in iterators && a != b ==> b !in scopes[a]
    ensures forall x :: x in issues <==>
              x.NestedIterator? && x.node in iterators && exists a :: a in scopes && a != x.node && x.node in scopes[a]
  {
    issues := [];
    for i := 0 to |keys|
      invariant issues == [] <==> forall a, b :: a in keys[..i] && b in iterators && a != b ==>
              a in scopes && b !in scopes[a]
      invariant forall x :: x in issues <==>
              && x.NestedIterator? && x.node in iterators
              && exists a :: a in keys[..i] && a in scopes && a != x.node && x.node in scopes[a]
    {
      var it := keys[i];
      assert it in Elements(keys);
      assert keys[..i + 1] == keys[..i] + [it];
      ghost var before := issues;
      for j := 0 to |iterators|
        invariant issues == [] <==> before == [] && forall b :: b in iterators[..j] && it != b ==> b !in scopes[it]
        invariant forall x :: x in issues <==>
                x in before || (x.NestedIterator? && x.node in iterators[..j] && it != x.node && x.node in scopes[it])
      {
        assert iterators[..j + 1] == iterators[..j] + [iterators[j]];
        if iterators[j] != it && iterators[j] in scopes[it] {
          issues := issues + [NestedIterator(iterators[j])];
        }
      }
      assert iterators[..|iterators|] == iterators;
    }
    assert keys[..|keys|] == keys;
    assert forall a :: a in keys <==> a in Elements(keys);
  }

  /** Claim one scope: an issue for every member that another iterator owns already. */
  method ClaimScope(it: NodeId, scope: set<NodeId>, owner: map<NodeId, NodeId>)
    returns (owner': map<NodeId, NodeId>, issues: seq<Issue>)
    ensures owner'.Keys == owner.Keys + scope
    ensures forall m :: m in owner' ==> owner'[m] == if m in scope then it else owner[m]
    ensures issues == [] <==> forall m :: m in scope && m in owner ==> owner[m] == it
    ensures forall x :: x in issues <==>
              x.OverlappingScopes? && x.node in scope && x.node in owner && owner[x.node] != it
  {
    owner', issues := owner, [];
    var todo := scope;
    while todo != {}
      invariant todo <= scope
      invariant owner'.Keys == owner.Keys + (scope - todo)
      invariant forall m :: m in owner' ==> owner'[m] == if m in scope - todo then it else owner[m]
      invariant issues == [] <==> forall m :: m in scope - todo && m in owner ==> owner[m] == it
      invariant forall x :: x in issues <==>
              x.OverlappingScopes? && x.node in scope - todo && x.node in owner && owner[x.node] != it
      decreases todo
    {
      var member :| member in todo;
      if member in owner' && owner'[member] != it {
        issues := issues + [OverlappingScopes(member)];
      }
      owner' := owner'[member := it];
      todo := todo - {member};
    }
  }

  ghost predicate Owns(keys: seq<NodeId>, scopes: map<NodeId, set<NodeId>>, k: nat, owner: map<NodeId, NodeId>)
    requires k <= |keys| && Elements(keys) == scopes.Keys
  {
    && (forall m :: m in owner ==> owner[m] in keys[..k] && owner[m] in scopes && m in scopes[owner[m]])
    && forall j, m :: 0 <= j < k && keys[j] in scopes && m in scopes[keys[j]] ==> m in owner
  }

  /** The scope of key `k` meets no scope of an earlier key. */
  ghost predicate MeetsNoEarlier(keys: seq<NodeId>, scopes: map<NodeId, set<NodeId>>, k: nat)
    requires k < |keys|
  {
    forall i :: 0 <= i < k && keys[i] in scopes && keys[k] in scopes ==> scopes[keys[i]] !! scopes[keys[k]]
  }

  /** The member lies in the scopes of key `k` and of an earlier key. */
  ghost predicate SharedWithEarlier(keys: seq<NodeId>, scopes: map<NodeId, set<NodeId>>, k: nat, m: NodeId)
    requires k < |keys|
  {
    && keys[k] in scopes && m in scopes[keys[k]]
    && exists i :: 0 <= i < k && keys[i] in scopes && m in scopes[keys[i]]
  }

  lemma ClaimedTwice(keys: seq<NodeId>, scopes: map<NodeId, set<NodeId>>, k: nat, owner: map<NodeId, NodeId>, m: NodeId)
    requires k < |keys| && Elements(keys) == scopes.Keys && Distinct(keys) && keys[k] in scopes
    requires Owns(keys, scopes, k, owner)
    ensures m in scopes[keys[k]] && m in owner && owner[m] != keys[k] <==> SharedWithEarlier(keys, scopes, k, m)
  {
    if m in owner {
      var i :| 0 <= i < k && keys[..k][i] == owner[m];
      assert keys[i] != keys[k] && m in scopes[keys[i]];
    }
  }

  /** No finding about shared members means that no two scopes meet. */
  lemma OverlapIssuesMean(keys: seq<NodeId>, scopes: map<NodeId, set<NodeId>>, issues: seq<Issue>)
    requires forall x :: x in issues <==>
              x.OverlappingScopes? && exists k :: 0 <= k < |keys| && SharedWithEarlier(keys, scopes, k, x.node)
    ensures issues == [] <==> forall k :: 0 <= k < |keys| ==> MeetsNoEarlier(keys, scopes, k)
  {
    if issues == [] {
      forall k, i, m | 0 <= i < k < |keys| && keys[i] in scopes && keys[k] in scopes && m in scopes[keys[i]]
        ensures m !in scopes[keys[k]]
      {
        assert OverlappingScopes(m) !in issues;
        assert !SharedWithEarlier(keys, scopes, k, m);
      }
    } else {
      assert issues[0] in issues;
      var k :| 0 <= k < |keys| && SharedWithEarlier(keys, scopes, k, issues[0].node);
      assert !MeetsNoEarlier(keys, scopes, k);
    }
  }

  lemma OwnsAfterClaim(keys: seq<NodeId>, scopes: map<NodeId, set<NodeId>>, k: nat, owner: map<NodeId, NodeId>,
                       owner': map<NodeId, NodeId>)
    requires k < |keys| && Elements(keys) == scopes.Keys && keys[k] in scopes
    requires Owns(keys, scopes, k, owner)
    requires owner'.Keys == owner.Keys + scopes[keys[k]]
    requires forall m :: m in owner' ==> owner'[m] == if m in scopes[keys[k]] then keys[k] else owner[m]
    ensures Owns(keys, scopes, k + 1, owner')
  {
    assert keys[..k + 1] == keys[..k] + [keys[k]];
  }

  method ClaimKey(keys: seq<NodeId>, scopes: map<NodeId, set<NodeId>>, k: nat, owner: map<NodeId, NodeId>)
    returns (owner': map<NodeId, NodeId>, issues: seq<Issue>)
    requires k < |keys| && Elements(keys) == scopes.Keys && Distinct(keys)
    requires Owns(keys, scopes, k, owner)
    ensures Owns(keys, scopes, k + 1, owner')
    ensures forall x :: x in issues <==> x.OverlappingScopes? && SharedWithEarlier(keys, scopes, k, x.node)
  {
    assert keys[k] in Elements(keys);
    forall m ensures
        m in scopes[keys[k]] && m in owner && owner[m] != keys[k] <==> SharedWithEarlier(keys, scopes, k, m) {
      ClaimedTwice(keys, scopes, k, owner, m);
    }
    owner', issues := ClaimScope(keys[k], scopes[keys[k]], owner);
    OwnsAfterClaim(keys, scopes, k, owner, owner');
  }

  method CheckOverlap(keys: seq<NodeId>, scopes: map<NodeId, set<NodeId>>) returns (issues: seq<Issue>)
    requires Elements(keys) == scopes.Keys && Distinct(keys)
    ensures issues == [] <==> forall k :: 0 <= k < |keys| ==> MeetsNoEarlier(keys, scopes, k)
    ensures forall x :: x in issues <==>
              x.OverlappingScopes? && exists k :: 0 <= k < |keys| && SharedWithEarlier(keys, scopes, k, x.node)
  {
    issues := [];
    var owner: map<NodeId, NodeId> := map[];
    for i := 0 to |keys|
      invariant Owns(keys, scopes, i, owner)
      invariant forall x :: x in issues <==>
              x.OverlappingScopes? && exists k :: 0 <= k < i && SharedWithEarlier(keys, scopes, k, x.node)
    {
      var more;
      owner, more := ClaimKey(keys, scopes, i, owner);
      issues := issues + more;
    }
    OverlapIssuesMean(keys, scopes, issues);
  }

  lemma DisjointKeysSeparate(keys: seq<NodeId>, scopes: map<NodeId, set<NodeId>>)
    requires Elements(keys) == scopes.Keys && Distinct(keys)
    ensures (forall k :: 0 <= k < |keys| ==> MeetsNoEarlier(keys, scopes, k))
        <==> forall a, b :: a in scopes && b in scopes && a != b ==> scopes[a] !! scopes[b]
  {
    if forall k :: 0 <= k < |keys| ==> MeetsNoEarlier(keys, scopes, k) {
      forall a, b | a in scopes && b in scopes && a != b ensures scopes[a] !! scopes[b] {
        assert a in Elements(keys) && b in Elements(keys);
        var i :| 0 <= i < |keys| && keys[i] == a;
        var j :| 0 <= j < |keys| && keys[j] == b;
        if i < j {
          assert MeetsNoEarlier(keys, scopes, j);
        } else {
          assert MeetsNoEarlier(keys, scopes, i);
        }
      }
    }
  }

  lemma SharedMeansTwoScopes(keys: seq<NodeId>, scopes: map<NodeId, set<NodeId>>, m: NodeId)
    requires Elements(keys) == scopes.Keys && Distinct(keys)
    ensures (exists k :: 0 <= k < |keys| && SharedWithEarlier(keys, scopes, k, m))
        <==> exists a, b :: a in scopes && b in scopes && a != b && m in scopes[a] && m in scopes[b]
  {
    if a, b :| a in scopes && b in scopes && a != b && m in scopes[a] && m in scopes[b] {
      assert a in Elements(keys) && b in Elements(keys);
      var i :| 0 <= i < |keys| && keys[i] == a;
      var j :| 0 <= j < |keys| && keys[j] == b;
      assert SharedWithEarlier(keys, scopes, if i < j then j else i, m);
    }
    if k :| 0 <= k < |keys| && SharedWithEarlier(keys, scopes, k, m) {
      var i :| 0 <= i < k && keys[i] in scopes && m in scopes[keys[i]];
      assert keys[i] != keys[k];
    }
  }

  /** What the two checks report, said of the iterators. */
  lemma ScopeIssuesMean(iterators: seq<NodeId>, edges: seq<Edge>, keys: seq<NodeId>, scopes: map<NodeId, set<NodeId>>,
                        x: Issue)
    requires Elements(keys) == Elements(iterators) == scopes.Keys && Distinct(keys)
    requires forall it :: it in scopes ==> scopes[it] == Descendants(edges, it)
    ensures (x.NestedIterator? && x.node in iterators && exists a :: a in scopes && a != x.node && x.node in scopes[a])
         || (x.OverlappingScopes? && exists k :: 0 <= k < |keys| && SharedWithEarlier(keys, scopes, k, x.node))
        <==> ScopeIssue(iterators, edges, x)
  {
    assert forall a :: a in iterators <==> a in scopes;
    if x.OverlappingScopes? {
      SharedMeansTwoScopes(keys, scopes, x.node);
    }
  }

  /** The scope checks raise no issue exactly when iterators are un-nested and scopes disjoint. */
  method CheckScopes(iterators: seq<NodeId>, edges: seq<Edge>)
    returns (issues: seq<Issue>, scopes: map<NodeId, set<NodeId>>)
    ensures issues == [] <==> ScopesSeparate(iterators, edges)
    ensures forall x :: x in issues <==> ScopeIssue(iterators, edges, x)
    ensures scopes.Keys == Elements(iterators)
    ensures forall it :: it in scopes ==> scopes[it] == Descendants(edges, it)
  {
    var keys;
    keys, scopes := ComputeScopes(iterators, edges);
    var nested := CheckNesting(iterators, keys, scopes);
    var overlapping := CheckOverlap(keys, scopes);
    DisjointKeysSeparate(keys, scopes);
    issues := nested + overlapping;
    assert forall a :: a in iterators <==> a in scopes;
    forall x ensures x in issues <==> ScopeIssue(iterators, edges, x) {
      ScopeIssuesMean(iterators, edges, keys, scopes, x);
    }
  }

  // ---------------------------------------------------------------- references

  method CheckReference(iterators: seq<NodeId>, p: Pipeline, n: NodeId, ref: Ref, scopes: map<NodeId, set<NodeId>>,
                        ancestors: set<NodeId>)
    returns (issues: seq<Issue>)
    requires scopes.Keys == Elements(iterators)
    requires forall it :: it in scopes ==> scopes[it] == Descendants(p.edges, it)
    requires ancestors == Ancestors(p.edges, n)
    ensures issues == [] <==> RefAllowed(iterators, p, n, ref)
    ensures forall x :: x in issues <==> RefIssue(iterators, p, n, ref, x)
  {
    match ref.kind
    case Iter =>
      var inScope := exists it :: it in scopes && n in scopes[it];
      assert forall it :: it in iterators <==> it in scopes;
      issues := if inScope then [] else [IterOutsideScope(n)];
    case Upstream =>
      var target := StaticTarget(ref.path);
      if target !in Ids(p.nodes) {
        issues := [UnknownTarget(n, target)];
      } else if target !in ancestors {
        issues := [NotAnAncestor(n, target)];
      } else {
        issues := [];
      }
  }

  method CheckNodeReferences(iterators: seq<NodeId>, p: Pipeline, node: NodeSpec, scopes: map<NodeId, set<NodeId>>)
    returns (issues: seq<Issue>)
    requires scopes.Keys == Elements(iterators)
    requires forall it :: it in scopes ==> scopes[it] == Descendants(p.edges, it)
    ensures issues == [] <==> RefsAllowed(iterators, p, node)
    ensures forall x :: x in issues <==> RefIssueAt(iterators, p, node, x)
  {
    issues := [];
    var ancestors := FindAncestors(p.edges, node.id);
    var refs := FindReferences(node.config);
    for i := 0 to |refs|
      invariant issues == [] <==> forall j :: 0 <= j < i ==> RefAllowed(iterators, p, node.id, refs[j])
      invariant forall x :: x in issues <==> exists j :: 0 <= j < i && RefIssue(iterators, p, node.id, refs[j], x)
    {
      var more := CheckReference(iterators, p, node.id, refs[i], scopes, ancestors);
      issues := issues + more;
    }
  }

  method CheckReferences(iterators: seq<NodeId>, p: Pipeline, scopes: map<NodeId, set<NodeId>>)
    returns (issues: seq<Issue>)
    requires scopes.Keys == Elements(iterators)
    requires forall it :: it in scopes ==> scopes[it] == Descendants(p.edges, it)
    ensures issues == [] <==> forall node :: node in p.nodes ==> RefsAllowed(iterators, p, node)
    ensures forall x :: x in issues <==> exists j :: 0 <= j < |p.nodes| && RefIssueAt(iterators, p, p.nodes[j], x)
  {
    issues := [];
    for i := 0 to |p.nodes|
      invariant issues == [] <==> forall j :: 0 <= j < i ==> RefsAllowed(iterators, p, p.nodes[j])
      invariant forall x :: x in issues <==> exists j :: 0 <= j < i && RefIssueAt(iterators, p, p.nodes[j], x)
    {
      var more := CheckNodeReferences(iterators, p, p.nodes[i], scopes);
      issues := issues + more;
    }
  }

  method ListIterators(reg: Registry, nodes: seq<NodeSpec>) returns (iterators: seq<NodeId>)
    ensures iterators == IteratorIds(reg, nodes)
  {
    iterators := [];
    for i := 0 to |nodes|
      invariant iterators == IteratorIds(reg, nodes[..i])
    {
      assert nodes[..i + 1][..i] == nodes[..i];
      if nodes[i].typeName in reg && reg[nodes[i].typeName].fanOut {
        iterators := iterators + [nodes[i].id];
      }
    }
    assert nodes[..|nodes|] == nodes;
  }

  // ---------------------------------------------------------------- validate_pipeline

  lemma EdgeChecksMean(reg: Registry, p: Pipeline)
    requires forall node :: node in p.nodes ==> node.typeName in reg
    ensures (forall j :: 0 <= j < |p.edges| ==> EdgeFits(reg, p, p.edges[j]) && !Conflict(reg, p, j))
        <==> (forall e :: e in p.edges ==> EdgeFits(reg, p, e)) && PortsUnshared(reg, p)
  {
    if forall j :: 0 <= j < |p.edges| ==> EdgeFits(reg, p, p.edges[j]) {
      NoConflictMeansUnshared(reg, p);
    }
    assert (forall e :: e in p.edges ==> EdgeFits(reg, p, e)) <==> forall j :: 0 <= j < |p.edges| ==>
        EdgeFits(reg, p, p.edges[j]);
  }

  /** The checks before the order is computed. */
  method CheckLocally(checks: ClassChecks, reg: Registry, p: Pipeline) returns (issues: seq<Issue>)
    ensures issues == [] <==> LocallyFine(checks, reg, p)
    ensures forall x :: x in issues <==> LocalIssue(checks, reg, p, x)
  {
    var idIssues := CheckIds(p.nodes);
    var configIssues, configs := CheckConfigs(checks, reg, p.nodes);
    var edgeIssues, counts := CheckEdges(reg, p);
    var feedIssues := CheckFeeds(checks, reg, p.nodes, configs, counts);
    LocalChecksMean(checks, reg, p, idIssues == [], configIssues == [], edgeIssues == [], feedIssues == [], configs,
        counts);
    issues := idIssues + configIssues + edgeIssues + feedIssues;
    forall x ensures x in issues <==> LocalIssue(checks, reg, p, x) {
      FeedIssuesMean(checks, reg, p, configs, counts, x);
      LocalIssuesMean(checks, reg, p, idIssues, configIssues, edgeIssues, feedIssues, x);
    }
  }

  lemma LocalIssuesMean(checks: ClassChecks, reg: Registry, p: Pipeline, ids: seq<Issue>, configs: seq<Issue>,
                        edges: seq<Issue>, feeds: seq<Issue>, x: Issue)
    requires x in ids <==>
              (exists j :: 0 <= j < |p.nodes| && IdIssueAt(p.nodes, j, x)) || (x == NoNodes && p.nodes == [])
    requires x in configs <==> exists j :: 0 <= j < |p.nodes| && ConfigIssueAt(checks, reg, p.nodes[j], x)
    requires x in edges <==> exists k :: 0 <= k < |p.edges| && EdgeIssueAt(reg, p, k, x)
    requires x in feeds <==> FeedIssue(checks, reg, p, x)
    ensures x in ids + configs + edges + feeds <==> LocalIssue(checks, reg, p, x)
  {
  }

  lemma RunnableIs(checks: ClassChecks, reg: Registry, p: Pipeline)
    ensures Runnable(checks, reg, p) <==>
              && LocallyFine(checks, reg, p) && !Cyclic(Known(Ids(p.nodes), p.edges))
              && ScopesSeparate(IteratorIds(reg, p.nodes), p.edges)
              && forall node :: node in p.nodes ==> RefsAllowed(IteratorIds(reg, p.nodes), p, node)
  {
  }

  /** `validate_pipeline`: an empty issue list means exactly that the pipeline can run, and what is
      reported is exactly what holds. */
  method ValidatePipeline(checks: ClassChecks, reg: Registry, p: Pipeline) returns (issues: seq<Issue>)
    ensures issues == [] <==> Runnable(checks, reg, p)
    ensures forall x :: x in issues <==> IssueHolds(checks, reg, p, x)
  {
    RunnableIs(checks, reg, p);
    issues := CheckLocally(checks, reg, p);
    var topo := TopoOrder(Ids(p.nodes), p.edges);
    if topo.None? {
      return issues + [HasCycle];
    }
    var iterators := ListIterators(reg, p.nodes);
    var scopeIssues, scopes := CheckScopes(iterators, p.edges);
    var refIssues := CheckReferences(iterators, p, scopes);
    issues := issues + scopeIssues + refIssues;
  }

  /** What they establish. */
  ghost predicate LocallyFine(checks: ClassChecks, reg: Registry, p: Pipeline) {
    && p.nodes != [] && Distinct(Ids(p.nodes))
    && (forall node :: node in p.nodes ==> node.typeName in reg)
    && (forall e :: e in p.edges ==> EdgeFits(reg, p, e))
    && PortsUnshared(reg, p)
    && forall i :: 0 <= i < |p.nodes| ==> NodePasses(checks, reg, p, i)
  }

  lemma LocalChecksMean(checks: ClassChecks, reg: Registry, p: Pipeline, ids: bool, typed: bool, edged: bool, fed: bool,
                        configs: map<NodeId, Value>, counts: map<(NodeId, string), nat>)
    requires ids <==> p.nodes != [] && Distinct(Ids(p.nodes))
    requires typed <==> forall j :: 0 <= j < |p.nodes| ==> StaticConfigOk(checks, reg, p.nodes[j])
    requires typed && Distinct(Ids(p.nodes)) ==> Parsed(checks, p.nodes, |p.nodes|, configs)
    requires edged <==> forall j :: 0 <= j < |p.edges| ==> EdgeFits(reg, p, p.edges[j]) && !Conflict(reg, p, j)
    requires CountsTaken(reg, p, |p.edges|, counts)
    requires fed <==> forall j :: 0 <= j < |p.nodes| && p.nodes[j].typeName in reg ==>
              FedAt(checks, p.nodes, j, configs, counts)
    ensures ids && typed && edged && fed <==> LocallyFine(checks, reg, p)
  {
    if ids && typed {
      forall node | node in p.nodes ensures node.typeName in reg {
        var j :| 0 <= j < |p.nodes| && p.nodes[j] == node;
        assert StaticConfigOk(checks, reg, p.nodes[j]);
      }
      ConfigChecksMean(checks, reg, p, configs, counts);
      EdgeChecksMean(reg, p);
    }
    if LocallyFine(checks, reg, p) {
      forall j | 0 <= j < |p.nodes| ensures StaticConfigOk(checks, reg, p.nodes[j]) {
        PassingIsValid(checks, reg, p, j);
      }
    }
  }
}
