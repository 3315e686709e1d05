/** The compiled graph (apps/agents/src/open-canvas/index.ts): its node and
    edge table, the `next`-driven router, and one run from the router to END. */
module Graph {
  import opened Wrappers
  import opened State
  import opened Runtime
  import RewriteArtifactTheme
  import UpdateHighlightedText

  const GeneratePath: string := "generatePath"
  const ThemeNode: string := "rewriteArtifactTheme"
  const HighlightNode: string := "updateHighlightedText"

  datatype Endpoint = Start | End | Node(name: string)

  /** The registered nodes. */
  const Nodes: set<string> := {GeneratePath, ThemeNode, HighlightNode}

  /** The fixed edges. */
  const Edges: set<(Endpoint, Endpoint)> :=
    {(Start, Node(GeneratePath)), (Node(ThemeNode), End), (Node(HighlightNode), End)}

  /** The targets the router may send to from `generatePath`. */
  const RouteTargets: set<string> := {ThemeNode, HighlightNode}

  /** Where control may go from `e`: fixed edges, plus the router's targets
      after `generatePath`. */
  function Successors(e: Endpoint): set<Endpoint> {
    (set p | p in Edges && p.0 == e :: p.1) +
    (if e == Node(GeneratePath) then set n | n in RouteTargets :: Node(n) else {})
  }

  /** The graph's shape: one entry edge, a router fanning out to exactly the
      two revision nodes, and both revision nodes ending the run. */
  lemma GraphShape()
    ensures Successors(Start) == {Node(GeneratePath)}
    ensures Successors(Node(GeneratePath)) == {Node(ThemeNode), Node(HighlightNode)}
    ensures Successors(Node(ThemeNode)) == {End}
    ensures Successors(Node(HighlightNode)) == {End}
    ensures Successors(End) == {}
  {
    assert (Start, Node(GeneratePath)) in Edges;
    assert (Node(ThemeNode), End) in Edges;
    assert (Node(HighlightNode), End) in Edges;
  }

  /** None of the approval nodes is registered, so no run reaches them. */
  lemma ApprovalNodesNotWired()
    ensures "humanApprover" !in Nodes && "applyApprovedChanges" !in Nodes && "rejectChanges" !in Nodes
    ensures forall e :: Node("humanApprover") !in Successors(e) && Node("applyApprovedChanges") !in Successors(e) &&
                        Node("rejectChanges") !in Successors(e)
  {
  }

  /** `new Send(node, { ...state })`. */
  datatype Send = Send(node: string, state: GraphState)

  /** `routeNode(state)`: dispatch to `state.next` with a copy of the state. */
  function RouteNode(s: GraphState): (r: Result<Send>)
    ensures s.next.None? || s.next == Some("") <==> r == Err("'next' state field not set.")
    ensures r.Ok? ==> s.next.Some? && r.value.node == s.next.value && r.value.state == s
  {
    if s.next.None? || s.next.value == "" then Err("'next' state field not set.")
    else Ok(Send(s.next.value, s))
  }

  /** How a run ends: at END with the merged state, suspended with a
      proposal for the human, or with an error. */
  datatype Outcome = Finished(state: GraphState) | Interrupted(state: GraphState, reason: string, change: ProposedChange) | Failed(msg: string)

  /** Merge a node's result into the state it ran on. */
  function Conclude(s: GraphState, r: NodeResult): (o: Outcome)
    ensures r.Update? <==> o.Finished?
    ensures r.Update? ==> o.state == ApplyUpdate(s, r.u)
    ensures r.Suspended? ==> o == Interrupted(s, r.reason, r.change)
    ensures r.Fail? ==> o == Failed(r.msg)
  {
    match r
    case Update(u) => Finished(ApplyUpdate(s, u))
    case Suspended(reason, change) => Interrupted(s, reason, change)
    case Fail(m) => Failed(m)
  }

  /** One run after `generatePath` has chosen `next`: route, run the chosen
      node, end. A target outside the router's list is refused. */
  function RunFromRouter(s: GraphState, config: Config, host: Host): (o: Outcome)
    ensures s.next.None? || s.next == Some("") ==> o == Failed("'next' state field not set.")
    ensures s.next == Some(ThemeNode) ==> o == Conclude(s, RewriteArtifactTheme.RewriteArtifactTheme(s, config, host))
    ensures s.next == Some(HighlightNode) ==> o == Conclude(s, UpdateHighlightedText.UpdateHighlightedText(s, config, host))
    ensures o.Interrupted? ==> s.next == Some(HighlightNode)
  {
    match RouteNode(s)
    case Err(m) => Failed(m)
    case Ok(send) =>
      if send.node == ThemeNode then Conclude(send.state, RewriteArtifactTheme.RewriteArtifactTheme(send.state, config, host))
      else if send.node == HighlightNode then Conclude(send.state, UpdateHighlightedText.UpdateHighlightedText(send.state, config, host))
      else Failed("Invalid node: " + send.node)
  }

  /** A highlight run with no decision pending never commits: it ends
      suspended or failed, and the artifact is never replaced by it. */
  lemma FirstHighlightRunNeverCommits(s: GraphState, config: Config, host: Host)
    requires s.next == Some(HighlightNode) && s.approvalResult.None?
    ensures !RunFromRouter(s, config, host).Finished?
  {
  }
}
