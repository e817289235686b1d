// What one accepted tool call changes and what it leaves alone: the config merge
// key by key, and the calls that take each other back.
module AgentEdits {
  import opened Sequences
  import opened WorkflowGraph
  import opened GroupRules
  import opened AgentDraft

  // --- merged config ---

  // Clearing wins over patching, a patched key takes its last entry's value, and
  // every other key keeps the value it had.
  lemma MergedKey(current: Config, patch: seq<Entry>, clear: seq<string>, key: string)
    ensures var merged := MergedConfig(current, patch, clear);
            && (key in merged <==> key !in clear && (key in current || NamesKey(patch, key)))
            && (key in merged && NamesKey(patch, key)
               ==> exists i :: LastNamed(patch, key, i) && merged[key] == patch[i].value)
            && (key in merged && !NamesKey(patch, key) ==> key in current && merged[key] == current[key])
  {
    RecordHolds(patch, key);
  }

  method MergeConfig(current: Config, patch: seq<Entry>, clear: seq<string>) returns (merged: Config)
    ensures merged == MergedConfig(current, patch, clear)
  {
    merged := current + ToConfigRecord(patch);
    for i := 0 to |clear|
      invariant merged == (current + ToConfigRecord(patch)) - (set k | k in clear[..i])
    {
      merged := merged - {clear[i]};
      assert clear[..i + 1] == clear[..i] + [clear[i]];
    }
    assert clear[..|clear|] == clear;
  }

  // --- what a call leaves alone ---

  // An update rewrites the data of the one node it names. Every edge, every
  // other node, and the node's own place stay, and updating twice is updating
  // once.
  lemma UpdateTouchesOne(host: Host, g: Graph, call: ToolCall)
    requires UniqueNodeIds(g.nodes) && call.UpdateNode? && ProposeUpdate(host, g, call).Ok?
    ensures var out := ProposeUpdate(host, g, call).value;
            && out.edges == g.edges && |out.nodes| == |g.nodes|
            && (forall i | 0 <= i < |g.nodes| ::
                 if g.nodes[i].id == call.nodeId then out.nodes[i] == g.nodes[i].(data := out.nodes[i].data)
                 else out.nodes[i] == g.nodes[i])
            && (forall n | n in out.nodes && n.id == call.nodeId :: Updated(n, call) == n)
  {
    var node := Lookup(g.nodes, call.nodeId).value;
    forall i | 0 <= i < |g.nodes| && g.nodes[i].id == call.nodeId ensures g.nodes[i] == node {
      UniqueNode(g.nodes, g.nodes[i], node);
    }
    assert Updated(Updated(node, call), call) == Updated(node, call) by {
      MergedTwice(node.data.config, call.patch, call.clear);
    }
  }

  lemma MergedTwice(current: Config, patch: seq<Entry>, clear: seq<string>)
    ensures MergedConfig(MergedConfig(current, patch, clear), patch, clear) == MergedConfig(current, patch, clear)
  {
  }

  // What an update stores: the label and description it was given or the old
  // ones, the switch kept only when it is off, and the config key by key.
  lemma UpdateStores(host: Host, g: Graph, call: ToolCall, i: nat)
    requires UniqueNodeIds(g.nodes) && call.UpdateNode? && ProposeUpdate(host, g, call).Ok?
    requires i < |g.nodes| && g.nodes[i].id == call.nodeId
    ensures var was, now := g.nodes[i].data, ProposeUpdate(host, g, call).value.nodes[i].data;
            && now.labelText == (if call.newLabel.Some? then call.newLabel.value else was.labelText)
            && now.description == (if call.newDescription.Some? then call.newDescription else was.description)
            && now.enabled == (if call.enabled == Some(false) || (call.enabled == None && was.enabled == Some(false))
                                then Some(false) else None)
            && forall key :: ConfigUpdated(was.config, now.config, call.patch, call.clear, key)
  {
    UniqueNode(g.nodes, g.nodes[i], Lookup(g.nodes, call.nodeId).value);
    forall key
      ensures ConfigUpdated(g.nodes[i].data.config, MergedConfig(g.nodes[i].data.config, call.patch, call.clear),
                            call.patch, call.clear, key) {
      MergedKey(g.nodes[i].data.config, call.patch, call.clear, key);
    }
  }

  // Clearing wins, then the last entry that names the key, then the old value.
  predicate ConfigUpdated(was: Config, config: Config, patch: seq<Entry>, clear: seq<string>, key: string) {
    && (key in config <==> key !in clear && (key in was || NamesKey(patch, key)))
    && (key in config && NamesKey(patch, key)
        ==> exists i :: 0 <= i < |patch| && LastNamed(patch, key, i) && config[key] == patch[i].value)
    && (key in config && !NamesKey(patch, key) ==> key in was && config[key] == was[key])
  }

  // An addition appends one step in no Group, of the asked action, whose config
  // holds the asked entries and nothing else.
  lemma AddedStep(host: Host, g: Graph, call: ToolCall)
    requires call.AddNode? && ProposeAdd(host, g, call).Ok?
    ensures var out := ProposeAdd(host, g, call).value;
            && out.edges == g.edges && |out.nodes| == |g.nodes| + 1 && out.nodes[..|g.nodes|] == g.nodes
            && out.nodes[|g.nodes|].id == call.newNodeId && out.nodes[|g.nodes|].parentId == None
            && ActionTypeOf(out.nodes[|g.nodes|]) == Some(call.actionId) && out.nodes[|g.nodes|].position == UNPLACED
            && out.nodes[|g.nodes|].data.labelText == call.labelText
               && out.nodes[|g.nodes|].data.description == call.description
            && out.nodes[|g.nodes|].data.enabled == None
            && forall key :: ConfigAsked(out.nodes[|g.nodes|].data.config, call.config, key)
  {
    RecordHolds(call.config, "actionType");
    forall key ensures ConfigAsked(map["actionType" := call.actionId] + ToConfigRecord(call.config), call.config, key) {
      RecordHolds(call.config, key);
    }
  }

  predicate ConfigAsked(config: Config, entries: seq<Entry>, key: string) {
    && (key in config <==> key == "actionType" || NamesKey(entries, key))
    && (NamesKey(entries, key)
       ==> exists i :: 0 <= i < |entries| && LastNamed(entries, key, i) && config[key] == entries[i].value)
  }

  // --- calls that take each other back ---

  lemma SettledWhole(host: Host, g: Graph)
    requires NoUndersizedGroup(g.nodes)
    ensures Settled(host, g) == g
  {
  }

  // An accepted call whose edit leaves no undersized Group stores that edit.
  lemma StoredEdit(host: Host, s: DraftState, call: ToolCall)
    requires |s.revisions| > 0 && Proposal(host, s, call).Ok? && NoUndersizedGroup(Proposal(host, s, call).value.nodes)
    requires Answer(host, s, call).1.Ok?
    ensures Answer(host, s, call).0.document == Proposal(host, s, call).value
    ensures |Answer(host, s, call).0.revisions| > 0
  {
    hide Verdict, Proposal;
    SettledWhole(host, Proposal(host, s, call).value);
  }

  lemma AcceptedProposed(host: Host, s: DraftState, call: ToolCall)
    requires |s.revisions| > 0 && Answer(host, s, call).1.Ok?
    ensures Proposal(host, s, call).Ok?
  {
  }

  // Dropping the last element by a key none of the others has.
  lemma FilterDropsLast<T>(s: seq<T>, x: T, keep: T -> bool)
    requires !keep(x) && forall y | y in s :: keep(y)
    ensures Filter(s + [x], keep) == s
  {
    FilterAppend(s, x, keep);
    FilterAll(s, keep);
  }

  lemma DisconnectNewest(g: Graph, edge: Edge)
    requires edge.id !in EdgeIds(g.edges)
    ensures ProposeDisconnect(g.(edges := g.edges + [edge]), ToolCall.DisconnectNodes(edge.id)) == Ok(g)
  {
    hide Filter;
    assert edge in g.edges + [edge];
    forall e | e in g.edges ensures NotEdge(edge.id)(e) { assert e.id in EdgeIds(g.edges); }
    FilterDropsLast(g.edges, edge, NotEdge(edge.id));
  }

  // Disconnecting the edge a connection stored is never refused by the tool, and
  // gives back the document there was before.
  lemma DisconnectUndoesConnect(host: Host, s: DraftState, call: ToolCall)
    requires |s.revisions| > 0 && call.ConnectNodes? && NoUndersizedGroup(s.document.nodes)
    requires call.newEdgeId !in EdgeIds(s.document.edges) && Answer(host, s, call).1.Ok?
    ensures var after := Answer(host, s, call).0;
            var back := ToolCall.DisconnectNodes(call.newEdgeId);
            && |after.revisions| > 0 && Proposal(host, after, back) == Ok(s.document)
            && (Answer(host, after, back).1.Ok? ==> Answer(host, after, back).0.document == s.document)
  {
    hide Answer, ProposeDisconnect, WouldCycle, OutletRefusal;
    var edge := Edge(call.newEdgeId, call.source, call.target, call.sourceHandle, None);
    AcceptedProposed(host, s, call);
    assert Proposal(host, s, call) == Ok(s.document.(edges := s.document.edges + [edge]));
    StoredEdit(host, s, call);
    DisconnectNewest(s.document, edge);
    TakenBack(host, s, Answer(host, s, call).0, ToolCall.DisconnectNodes(call.newEdgeId));
  }

  lemma TakenBack(host: Host, s: DraftState, after: DraftState, back: ToolCall)
    requires |after.revisions| > 0 && Proposal(host, after, back) == Ok(s.document)
             && NoUndersizedGroup(s.document.nodes)
    ensures Answer(host, after, back).1.Ok? ==> Answer(host, after, back).0.document == s.document
  {
    hide Answer, Proposal;
    if Answer(host, after, back).1.Ok? { StoredEdit(host, after, back); }
  }

  lemma DeleteNewest(g: Graph, n: Node)
    requires n.id !in NodeIds(g.nodes) && NoDanglingEdge(g) && !IsGroup(n)
    ensures ProposeDelete(g.(nodes := g.nodes + [n]), ToolCall.DeleteNode(n.id)) == Ok(g)
  {
    hide Filter, Lookup;
    forall m | m in g.nodes ensures NotNode(n.id)(m) { assert m.id in NodeIds(g.nodes); }
    FoundLast(g.nodes, n);
    FilterDropsLast(g.nodes, n, NotNode(n.id));
    FilterAll(g.edges, NotTouching(n.id));
  }

  // Deleting the step an addition stored gives back the document there was.
  lemma DeleteUndoesAdd(host: Host, s: DraftState, call: ToolCall)
    requires |s.revisions| > 0 && call.AddNode? && NoUndersizedGroup(s.document.nodes)
    requires call.newNodeId !in NodeIds(s.document.nodes) && NoDanglingEdge(s.document) && Answer(host, s, call).1.Ok?
    ensures var after := Answer(host, s, call).0;
            var back := ToolCall.DeleteNode(call.newNodeId);
            && |after.revisions| > 0 && Proposal(host, after, back) == Ok(s.document)
            && (Answer(host, after, back).1.Ok? ==> Answer(host, after, back).0.document == s.document)
  {
    hide Answer, ProposeDelete, ToConfigRecord;
    var node := ActionNode(call.newNodeId, call.actionId, call.labelText, call.description, call.config);
    AcceptedProposed(host, s, call);
    assert Proposal(host, s, call) == Ok(s.document.(nodes := s.document.nodes + [node]));
    AppendKeepsGroups(s.document.nodes, node);
    StoredEdit(host, s, call);
    DeleteNewest(s.document, node);
    TakenBack(host, s, Answer(host, s, call).0, ToolCall.DeleteNode(call.newNodeId));
  }

  lemma FoundLast(nodes: seq<Node>, n: Node)
    requires forall m | m in nodes :: m.id != n.id
    ensures Lookup(nodes + [n], n.id) == Some(n)
  {
  }

  // A step in no Group changes no Group's count.
  lemma AppendKeepsGroups(nodes: seq<Node>, n: Node)
    requires NoUndersizedGroup(nodes) && !IsGroup(n) && n.parentId.None?
    ensures NoUndersizedGroup(nodes + [n])
  {
    forall f | f in nodes + [n] && IsGroup(f) ensures StepCount(nodes + [n], f.id) >= 2 {
      assert f in nodes;
      FilterAppend(nodes, n, CountsFor(f.id));
    }
  }
}
