/** Tool capabilities of agents: the ceiling of an execution policy and delegation to children
    (crates/agent-core/src/execution_policy.rs, crates/agent-core/src/capabilities.rs). */
module Capabilities {
  import opened Common

  datatype ToolId = ToolId(value: nat)
  datatype ToolName = ToolName(text: string)

  datatype Permission = Allow | Ask | Deny {
    function Strictness(): nat {
      match this
      case Allow => 0
      case Ask => 1
      case Deny => 2
    }
  }

  datatype Capability = Capability(name: ToolName, permission: Permission, enabled: bool, delegatable: bool)

  type Tools = map<ToolId, Capability>

  // ----- the execution policy

  datatype Mode = Execute | Plan | Virtual

  datatype Policy = Policy(mode: Mode, enabledTools: seq<string>, allowedMcpServers: seq<string>)

  predicate IsUnconditionallyAllowed(name: string) {
    || name in ["report_progress", "ask_user_question", "decide", "update_todos"]
    || name in ["job_output", "spec_tasks_check", "agent_spawn", "rusty_docs"]
    || name in ["repo_overview", "repo_health", "repo_risk", "repo_symbol", "code_guidelines"]
  }

  predicate IsWriteTool(name: string) {
    name in ["write_file", "edit_file", "fs.edit"]
  }

  predicate IsCommandTool(name: string) {
    name in ["run_command", "shell.exec", "run_check", "install_dependencies"]
  }

  predicate AllowsCommandExecution(policy: Policy) {
    && policy.mode == Execute
    && "write_file" in policy.enabledTools
    && "web_search" in policy.enabledTools
    && "run_command" in policy.enabledTools
  }

  /** The grant a tool stands behind. */
  function ToolPermission(name: string): Option<string> {
    if name in ["read_file", "fs.read", "open_document", "project_info", "request_research"] then Some("read_file")
    else if name in ["workflow_catalog", "repo_context", "repo_wiki", "spec_context"] then Some("read_file")
    else if IsWriteTool(name) then Some("write_file")
    else if name == "save_workflow" then Some("save_workflow")
    else if name == "list_files" then Some("list_files")
    else if name in ["search_codebase", "workspace.search"] then Some("search_codebase")
    else if name in ["web_search", "web_fetch", "web_extract"] then Some("web_search")
    else None
  }

  predicate AllowsTool(policy: Policy, name: string) {
    if IsUnconditionallyAllowed(name) then true
    else if name == "write_plan" then policy.mode == Plan
    else if IsWriteTool(name) && policy.mode == Plan then false
    else if name == "save_workflow" && policy.mode != Execute then false
    else if IsCommandTool(name) then AllowsCommandExecution(policy)
    else ToolPermission(name).Some? && ToolPermission(name).value in policy.enabledTools
  }

  datatype McpAccess = Denied | ReadOnly | Full

  function McpServerAccess(policy: Policy, server: string): McpAccess {
    if server !in policy.allowedMcpServers || "web_search" !in policy.enabledTools then Denied
    else if policy.mode == Execute && "write_file" in policy.enabledTools then Full
    else ReadOnly
  }

  /** How much a mode lets a session do. */
  function Freedom(mode: Mode): nat {
    match mode
    case Plan => 0
    case Virtual => 1
    case Execute => 2
  }

  /** More grants and a freer mode never take a tool away, save the plan tool of plan mode. */
  lemma PolicyIsMonotone(p: Policy, q: Policy, name: string)
    requires forall t <- p.enabledTools :: t in q.enabledTools
    requires Freedom(p.mode) <= Freedom(q.mode) && (name == "write_plan" ==> p.mode == q.mode)
    ensures AllowsTool(p, name) ==> AllowsTool(q, name)
  {
    if AllowsTool(p, name) && !IsUnconditionallyAllowed(name) && !IsCommandTool(name) && name != "write_plan" {
      assert ToolPermission(name).value in q.enabledTools;
    }
  }

  /** A session that may run commands may also write files, reach the web and use its MCP servers fully. */
  lemma CommandsImplyWritesAndWeb(policy: Policy, command: string, server: string)
    requires IsCommandTool(command) && AllowsTool(policy, command)
    ensures AllowsTool(policy, "write_file") && AllowsTool(policy, "web_search")
    ensures server in policy.allowedMcpServers ==> McpServerAccess(policy, server) == Full
  {
    assert !IsUnconditionallyAllowed(command) && command != "write_plan" && command != "save_workflow";
  }

  /** What the modes take away, for equal grants: a virtual session has the tools of an executing one
      except commands and the saving of workflows; a planning session has those of a virtual one except
      the write tools, and the plan tool besides. */
  lemma ModesCompared(policy: Policy, name: string)
    ensures AllowsTool(policy.(mode := Virtual), name)
            <==> AllowsTool(policy.(mode := Execute), name) && !IsCommandTool(name) && name != "save_workflow"
    ensures AllowsTool(policy.(mode := Plan), name)
            <==> name == "write_plan" || (AllowsTool(policy.(mode := Virtual), name) && !IsWriteTool(name))
  {
  }

  /** What the policy lets a capability keep: everything if it is permitted or discovered, nothing otherwise. */
  function Capped(c: Capability, permitted: bool): Capability {
    if permitted then c else Capability(c.name, Deny, false, false)
  }

  predicate Permitted(policy: Policy, mcpTools: seq<string>, name: ToolName) {
    AllowsTool(policy, name.text) || name.text in mcpTools
  }

  function Restricted(policy: Policy, tools: Tools, mcpTools: seq<string>): Tools {
    map id | id in tools :: Capped(tools[id], Permitted(policy, mcpTools, tools[id].name))
  }

  class Toolset {
    var tools: Tools

    constructor (tools: Tools)
      ensures this.tools == tools
    {
      this.tools := tools;
    }

    method Restrict(policy: Policy, mcpTools: seq<string>)
      modifies this
      ensures tools == Restricted(policy, old(tools), mcpTools)
    {
      var pending := tools.Keys;
      while pending != {}
        invariant pending <= tools.Keys == old(tools).Keys
        invariant forall id <- tools ::
          tools[id] == if id in pending then old(tools)[id] else Restricted(policy, old(tools), mcpTools)[id]
        decreases |pending|
      {
        var id :| id in pending;
        var c := tools[id];
        if !Permitted(policy, mcpTools, c.name) {
          tools := tools[id := c.(permission := Deny, enabled := false, delegatable := false)];
        }
        pending := pending - {id};
      }
    }
  }

  // ----- one delegation

  datatype Inheritance = InheritAll | Subset(ids: seq<ToolId>) | Replace(requested: Tools)

  datatype CapabilityError = ToolNotFound(id: ToolId) | NotDelegatable(id: ToolId) | NotEnabled(id: ToolId)

  predicate CanDelegate(tools: Tools, id: ToolId) {
    id in tools && tools[id].delegatable && tools[id].enabled
  }

  predicate Selects(inheritance: Inheritance, id: ToolId) {
    match inheritance
    case InheritAll => true
    case Subset(ids) => id in ids
    case Replace(requested) => id in requested
  }

  /** Every tool a child names is one its parent can delegate. */
  ghost predicate Grants(tools: Tools, inheritance: Inheritance) {
    inheritance.InheritAll? || forall id :: Selects(inheritance, id) ==> CanDelegate(tools, id)
  }

  function Stricter(a: Permission, b: Permission): Permission {
    if a == Deny || b == Deny then Deny else if a == Ask || b == Ask then Ask else Allow
  }

  /** A parent's capability as its child receives it. */
  function Narrowed(c: Capability, inheritance: Inheritance, id: ToolId): Capability {
    if inheritance.Replace? && id in inheritance.requested then
      var r := inheritance.requested[id];
      Capability(c.name, Stricter(c.permission, r.permission), c.enabled && r.enabled, c.delegatable && r.delegatable)
    else c
  }

  function ChildTools(tools: Tools, inheritance: Inheritance): Tools {
    map id | id in tools && CanDelegate(tools, id) && Selects(inheritance, id) :: Narrowed(tools[id], inheritance, id)
  }

  /** Why one tool is refused. */
  function Refusal(tools: Tools, id: ToolId): Option<CapabilityError> {
    if id !in tools then Some(ToolNotFound(id))
    else if !tools[id].delegatable then Some(NotDelegatable(id))
    else if !tools[id].enabled then Some(NotEnabled(id))
    else None
  }

  /** Derives a child's tools: all it names or none, refusing at the first tool of a subset that
      cannot be delegated, or at some tool of a replacement. */
  method DeriveChildTools(tools: Tools, inheritance: Inheritance) returns (r: Result<Tools, CapabilityError>)
    ensures r.Ok? <==> Grants(tools, inheritance)
    ensures r.Ok? ==> r.value == ChildTools(tools, inheritance)
    ensures r.Err? && inheritance.Subset? ==>
              exists k :: 0 <= k < |inheritance.ids| && Refusal(tools, inheritance.ids[k]) == Some(r.error)
                          && forall id <- inheritance.ids[..k] :: CanDelegate(tools, id)
    ensures r.Err? && inheritance.Replace? ==>
              r.error.NotDelegatable? && r.error.id in inheritance.requested && !CanDelegate(tools, r.error.id)
  {
    match inheritance
    case InheritAll =>
      r := Ok(map id | id in tools && tools[id].delegatable && tools[id].enabled :: tools[id]);
      assert r.value == ChildTools(tools, inheritance);
    case Subset(ids) =>
      r := DeriveSubset(tools, ids);
    case Replace(requested) =>
      var pending := requested.Keys;
      while pending != {}
        invariant pending <= requested.Keys
        invariant forall id <- requested :: id in pending || CanDelegate(tools, id)
        decreases |pending|
      {
        var id :| id in pending;
        if !CanDelegate(tools, id) {
          assert Selects(inheritance, id);
          return Err(NotDelegatable(id));
        }
        pending := pending - {id};
      }
      r := Ok(map id | id in requested :: Narrowed(tools[id], inheritance, id));
      assert r.value == ChildTools(tools, inheritance);
  }

  method DeriveSubset(tools: Tools, ids: seq<ToolId>) returns (r: Result<Tools, CapabilityError>)
    ensures r.Ok? <==> Grants(tools, Subset(ids))
    ensures r.Ok? ==> r.value == ChildTools(tools, Subset(ids))
    ensures r.Err? ==>
              exists k :: 0 <= k < |ids| && Refusal(tools, ids[k]) == Some(r.error)
                          && forall id <- ids[..k] :: CanDelegate(tools, id)
  {
    var child: Tools := map[];
    for i := 0 to |ids|
      invariant forall id <- ids[..i] :: CanDelegate(tools, id)
      invariant child.Keys == set id | id in ids[..i]
      invariant forall id <- child :: id in tools && child[id] == tools[id]
    {
      var id := ids[i];
      assert Selects(Subset(ids), id);
      if id !in tools {
        return Err(ToolNotFound(id));
      }
      if !tools[id].delegatable {
        return Err(NotDelegatable(id));
      }
      if !tools[id].enabled {
        return Err(NotEnabled(id));
      }
      child := child[id := tools[id]];
      assert ids[..i + 1] == ids[..i] + [id];
    }
    assert ids[..|ids|] == ids;
    assert child == ChildTools(tools, Subset(ids));
    r := Ok(child);
  }

  // ----- agents and chains of delegation

  datatype Workspace = Workspace(canRead: bool, canWrite: bool, canSearch: bool)
  datatype Backend = Backend(name: nat)

  datatype Agent = Agent(
    tools: Tools, canSpawn: bool, maxChildDepth: Option<nat>, workspace: Workspace, backend: Backend)

  datatype Spawn = Spawn(inheritance: Inheritance, workspace: Option<Workspace>, backend: Option<Backend>)

  function ChildDepth(depth: Option<nat>): Option<nat> {
    match depth
    case None => None
    case Some(d) => if d == 0 then Some(0) else Some(d - 1)
  }

  function ChildAgent(parent: Agent, spawn: Spawn): Agent {
    Agent(
      ChildTools(parent.tools, spawn.inheritance),
      parent.canSpawn && ChildDepth(parent.maxChildDepth) != Some(0),
      ChildDepth(parent.maxChildDepth),
      if spawn.workspace.Some? then spawn.workspace.value else parent.workspace,
      if spawn.backend.Some? then spawn.backend.value else parent.backend)
  }

  method DeriveChildAgent(parent: Agent, spawn: Spawn) returns (r: Result<Agent, CapabilityError>)
    ensures r.Ok? <==> Grants(parent.tools, spawn.inheritance)
    ensures r.Ok? ==> r.value == ChildAgent(parent, spawn)
  {
    var tools := DeriveChildTools(parent.tools, spawn.inheritance);
    if tools.Err? {
      return Err(tools.error);
    }
    var depth := ChildDepth(parent.maxChildDepth);
    r := Ok(Agent(
      tools.value,
      parent.canSpawn && depth != Some(0),
      depth,
      if spawn.workspace.Some? then spawn.workspace.value else parent.workspace,
      if spawn.backend.Some? then spawn.backend.value else parent.backend));
  }

  /** A line of agents, each spawned successfully by the one before. */
  ghost predicate Chain(agents: seq<Agent>, spawns: seq<Spawn>) {
    && |agents| == |spawns| + 1
    && forall i :: 0 <= i < |spawns| ==>
         Grants(agents[i].tools, spawns[i].inheritance) && agents[i + 1] == ChildAgent(agents[i], spawns[i])
  }

  /** The capability `c` grants no more than `d`: the same tool, no milder permission, nothing
      enabled or delegatable that was not. */
  predicate NoWider(c: Capability, d: Capability) {
    && c.name == d.name
    && c.permission.Strictness() >= d.permission.Strictness()
    && (c.enabled ==> d.enabled)
    && (c.delegatable ==> d.delegatable)
  }

  /** Every ancestor of a tool's holder held it, could delegate it, and granted no less. */
  lemma {:induction false} ToolsNeverWiden(agents: seq<Agent>, spawns: seq<Spawn>, level: nat, id: ToolId)
    requires Chain(agents, spawns) && level < |agents| && id in agents[level].tools
    ensures forall j :: 0 <= j < level ==> CanDelegate(agents[j].tools, id)
    ensures forall j :: 0 <= j <= level ==>
              id in agents[j].tools && NoWider(agents[level].tools[id], agents[j].tools[id])
  {
    if level > 0 {
      assert agents[level] == ChildAgent(agents[level - 1], spawns[level - 1]);
      ToolsNeverWiden(agents, spawns, level - 1, id);
    }
  }

  /** A tool a descendant holds is permitted by the root's policy or a discovered MCP tool. */
  lemma DescendantsStayWithinPolicy(
    policy: Policy, granted: Tools, mcpTools: seq<string>,
    agents: seq<Agent>, spawns: seq<Spawn>, level: nat, id: ToolId)
    requires Chain(agents, spawns) && agents[0].tools == Restricted(policy, granted, mcpTools)
    requires 0 < level < |agents| && id in agents[level].tools
    ensures id in granted && Permitted(policy, mcpTools, granted[id].name)
    ensures NoWider(agents[level].tools[id], granted[id])
  {
    ToolsNeverWiden(agents, spawns, level, id);
    assert CanDelegate(agents[0].tools, id);
  }

  /** The strictest permission among the root's and those asked for along the chain. */
  function StrictestAsked(root: Permission, spawns: seq<Spawn>, id: ToolId): nat {
    if spawns == [] then root.Strictness()
    else
      var rest := StrictestAsked(root, spawns[..|spawns| - 1], id);
      var last := spawns[|spawns| - 1].inheritance;
      if last.Replace? && id in last.requested && last.requested[id].permission.Strictness() > rest
      then last.requested[id].permission.Strictness()
      else rest
  }

  /** Permissions are combined exactly: a descendant's is the strictest one asked for on the way. */
  lemma {:induction false} PermissionIsStrictest(agents: seq<Agent>, spawns: seq<Spawn>, level: nat, id: ToolId)
    requires Chain(agents, spawns) && level < |agents| && id in agents[level].tools
    ensures id in agents[0].tools
    ensures agents[level].tools[id].permission.Strictness()
         == StrictestAsked(agents[0].tools[id].permission, spawns[..level], id)
  {
    if level > 0 {
      assert agents[level] == ChildAgent(agents[level - 1], spawns[level - 1]);
      assert spawns[..level][..level - 1] == spawns[..level - 1];
      PermissionIsStrictest(agents, spawns, level - 1, id);
    }
  }

  /** The spawn depth counts down with the level, and exactly the levels short of the limit may spawn:
      with a limit d, no descendant at level d or deeper, nor at level 1 when d is 0. */
  lemma {:induction false} SpawningEnds(agents: seq<Agent>, spawns: seq<Spawn>, level: nat)
    requires Chain(agents, spawns) && level < |agents|
    ensures agents[level].maxChildDepth.Some? <==> agents[0].maxChildDepth.Some?
    ensures agents[0].maxChildDepth.Some? ==>
              var d := agents[0].maxChildDepth.value;
              agents[level].maxChildDepth.value == if level <= d then d - level else 0
    ensures agents[level].canSpawn
            <==> agents[0].canSpawn && (level == 0 || agents[0].maxChildDepth.None? || level < agents[0].maxChildDepth.value)
  {
    if level > 0 {
      assert agents[level] == ChildAgent(agents[level - 1], spawns[level - 1]);
      SpawningEnds(agents, spawns, level - 1);
    }
  }

  /** The workspace named by the last of some spawns that names one, else a given one. */
  function LastWorkspace(root: Workspace, spawns: seq<Spawn>): Workspace {
    if spawns == [] then root
    else
      var last := spawns[|spawns| - 1].workspace;
      if last.Some? then last.value else LastWorkspace(root, spawns[..|spawns| - 1])
  }

  function LastBackend(root: Backend, spawns: seq<Spawn>): Backend {
    if spawns == [] then root
    else
      var last := spawns[|spawns| - 1].backend;
      if last.Some? then last.value else LastBackend(root, spawns[..|spawns| - 1])
  }

  /** Workspace and backend are replaced, not narrowed, each on its own: a descendant has the one named
      last on its way, or the root's if none is named. */
  lemma {:induction false} OverridesReplace(agents: seq<Agent>, spawns: seq<Spawn>, level: nat)
    requires Chain(agents, spawns) && level < |agents|
    ensures agents[level].workspace == LastWorkspace(agents[0].workspace, spawns[..level])
    ensures agents[level].backend == LastBackend(agents[0].backend, spawns[..level])
  {
    if level > 0 {
      assert agents[level] == ChildAgent(agents[level - 1], spawns[level - 1]);
      assert spawns[..level][..level - 1] == spawns[..level - 1];
      OverridesReplace(agents, spawns, level - 1);
    }
  }
}
