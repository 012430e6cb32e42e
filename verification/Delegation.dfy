/** What policies and delegations grant, in terms of tool names and of what was asked for
    (crates/agent-core/src/execution_policy.rs, crates/agent-core/src/capabilities.rs). */
module Delegation {
  import opened Common
  import opened Capabilities

  // ----- the tools of a policy

  const ALWAYS: set<string> := {
    "report_progress", "ask_user_question", "decide", "update_todos", "job_output", "spec_tasks_check", "agent_spawn",
    "rusty_docs", "repo_overview", "repo_health", "repo_risk", "repo_symbol", "code_guidelines"}

  const READING: set<string> := {
    "read_file", "fs.read", "open_document", "project_info", "request_research", "workflow_catalog", "repo_context",
    "repo_wiki", "spec_context"}

  const WRITING: set<string> := {"write_file", "edit_file", "fs.edit"}
  const SEARCHING: set<string> := {"search_codebase", "workspace.search"}
  const WEB: set<string> := {"web_search", "web_fetch", "web_extract"}
  const COMMANDS: set<string> := {"run_command", "shell.exec", "run_check", "install_dependencies"}

  ghost predicate Granted(policy: Policy, tools: set<string>, grant: string, name: string) {
    name in tools && grant in policy.enabledTools
  }

  /** The tools of a session: some always, those behind a grant, writing unless it plans, the saving of
      workflows and commands only when it executes, commands behind three grants, and its plan. */
  ghost predicate HasTool(policy: Policy, name: string) {
    || name in ALWAYS
    || Granted(policy, READING, "read_file", name)
    || Granted(policy, {"list_files"}, "list_files", name)
    || Granted(policy, SEARCHING, "search_codebase", name)
    || Granted(policy, WEB, "web_search", name)
    || (policy.mode != Plan && Granted(policy, WRITING, "write_file", name))
    || (policy.mode == Execute && Granted(policy, {"save_workflow"}, "save_workflow", name))
    || (policy.mode == Execute && Granted(policy, COMMANDS, "run_command", name)
        && "write_file" in policy.enabledTools && "web_search" in policy.enabledTools)
    || (policy.mode == Plan && name == "write_plan")
  }

  /** The policy allows exactly those. */
  lemma AllowsToolIff(policy: Policy, name: string)
    ensures AllowsTool(policy, name) <==> HasTool(policy, name)
  {
    NamesApart(name);
    GrantOf(name);
    AlwaysIff(name);
  }

  lemma AlwaysIff(name: string)
    ensures IsUnconditionallyAllowed(name) <==> name in ALWAYS
    ensures IsWriteTool(name) <==> name in WRITING
    ensures IsCommandTool(name) <==> name in COMMANDS
  {
  }

  /** No tool stands behind two grants. */
  lemma NamesApart(name: string)
    ensures name in ALWAYS ==>
              name !in READING && name !in WRITING && name !in SEARCHING && name !in WEB && name !in COMMANDS
              && name !in ["list_files", "save_workflow", "write_plan"]
    ensures name in ["list_files", "save_workflow", "write_plan"] ==>
              name !in READING && name !in WRITING && name !in SEARCHING && name !in WEB && name !in COMMANDS
    ensures name in COMMANDS ==> name !in READING && name !in WRITING && name !in SEARCHING && name !in WEB
  {
  }

  lemma GrantOf(name: string)
    ensures ToolPermission(name) == Some("read_file") <==> name in READING
    ensures ToolPermission(name) == Some("write_file") <==> name in WRITING
    ensures ToolPermission(name) == Some("search_codebase") <==> name in SEARCHING
    ensures ToolPermission(name) == Some("web_search") <==> name in WEB
    ensures ToolPermission(name) == Some("save_workflow") <==> name == "save_workflow"
    ensures ToolPermission(name) == Some("list_files") <==> name == "list_files"
    ensures ToolPermission(name).Some? ==>
              ToolPermission(name).value in ["read_file", "write_file", "search_codebase", "web_search", "save_workflow", "list_files"]
  {
  }

  /** A server is used only with its own grant and the one for the web, and fully only where the session
      may write and executes. */
  lemma ServerAccessIff(policy: Policy, server: string)
    ensures McpServerAccess(policy, server) == Denied
            <==> server !in policy.allowedMcpServers || "web_search" !in policy.enabledTools
    ensures McpServerAccess(policy, server) == Full
            <==> && server in policy.allowedMcpServers && "web_search" in policy.enabledTools
                 && "write_file" in policy.enabledTools && policy.mode == Execute
  {
  }

  /** Restricting a toolset leaves the tools the policy allows and the discovered ones alone and shuts
      off every other. */
  lemma RestrictionMeans(policy: Policy, tools: Tools, mcpTools: seq<string>, id: ToolId)
    requires id in tools
    ensures id in Restricted(policy, tools, mcpTools)
    ensures
      var name, out := tools[id].name.text, Restricted(policy, tools, mcpTools)[id];
      if HasTool(policy, name) || name in mcpTools then out == tools[id]
      else out.name == tools[id].name && out.permission == Deny && !out.enabled && !out.delegatable
  {
    AllowsToolIff(policy, tools[id].name.text);
  }

  // ----- what a descendant holds

  /** The spawn lets its child have the tool. */
  ghost predicate Names(spawn: Spawn, id: ToolId) {
    match spawn.inheritance
    case InheritAll => true
    case Subset(ids) => id in ids
    case Replace(requested) => id in requested
  }

  /** What a spawn asks a tool to become. */
  ghost predicate AsksFor(spawn: Spawn, id: ToolId, asked: Capability) {
    spawn.inheritance.Replace? && id in spawn.inheritance.requested && spawn.inheritance.requested[id] == asked
  }

  /** Nothing asked for on the way down to `level` switches the tool off. */
  ghost predicate StaysEnabled(spawns: seq<Spawn>, level: nat, id: ToolId)
    requires level <= |spawns|
  {
    forall j, asked :: 0 <= j < level && AsksFor(spawns[j], id, asked) ==> asked.enabled
  }

  ghost predicate StaysDelegatable(spawns: seq<Spawn>, level: nat, id: ToolId)
    requires level <= |spawns|
  {
    forall j, asked :: 0 <= j < level && AsksFor(spawns[j], id, asked) ==> asked.delegatable
  }

  /** The root has the permission, or it was asked for on the way down. */
  ghost predicate OnTheWay(root: Permission, spawns: seq<Spawn>, level: nat, id: ToolId, p: Permission)
    requires level <= |spawns|
  {
    root == p || exists j, asked :: 0 <= j < level && AsksFor(spawns[j], id, asked) && asked.permission == p
  }

  /** What a descendant's tool is: the root's, switched off exactly when the root or some delegation on
      the way switched it off, and denied, or else asked about, exactly when one of them says so. */
  ghost predicate IsNarrowed(root: Capability, spawns: seq<Spawn>, level: nat, id: ToolId, c: Capability)
    requires level <= |spawns|
  {
    && c.name == root.name
    && (c.enabled <==> root.enabled && StaysEnabled(spawns, level, id))
    && (c.delegatable <==> root.delegatable && StaysDelegatable(spawns, level, id))
    && (c.permission == Deny <==> OnTheWay(root.permission, spawns, level, id, Deny))
    && (c.permission == Allow <==>
          !OnTheWay(root.permission, spawns, level, id, Deny) && !OnTheWay(root.permission, spawns, level, id, Ask))
  }

  lemma OneDelegation(root: Capability, spawns: seq<Spawn>, level: nat, id: ToolId, c: Capability)
    requires level < |spawns| && IsNarrowed(root, spawns, level, id, c)
    ensures IsNarrowed(root, spawns, level + 1, id, Narrowed(c, spawns[level].inheritance, id))
  {
    var spawn := spawns[level];
    if spawn.inheritance.Replace? && id in spawn.inheritance.requested {
      assert AsksFor(spawn, id, spawn.inheritance.requested[id]);
    }
    AskedBelow(spawns, level, id);
    OnTheWayBelow(root.permission, spawns, level, id, Deny);
    OnTheWayBelow(root.permission, spawns, level, id, Ask);
  }

  /** What is asked one level further down is what was asked before, and by the last spawn. */
  lemma AskedBelow(spawns: seq<Spawn>, level: nat, id: ToolId)
    requires level < |spawns|
    ensures StaysEnabled(spawns, level + 1, id)
            <==> StaysEnabled(spawns, level, id) && forall asked :: AsksFor(spawns[level], id, asked) ==> asked.enabled
    ensures StaysDelegatable(spawns, level + 1, id)
            <==> StaysDelegatable(spawns, level, id) && forall asked :: AsksFor(spawns[level], id, asked) ==> asked.delegatable
  {
  }

  lemma OnTheWayBelow(root: Permission, spawns: seq<Spawn>, level: nat, id: ToolId, p: Permission)
    requires level < |spawns|
    ensures OnTheWay(root, spawns, level + 1, id, p)
            <==> OnTheWay(root, spawns, level, id, p)
                 || exists asked :: AsksFor(spawns[level], id, asked) && asked.permission == p
  {
    if OnTheWay(root, spawns, level + 1, id, p) && root != p {
      var j, asked :| 0 <= j < level + 1 && AsksFor(spawns[j], id, asked) && asked.permission == p;
      assert j < level || AsksFor(spawns[level], id, asked);
    }
    if asked :| AsksFor(spawns[level], id, asked) && asked.permission == p {
      assert 0 <= level < level + 1;
    }
  }

  /** What it takes for a descendant at a level to hold a tool that the root holds. */
  ghost predicate ReachesLevel(root: Capability, spawns: seq<Spawn>, level: nat, id: ToolId)
    requires level <= |spawns|
  {
    && (forall j :: 0 <= j < level ==> Names(spawns[j], id))
    && (level > 0 ==>
          && root.enabled && StaysEnabled(spawns, level - 1, id)
          && root.delegatable && StaysDelegatable(spawns, level - 1, id))
  }

  lemma ReachesNext(root: Capability, spawns: seq<Spawn>, level: nat, id: ToolId, c: Capability)
    requires level < |spawns| && IsNarrowed(root, spawns, level, id, c) && ReachesLevel(root, spawns, level, id)
    ensures ReachesLevel(root, spawns, level + 1, id) <==> Names(spawns[level], id) && c.enabled && c.delegatable
  {
  }

  lemma NotNext(root: Capability, spawns: seq<Spawn>, level: nat, id: ToolId)
    requires level < |spawns| && !ReachesLevel(root, spawns, level, id)
    ensures !ReachesLevel(root, spawns, level + 1, id)
  {
    if level > 0 {
      AskedBelow(spawns, level - 1, id);
    }
  }

  lemma ChildHolds(parent: Agent, spawn: Spawn, id: ToolId)
    ensures id in ChildAgent(parent, spawn).tools
            <==> id in parent.tools && parent.tools[id].enabled && parent.tools[id].delegatable && Names(spawn, id)
    ensures id in ChildAgent(parent, spawn).tools ==>
              ChildAgent(parent, spawn).tools[id] == Narrowed(parent.tools[id], spawn.inheritance, id)
  {
  }

  /** A descendant holds a tool exactly when the root holds it, every spawn on the way names it, and it
      could be delegated at every level above; and then it is narrowed exactly as was asked for. */
  lemma {:induction false} HeldIff(agents: seq<Agent>, spawns: seq<Spawn>, level: nat, id: ToolId)
    requires Chain(agents, spawns) && level < |agents|
    ensures id in agents[level].tools <==> id in agents[0].tools && ReachesLevel(agents[0].tools[id], spawns, level, id)
    ensures id in agents[level].tools ==> IsNarrowed(agents[0].tools[id], spawns, level, id, agents[level].tools[id]) == true
  {
    if level > 0 {
      assert agents[level] == ChildAgent(agents[level - 1], spawns[level - 1]);
      HeldIff(agents, spawns, level - 1, id);
      ChildHolds(agents[level - 1], spawns[level - 1], id);
      if id in agents[level - 1].tools {
        ReachesNext(agents[0].tools[id], spawns, level - 1, id, agents[level - 1].tools[id]);
        OneDelegation(agents[0].tools[id], spawns, level - 1, id, agents[level - 1].tools[id]);
      } else if id in agents[0].tools {
        NotNext(agents[0].tools[id], spawns, level - 1, id);
      }
    }
  }
}
