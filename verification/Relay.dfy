/** One replica's table of live tunnels: workspace, then agent, then connection. */
module Relay {
  import opened SessionDirectory

  class AgentConn {
    const identity: Key

    constructor (identity: Key)
      ensures this.identity == identity
    {
      this.identity := identity;
    }
  }

  type Table = map<Id, map<Id, AgentConn>>

  function At(agents: Table, k: Key): AgentConn? {
    if k.workspace in agents && k.agent in agents[k.workspace] then agents[k.workspace][k.agent] else null
  }

  /** Every entry stands under its own identity, and no workspace is left empty. */
  ghost predicate Sound(agents: Table) {
    forall w :: w in agents ==> agents[w] != map[] && forall a :: a in agents[w] ==> agents[w][a].identity == Key(w, a)
  }

  class Relay {
    var agents: Table

    constructor ()
      ensures agents == map[] && Sound(agents)
    {
      agents := map[];
    }

    method Register(ac: AgentConn)
      requires Sound(agents)
      modifies this
      ensures Sound(agents) && forall k :: At(agents, k) == if k == ac.identity then ac else old(At(agents, k))
    {
      var id := ac.identity;
      var byAgent: map<Id, AgentConn> := if id.workspace in agents then agents[id.workspace] else map[];
      byAgent := byAgent[id.agent := ac];
      assert id.agent in byAgent;
      agents := agents[id.workspace := byAgent];
    }

    /** Removes the connection only if it is still the registered one. */
    method Deregister(ac: AgentConn)
      requires Sound(agents)
      modifies this
      ensures Sound(agents)
      ensures forall k :: At(agents, k) == if old(At(agents, k)) == ac then null else old(At(agents, k))
    {
      var id := ac.identity;
      if id.workspace !in agents { return; }
      var byAgent: map<Id, AgentConn> := agents[id.workspace];
      ghost var before := agents;
      if id.agent in byAgent && byAgent[id.agent] == ac {
        byAgent := byAgent - {id.agent};
        agents := agents[id.workspace := byAgent];
      }
      if byAgent == map[] {
        agents := agents - {id.workspace};
      }
      forall k ensures At(agents, k) == if At(before, k) == ac then null else At(before, k) {
        EntriesAfter(before, agents, byAgent, ac, k);
      }
    }

    /** lookup: scoped to the workspace, so a foreign agent is never returned. */
    method Lookup(k: Key) returns (ac: AgentConn?)
      requires Sound(agents)
      ensures ac == At(agents, k) && (ac != null ==> ac.identity == k)
    {
      ac := null;
      if k.workspace in agents && k.agent in agents[k.workspace] { ac := agents[k.workspace][k.agent]; }
    }
  }

  /** One key's entry after the workspace of `ac` became `byAgent`, or went with it. */
  lemma EntriesAfter(before: Table, after: Table, byAgent: map<Id, AgentConn>, ac: AgentConn, k: Key)
    requires Sound(before) && ac.identity.workspace in before
    requires var w := ac.identity.workspace;
             && byAgent == (if At(before, ac.identity) == ac then before[w] - {ac.identity.agent} else before[w])
             && after == (if byAgent == map[] then before - {w} else before[w := byAgent])
    ensures At(after, k) == if At(before, k) == ac then null else At(before, k)
  {
    if k.workspace == ac.identity.workspace && k.agent in before[k.workspace] {
      assert At(before, k).identity == k;
      assert k.agent in byAgent <==> At(before, k) != ac;
    }
  }
}
