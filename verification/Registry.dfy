/** The storage nodes: one process and one port each. */
module Registry {
  import opened Bytes

  datatype StorageState = Down | Up | Undetermined

  datatype StorageNode = StorageNode(host: string, port: nat, state: StorageState)

  ghost predicate PortsOk(nodes: map<string, StorageNode>, nextPort: nat) {
    && (forall id :: id in nodes ==> nodes[id].port < nextPort)
    && (forall x, y :: x in nodes && y in nodes && x != y ==> nodes[x].port != nodes[y].port)
  }

  class Registry {
    const autoStart: bool
    var nodes: map<string, StorageNode>
    var processes: map<string, int>
    var nextPort: nat

    /** Every process belongs to a node, and no two nodes share a port. */
    ghost predicate Valid()
      reads this
    {
      PortsOk(nodes, nextPort) && processes.Keys <= nodes.Keys
    }

    constructor (autoStart: bool)
      ensures Valid() && nodes == map[] && nextPort == 9001
    {
      this.autoStart := autoStart;
      nodes, processes, nextPort := map[], map[], 9001;
    }

    /** Whether a process comes up is up to the environment. */
    method StartProcess(id: string) returns (ok: bool)
      modifies `processes
      ensures ok ==> processes.Keys == old(processes).Keys + {id}
      ensures !ok ==> processes == old(processes) || processes == old(processes) - {id}
    {
      var forked: bool := *;
      if !forked {
        return false;
      }
      var pid: int := *;
      processes := processes[id := pid];
      ok := *;
      if !ok {
        StopProcess(id);
      }
    }

    method StopProcess(id: string)
      modifies `processes
      ensures processes == old(processes) - {id}
    {
      if id !in processes {
        return;
      }
      processes := processes - {id};
    }

    method CreateNode(id: string) returns (ok: bool)
      requires Valid() && nextPort < U32_LIMIT
      modifies this
      ensures Valid()
      ensures id in old(nodes) ==> ok && nodes == old(nodes)
      ensures !ok ==> nodes == old(nodes)
      ensures ok && id !in old(nodes) ==>
        nodes == old(nodes)[id := StorageNode("127.0.0.1", old(nextPort), Undetermined)]
    {
      if id in nodes {
        return true;
      }
      var node := StorageNode("127.0.0.1", nextPort, Undetermined);
      nextPort := nextPort + 1;
      if autoStart {
        var started := StartProcess(id);
        if !started {
          return false;
        }
      }
      nodes := nodes[id := node];
      ok := true;
    }

    method UpdateNode(id: string, state: StorageState) returns (ok: bool)
      requires Valid()
      modifies this
      ensures Valid() && ok == (id in old(nodes))
      ensures nodes == if ok then old(nodes)[id := old(nodes)[id].(state := state)] else old(nodes)
    {
      if id !in nodes {
        return false;
      }
      nodes := nodes[id := nodes[id].(state := state)];
      ok := true;
    }

    method RestartNode(id: string) returns (ok: bool)
      requires Valid()
      modifies this
      ensures Valid() && (id !in old(nodes) ==> !ok && nodes == old(nodes))
      ensures id in old(nodes) ==> nodes == old(nodes)[id := old(nodes)[id].(state := if ok then Up else Down)]
    {
      if id !in nodes {
        return false;
      }
      StopProcess(id);
      ok := autoStart;
      if autoStart {
        ok := StartProcess(id);
      }
      nodes := nodes[id := nodes[id].(state := if ok then Up else Down)];
    }

    method DropNode(id: string) returns (ok: bool)
      requires Valid()
      modifies this
      ensures Valid() && ok == (id in old(nodes)) && nodes == old(nodes) - {id}
      ensures processes == old(processes) - {id}
    {
      if id !in nodes {
        return false;
      }
      StopProcess(id);
      nodes := nodes - {id};
      ok := true;
    }

    function GetNode(id: string): (n: Option<StorageNode>)
      reads this
      ensures n == if id in nodes then Some(nodes[id]) else None
    {
      if id in nodes then Some(nodes[id]) else None
    }
  }
}
