/** The registry of containers and processes and the handling of one exit, as written
    (changes/runsc_container.go:52-72, 221-278, 293-326; changes/runsc_service.go:100-125,
    166-175, 302-350, 596-656). */
module ShimService {
  import opened Wrappers
  import opened ShimProcess
  import opened ShimExits

  datatype ExecReply = NoContainer | AlreadyExists | NotCreated | ExecFailed | Added

  /** What Delete reports: the exit status and time, and which process it was. */
  datatype DeleteReply = NothingDeleted | Deleted(status: int, at: Option<nat>, handle: nat)

  /** A container: its init, once created, and the processes added by exec, by ID. */
  class Container {
    var task: Process?
    var processes: map<string, Process>

    constructor (task: Process?)
      ensures this.task == task && processes == map[] && Keyed()
    {
      this.task := task;
      this.processes := map[];
    }

    /** Every process is registered under its own ID, and none of them is the init. */
    ghost predicate Keyed()
      reads this
    {
      forall id | id in processes :: processes[id].id == id && processes[id] != task
    }

    ghost function Members(): set<Process>
      reads this
    {
      (set id | id in processes :: processes[id]) + (if task == null then {} else {task})
    }

    ghost predicate Known(id: string)
      reads this
    {
      if id == "" then task != null else id in processes
    }

    ghost function Named(id: string): (p: Process)
      requires Known(id)
      reads this
      ensures p in Members()
    {
      if id == "" then task else processes[id]
    }

    /** All: the exec'd processes in any order, then the init. */
    method All() returns (o: seq<Process>)
      ensures forall p :: p in o <==> p in Members()
      ensures |o| == |processes| + (if task == null then 0 else 1)
      ensures task != null ==> o[|o| - 1] == task
    {
      o := [];
      var left := processes.Keys;
      while left != {}
        invariant left <= processes.Keys
        invariant forall p :: p in o <==> exists id :: id in processes && id !in left && processes[id] == p
        invariant |o| + |left| == |processes|
        decreases left
      {
        var id :| id in left;
        o := o + [processes[id]];
        left := left - {id};
      }
      assert forall p :: p in o <==> exists id :: id in processes && processes[id] == p;
      if task != null { o := o + [task]; }
    }

    /** Process: the init for the empty ID, otherwise the exec'd process of that ID. */
    method Lookup(id: string) returns (p: Process?)
      ensures id == "" ==> p == task
      ensures id != "" ==> p == if id in processes then processes[id] else null
    {
      if id == "" { return task; }
      if id in processes { return processes[id]; }
      return null;
    }

    /** Afterwards `p` is what its ID leads to, in place of what had it before. */
    method ProcessAdd(p: Process)
      requires Keyed() && p != task
      modifies this`processes
      ensures Keyed() && processes == old(processes)[p.id := p]
      ensures Members() ==
              old(Members()) - (if p.id in old(processes) then {old(processes)[p.id]} else {}) + {p}
    {
      ghost var before := processes;
      processes := processes[p.id := p];
      assert forall id | id in processes :: id == p.id || (id in before && processes[id] == before[id]);
      assert forall id | id in before && id != p.id :: id in processes && processes[id] == before[id];
      assert processes[p.id] == p;
    }

    /** Afterwards exactly the process that had this ID is gone. */
    method ProcessRemove(id: string)
      requires Keyed()
      modifies this`processes
      ensures Keyed() && processes == old(processes) - {id}
      ensures Members() == old(Members()) - (if id in old(processes) then {old(processes)[id]} else {})
    {
      ghost var before := processes;
      processes := processes - {id};
      assert forall x | x in before && x != id :: x in processes && processes[x] == before[x];
    }
  }

  /** The service: the registry, and what its exit thread has done so far. */
  class Service {
    var containers: map<string, Container>
    var trace: seq<Act>

    constructor ()
      ensures containers == map[] && trace == []
    {
      containers := map[];
      trace := [];
    }

    /** Process `p` is found when looking through container `cid`. */
    ghost predicate In(cid: string, p: Process)
      reads this, containers.Values
    {
      cid in containers && p in containers[cid].Members()
    }

    ghost function Registry(): set<Process>
      reads this, containers.Values
    {
      set cid, p | cid in containers && p in containers[cid].Members() :: p
    }

    ghost predicate Valid()
      reads this, containers.Values, Registry()
    {
      forall p | p in Registry() :: p.Valid()
    }

    /** Containers are distinct objects with processes of their own. */
    ghost predicate Separate()
      reads this, containers.Values
    {
      && (forall c | c in containers :: containers[c].Keyed())
      && (forall c, d | c in containers && d in containers && c != d ::
            containers[c] != containers[d] && containers[c].Members() !! containers[d].Members())
    }

    method GetContainer(id: string) returns (c: Container?)
      ensures c == if id in containers then containers[id] else null
    {
      if id in containers { return containers[id]; }
      return null;
    }

    /** Exec, given the process its init makes, if it does: registered if and only if the
        container is there, has its init, and knows no process under this ID; otherwise nothing
        changes. */
    method Exec(cid: string, p: Process, created: bool) returns (r: ExecReply)
      requires Separate() && p !in Registry()
      modifies containers.Values
      ensures Separate()
      ensures r == Added <==>
                && cid in containers && old(containers[cid].task) != null && p.id != ""
                && p.id !in old(containers[cid].processes) && created
      ensures Registry() == if r == Added then old(Registry()) + {p} else old(Registry())
      ensures r == Added ==> In(cid, p)
    {
      var c := GetContainer(cid);
      if c == null { return NoContainer; }
      var found := c.Lookup(p.id);
      if found != null { return AlreadyExists; }
      if c.task == null { return NotCreated; }
      if !created { return ExecFailed; }
      AddExec(cid, p);
      return Added;
    }

    method AddExec(cid: string, p: Process)
      requires Separate() && p !in Registry() && cid in containers && p.id !in containers[cid].processes
      modifies containers.Values
      ensures Separate() && In(cid, p)
      ensures Registry() == old(Registry()) + {p}
    {
      var c := containers[cid];
      assert c.task != null ==> c.task in c.Members() && c.task in Registry();
      label before:
      c.ProcessAdd(p);
      assert forall d | d in containers && d != cid :: containers[d].Members() == old@before(containers[d].Members());
      assert c.Members() == old@before(c.Members()) + {p};
    }

    /** Delete: reports the record of the process it was for. Deleting a process of exec
        unregisters exactly that one, deleting the init its whole container. */
    method Delete(cid: string, execID: string, works: bool) returns (r: DeleteReply)
      requires Separate()
      modifies this`containers, containers.Values
      ensures Separate()
      ensures r.Deleted? <==> cid in old(containers) && old(containers[cid].Known(execID)) && works
      ensures r.Deleted? ==>
                var p := old(containers[cid].Named(execID));
                && (r.status, r.at, r.handle) == (p.Record().status, p.Record().exitedAt, p.handle)
                && Registry() == old(Registry()) - if execID == "" then old(containers[cid].Members()) else {p}
      ensures r.NothingDeleted? ==> containers == old(containers) && Registry() == old(Registry())
    {
      var c := GetContainer(cid);
      if c == null { return NothingDeleted; }
      var p := c.Lookup(execID);
      if p == null || !works { return NothingDeleted; }
      Unregister(cid, execID);
      var status := p.ExitStatus();
      var at := p.ExitedAt();
      return Deleted(status, at, p.handle);
    }

    method Unregister(cid: string, execID: string)
      requires Separate() && cid in containers && containers[cid].Known(execID)
      modifies this`containers, containers.Values
      ensures Separate()
      ensures Registry() ==
              old(Registry()) - old(if execID == "" then containers[cid].Members() else {containers[cid].Named(execID)})
    {
      if execID != "" {
        RemoveExec(cid, execID);
      } else {
        Forget(cid);
      }
    }

    method RemoveExec(cid: string, execID: string)
      requires Separate() && cid in containers && execID in containers[cid].processes
      modifies containers.Values
      ensures Separate()
      ensures Registry() == old(Registry()) - {old(containers[cid].processes[execID])}
    {
      var c := containers[cid];
      ghost var p := c.processes[execID];
      assert p in c.Members();
      label before:
      c.ProcessRemove(execID);
      assert c.Members() == old@before(c.Members()) - {p};
      assert forall d | d in containers && d != cid ::
          containers[d].Members() == old@before(containers[d].Members()) && p !in containers[d].Members();
    }

    method Forget(cid: string)
      requires Separate() && cid in containers
      modifies this`containers
      ensures Separate() && containers == old(containers) - {cid}
      ensures Registry() == old(Registry()) - old(containers[cid].Members())
    {
      ghost var was := containers;
      containers := containers - {cid};
      assert forall d | d in was && d != cid :: d in containers && containers[d] == was[d];
      assert forall d | d in containers :: d in was && d != cid && was[d].Members() !! was[cid].Members();
    }

    /** The search under the lock: any container, any of its processes, first match. */
    method Find(id: string) returns (cid: string, p: Process?)
      ensures p != null ==> In(cid, p) && p.id == id
      ensures p == null ==> forall q | q in Registry() :: q.id != id
    {
      cid, p := "", null;
      var left := containers.Keys;
      while left != {}
        invariant left <= containers.Keys && p == null
        invariant forall c, q | c in containers && c !in left && q in containers[c].Members() :: q.id != id
        decreases left
      {
        var c :| c in left;
        var all := containers[c].All();
        var i := 0;
        while i < |all|
          invariant 0 <= i <= |all| && p == null
          invariant forall k | 0 <= k < i :: all[k].id != id
        {
          if all[i].id == id {
            assert all[i] in all;
            return c, all[i];
          }
          i := i + 1;
        }
        left := left - {c};
      }
    }

    /** The part after the search: kill all, record, report. */
    method HandleExit(cid: string, p: Process, e: Exit, isOom: bool, now: nat)
      requires p.Valid() && p.id == e.id
      modifies this`trace, p
      ensures p.Valid() && p.Record() == Settle(old(p.Record()), e.status, now)
      ensures trace == old(trace) + Segment(Handled(cid, p, e, isOom, now, p.exited))
    {
      ghost var h := Handled(cid, p, e, isOom, now, Settle(p.Record(), e.status, now).exitedAt);
      ghost var before := trace;
      if p.isInit {
        trace := trace + [Killed(p.handle)];
      }
      assert trace == before + Kills(h);
      p.SetExited(e.status, now);
      trace := trace + [Settled(p.handle, e.status, now)];
      assert trace == before + Settles(h);
      if p.isInit && isOom {
        trace := trace + [Sent(TaskOOM(cid))];
      }
      assert trace == before + Ooms(h);
      var at := p.ExitedAt();
      trace := trace + [Sent(TaskExit(cid, p.handle, p.id, e.status, at))];
    }

    /** The part after the search keeps every record well-formed. */
    method Report(cid: string, p: Process, e: Exit, isOom: bool, now: nat)
      requires Valid() && p in Registry() && p.id == e.id
      modifies this`trace, p
      ensures Valid()
      ensures p.Record() == Settle(old(p.Record()), e.status, now)
      ensures trace == old(trace) + Segment(Handled(cid, p, e, isOom, now, p.exited))
    {
      HandleExit(cid, p, e, isOom, now);
    }

    /** checkProcesses: an exit of an unregistered process does nothing; any other appends the
        one segment of the event-order protocol, settles that process, and touches no other. */
    method CheckProcesses(e: Exit, isOom: bool, now: nat) returns (cid: string, p: Process?)
      requires Valid()
      modifies this`trace, Registry()
      ensures Valid() && containers == old(containers)
      ensures p == null ==> trace == old(trace) && (forall q | q in Registry() :: q.id != e.id)
      ensures p != null ==>
                && In(cid, p) && p.id == e.id
                && p.Record() == Settle(old(p.Record()), e.status, now)
                && trace == old(trace) + Segment(Handled(cid, p, e, isOom, now, p.exited))
      ensures forall q | q in Registry() && q != p :: unchanged(q)
    {
      cid, p := Find(e.id);
      if p == null { return; }
      assert p in Registry();
      Report(cid, p, e, isOom, now);
    }
  }

  /** The acts of one handled exit, spelled out: an init's processes are killed, the exit is
      recorded, an out-of-memory kill of an init's container is announced, and then the exit. */
  lemma HandledActs(cid: string, p: Process, e: Exit, isOom: bool, now: nat, at: Option<nat>)
    requires p.id == e.id
    ensures Segment(Handled(cid, p, e, isOom, now, at)) ==
            (if p.isInit then [Killed(p.handle)] else []) + [Settled(p.handle, e.status, now)]
            + (if p.isInit && isOom then [Sent(TaskOOM(cid))] else [])
            + [Sent(TaskExit(cid, p.handle, e.id, e.status, at))]
  {
  }

  /** The handling of exit `e` of process `p`, as the event-order protocol describes it. */
  function Handled(cid: string, p: Process, e: Exit, isOom: bool, now: nat, at: Option<nat>): Handling {
    Handling(p.handle, p.isInit, cid, e.id, e.status, now, p.isInit && isOom, at)
  }
}
