/** ClusterAPI Machine hooks (pkg/clusterapi/machine.go). */
module Machines {
  /** Which of the two hooks the Machine carries. */
  datatype Hooks = Hooks(drain: bool, terminate: bool)

  /** The Machine on the API server, and the copy one reconcile works on. */
  datatype Link = Link(server: Hooks, local: Hooks, deleting: bool)

  /** What becomes of an update: written; written although an error is reported; not written; no such object. */
  datatype Reply = Applied | AppliedUnseen | Rejected | NotFound

  predicate Written(r: Reply) { r == Applied || r == AppliedUnseen }

  predicate Failing(r: Reply) { r == AppliedUnseen || r == Rejected }

  function Push(l: Link, r: Reply): Link {
    if Written(r) then l.(server := l.local) else l
  }

  function DeletionPrevented(l: Link, r: Reply): Link {
    if l.deleting || (l.local.drain && l.local.terminate) then l
    else Push(l.(local := Hooks(true, true)), r)
  }

  function DrainAllowed(l: Link, r: Reply): Link {
    if !l.local.drain then l else Push(l.(local := l.local.(drain := false)), r)
  }

  function TerminationAllowed(l: Link, r: Reply): Link {
    if !l.local.terminate then l else Push(l.(local := l.local.(terminate := false)), r)
  }

  class Client {
    var server: Hooks
    var local: Hooks
    const deleting: bool

    constructor (hooks: Hooks, deleting: bool)
      ensures Now() == Link(hooks, hooks, deleting)
    {
      this.server, this.local, this.deleting := hooks, hooks, deleting;
    }

    ghost function Now(): Link
      reads this
    {
      Link(server, local, deleting)
    }

    method Update(r: Reply) returns (ok: bool)
      modifies this`server
      ensures Now() == Push(old(Now()), r) && ok == (r == Applied)
    {
      if r == Applied || r == AppliedUnseen {
        server := local;
      }
      ok := r == Applied;
    }

    /** Any failed update is an error here, also one that finds no Machine. */
    method PreventMachineDeletion(r: Reply) returns (ok: bool)
      modifies this
      ensures Now() == DeletionPrevented(old(Now()), r)
      ensures ok == (r == Applied || old(deleting || (local.drain && local.terminate)))
    {
      if deleting {
        return true;
      }
      if !local.drain || !local.terminate {
        local := Hooks(true, true);
        ok := Update(r);
        return;
      }
      return true;
    }

    method AllowMachineDrain(r: Reply) returns (ok: bool)
      modifies this
      ensures Now() == DrainAllowed(old(Now()), r)
      ensures ok == (!Failing(r) || !old(local.drain))
    {
      ok := true;
      if local.drain {
        local := local.(drain := false);
        var updated := Update(r);
        ok := updated || r == NotFound;
      }
    }

    method AllowMachineTermination(r: Reply) returns (ok: bool)
      modifies this
      ensures Now() == TerminationAllowed(old(Now()), r)
      ensures ok == (!Failing(r) || !old(local.terminate))
    {
      ok := true;
      if local.terminate {
        local := local.(terminate := false);
        var updated := Update(r);
        ok := updated || r == NotFound;
      }
    }
  }
}
