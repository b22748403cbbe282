/** Registration of a node in LINSTOR (pkg/linstorhelper/client.go). */
module Nodes {
  import opened Wrappers
  import opened Machines
  import opened Properties

  /** The nodes LINSTOR knows, with their properties. */
  type Registry = map<string, Props>

  /** How the calls end: whether the node can be read, its creation, whether it can then be read, the change
      of its properties, and whether its network interfaces can be brought in line. */
  datatype Calls = Calls(readable: bool, create: Reply, reread: bool, update: Reply, interfaces: bool)

  ghost function Created(nodes: Registry, n: string, wanted: Props, c: Calls): Registry {
    if c.readable && n !in nodes && Written(c.create) then nodes[n := Stamp(wanted)] else nodes
  }

  /** The node is there, and known to be. */
  predicate Found(nodes: Registry, n: string, c: Calls) {
    c.readable && (n in nodes || (c.create == Applied && c.reread))
  }

  ghost function Registered(nodes: Registry, n: string, wanted: Props, c: Calls): Registry {
    var created := Created(nodes, n, wanted, c);
    if Found(nodes, n, c) && n in created && Written(c.update)
    then created[n := Apply(created[n], Diff(created[n], wanted))] else created
  }

  ghost predicate Registers(nodes: Registry, n: string, wanted: Props, c: Calls) {
    && Found(nodes, n, c) && c.interfaces
    && (n in nodes && Diff(nodes[n], wanted).Some? ==> c.update == Applied)
  }

  class Controller {
    var nodes: Registry

    constructor (nodes: Registry)
      ensures this.nodes == nodes
    {
      this.nodes := nodes;
    }

    method CreateOrUpdateNode(n: string, wanted: Props, c: Calls) returns (ok: bool)
      modifies this
      ensures nodes == Registered(old(nodes), n, wanted, c)
      ensures ok == Registers(old(nodes), n, wanted, c)
    {
      if !c.readable {
        return false;
      }
      StampSettled(wanted);
      if n !in nodes {
        var props := UpdateLastApplyProperty(wanted);
        if Written(c.create) {
          nodes := nodes[n := props];
        }
        if c.create != Applied || !c.reread {
          return false;
        }
      }
      var change := MakePropertiesModification(nodes[n], wanted);
      if change.Some? {
        if Written(c.update) {
          nodes := nodes[n := Apply(nodes[n], change)];
        }
        if c.update != Applied {
          return false;
        }
      }
      assert nodes == nodes[n := nodes[n]];
      return c.interfaces;
    }
  }

  /** What LINSTOR is told about a node is in line with what is wanted. */
  ghost predicate UpToDate(nodes: Registry, n: string, wanted: Props) {
    n in nodes && Diff(nodes[n], wanted) == None
  }

  lemma DiffApplied(props: Props, wanted: Props)
    requires Diff(props, wanted).Some? && !(wanted.Keys <= {LAST_APPLY})
    ensures Apply(props, Diff(props, wanted)) != props
  {
    StampOwned(wanted);
    StampEmpty(wanted);
    NothingDiffers(props, Stamp(wanted));
    ApplyReconciles(props, wanted);
    var s := Stamp(wanted);
    if k :| k in s && Lookup(props, k) != Some(s[k]) {
      assert Lookup(Reconciled(props, wanted), k) == Some(s[k]);
    }
  }

  /** A registration that succeeds leaves the node registered with the wanted properties in line, and changes
      no other node; it changes nothing at all exactly if that was so before. */
  lemma RegisteredIsUpToDate(nodes: Registry, n: string, wanted: Props, c: Calls)
    requires Registers(nodes, n, wanted, c) && !(wanted.Keys <= {LAST_APPLY})
    ensures var after := Registered(nodes, n, wanted, c);
            && UpToDate(after, n, wanted) && InLine(after[n], wanted)
            && (forall k :: k in wanted && k != LAST_APPLY ==> Lookup(after[n], k) == Some(wanted[k]))
            && (after == nodes <==> UpToDate(nodes, n, wanted))
  {
    var after := Registered(nodes, n, wanted, c);
    StampSettled(wanted);
    StampOwned(wanted);
    StampEmpty(wanted);
    if n in nodes {
      Settles(nodes[n], wanted);
      if Diff(nodes[n], wanted).Some? {
        DiffApplied(nodes[n], wanted);
      } else {
        assert after == nodes;
      }
    }
    UpToDateIsInLine(after[n], wanted);
  }

  lemma UpToDateIsInLine(props: Props, wanted: Props)
    requires Diff(props, wanted) == None && !(wanted.Keys <= {LAST_APPLY})
    ensures InLine(props, wanted)
    ensures forall k :: k in wanted && k != LAST_APPLY ==> Lookup(props, k) == Some(wanted[k])
  {
    var s := Stamp(wanted);
    StampOwned(wanted);
    StampEmpty(wanted);
    NothingDiffers(props, s);
    SameMarkSameOwned(props, s);
    forall k | k in wanted && k != LAST_APPLY ensures Lookup(props, k) == Some(wanted[k]) {
      assert k in wanted - {LAST_APPLY} && k in s;
    }
  }

  /** Whatever becomes of the calls, no other node is touched and none is lost. */
  lemma RegisteredFrame(nodes: Registry, n: string, wanted: Props, c: Calls)
    ensures var after := Registered(nodes, n, wanted, c);
            && nodes.Keys <= after.Keys <= nodes.Keys + {n}
            && after - {n} == nodes - {n}
            && (UpToDate(nodes, n, wanted) ==> after == nodes)
  {
    hide Diff, Stamp;
    var after := Registered(nodes, n, wanted, c);
    assert Created(nodes, n, wanted, c) - {n} == nodes - {n};
    assert after - {n} == nodes - {n};
    if UpToDate(nodes, n, wanted) {
      assert Apply(nodes[n], None) == nodes[n];
      assert nodes[n := nodes[n]] == nodes;
    }
  }

  /** What becomes of the node, call by call: a node that is missing is created with the wanted properties and
      the list of their keys; one that is there gets the change it needs; and that is all. */
  lemma RegistrationDoes(nodes: Registry, n: string, wanted: Props, c: Calls)
    ensures var after := Registered(nodes, n, wanted, c);
            if !c.readable then after == nodes
            else if n !in nodes then
              after == if c.create == Applied || c.create == AppliedUnseen then nodes[n := Stamp(wanted)] else nodes
            else
              var written := c.update == Applied || c.update == AppliedUnseen;
              after == nodes[n := if written then Apply(nodes[n], Diff(nodes[n], wanted)) else nodes[n]]
    ensures Registers(nodes, n, wanted, c) <==>
              && c.readable && c.interfaces
              && if n in nodes then Diff(nodes[n], wanted) == None || c.update == Applied
                 else c.create == Applied && c.reread
  {
    StampSettled(wanted);
    hide Diff, Stamp;
    if n in nodes {
      assert nodes[n := nodes[n]] == nodes;
    }
  }
}
