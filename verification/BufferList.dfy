/**
 The circular list of mapped DMA buffers: ve_mem_list.h and map_dma_buf_addr, unmap_dma_buf_addr of
 cedar_ve.c.
 */
module BufferLists {

  /** What identifies a mapped buffer: its descriptor, process and open file. */
  datatype Info = Info(fd: int, pid: int, filp: int, addr: nat)

  /** A struct dma_buf_info, linked through its first member. */
  class Node {
    const info: Info
    var next: Node?
    var prev: Node?

    constructor (info: Info)
      ensures this.info == info
    {
      this.info := info;
      next, prev := null, null;
    }
  }

  predicate Matches(i: Info, all: bool, fd: int, pid: int, filp: int) {
    (all || i.fd == fd) && i.pid == pid && i.filp == filp
  }

  ghost predicate Distinct(ns: seq<Node>) {
    forall i, j :: 0 <= i < j < |ns| ==> ns[i] != ns[j]
  }

  /** Neighbours in the sequence point at each other. */
  ghost predicate Chained(c: seq<Node>)
    reads c
  {
    forall i :: 0 <= i < |c| - 1 ==> c[i].next == c[i + 1] && c[i + 1].prev == c[i]
  }

  /** The entries that an unmap of a whole file leaves, in their order. */
  function Survivors(ns: seq<Node>, pid: int, filp: int): seq<Node> {
    if ns == [] then [] else
    var rest := Survivors(ns[..|ns| - 1], pid, filp);
    if Matches(ns[|ns| - 1].info, true, 0, pid, filp) then rest else rest + [ns[|ns| - 1]]
  }

  class BufferList {
    const head: Node
    /** bMemDevAttachFlag */
    var attached: bool
    /** References taken with dma_buf_get, dma_buf_attach and dma_buf_map_attachment and not yet given back. */
    var bufRefs: nat
    var attachRefs: nat
    var mapRefs: nat
    ghost var nodes: seq<Node>
    /** Every node that has been in the list; the links of no other node are touched. */
    ghost var repr: set<Node>

    ghost function Circle(): seq<Node>
      reads this`nodes
    {
      [head] + nodes + [head]
    }

    /** One circular sequence with consistent links in both directions. */
    ghost predicate Linked()
      reads this`nodes, this`repr, repr
    {
      && head in repr && (forall i :: 0 <= i < |nodes| ==> nodes[i] in repr)
      && head !in nodes && Distinct(nodes) && Chained(Circle())
    }

    /** The list is well linked and each entry holds exactly one reference of each kind. */
    ghost predicate Valid()
      reads this, repr
    {
      Linked() && bufRefs == |nodes| && attachRefs == |nodes| && mapRefs == |nodes| && (nodes != [] ==> attached)
    }

    constructor ()
      ensures Valid() && nodes == [] && !attached && fresh(repr)
    {
      head := new Node(Info(0, 0, 0, 0));
      attached := false;
      bufRefs, attachRefs, mapRefs := 0, 0, 0;
      nodes := [];
      repr := {head};
      new;
      head.next := head;
      head.prev := head;
    }

    /** __aw_list_add between the last entry and the head, as aw_mem_list_add_tail calls it. */
    method AddTail(x: Node)
      requires Linked() && x != head && x !in nodes
      modifies this`nodes, this`repr, repr, x
      ensures Linked() && nodes == old(nodes) + [x] && repr == old(repr) + {x}
    {
      ghost var c := Circle();
      assert c[|nodes|].next == c[|nodes| + 1] == head && c[|nodes| + 1].prev == c[|nodes|];
      var prev := head.prev;
      head.prev := x;
      x.next := head;
      x.prev := prev;
      prev.next := x;
      nodes, repr := nodes + [x], repr + {x};
      ghost var c' := Circle();
      assert forall i :: 0 <= i <= |old(nodes)| ==> c'[i] == c[i];
      assert c'[|nodes|] == x && c'[|nodes| + 1] == head;
    }

    /** aw_mem_list_del: the neighbours are joined and the entry's links are poisoned. */
    method Del(x: Node, ghost k: nat)
      requires Linked() && k < |nodes| && nodes[k] == x
      modifies this`nodes, repr
      ensures Linked() && nodes == old(nodes)[..k] + old(nodes)[k + 1..]
      ensures x.next == null && x.prev == null
    {
      ghost var c := Circle();
      assert c[k + 1] == x && x.prev == c[k] && x.next == c[k + 2];
      var prev, next := x.prev, x.next;
      next.prev := prev;
      prev.next := next;
      x.next, x.prev := null, null;
      nodes := nodes[..k] + nodes[k + 1..];
      ghost var c' := Circle();
      forall i | 0 <= i < |c'| - 1
        ensures c'[i].next == c'[i + 1] && c'[i + 1].prev == c'[i]
      {
        if i > k {
          assert c'[i] == c[i + 1] && c'[i + 1] == c[i + 2];
        } else if i == k {
          assert c'[i] == c[i] && c'[i + 1] == c[i + 2];
        } else {
          assert c'[i] == c[i] && c'[i + 1] == c[i + 1];
        }
      }
    }
  
    /**
     map_dma_buf_addr, with the outcomes of the allocation and of the three DMA-buffer calls as inputs:
     success appends one entry, and every failure gives back exactly what was taken.
     */
    method MapDmaBuf(info: Info, allocOk: bool, getOk: bool, attachOk: bool, mapOk: bool) returns (r: int)
      requires Valid()
      modifies this, repr
      ensures Valid() && attached && fresh(repr - old(repr))
      ensures allocOk && getOk && attachOk && mapOk ==>
        r == 0 && |nodes| == |old(nodes)| + 1 && nodes[..|old(nodes)|] == old(nodes) &&
        nodes[|old(nodes)|].info == info && fresh(nodes[|old(nodes)|])
      ensures !(allocOk && getOk && attachOk && mapOk) ==> r == -1 && nodes == old(nodes)
    {
      assert forall i :: 0 <= i < |nodes| ==> nodes[i] in repr;
      assert head in repr;
      hide BufferList.Linked;
      attached := true;
      if !allocOk {
        return -1;
      }
      var bufInfo := new Node(info);
      if getOk {
        bufRefs := bufRefs + 1;
        if attachOk {
          attachRefs := attachRefs + 1;
          if mapOk {
            mapRefs := mapRefs + 1;
            AddTail(bufInfo);
            return 0;
          }
          attachRefs := attachRefs - 1;
        }
        bufRefs := bufRefs - 1;
      }
      return -1;
    }

    /** The successor of an entry is the next one of the sequence, or the head after the last. */
    lemma NextOf(k: nat)
      requires Valid() && k < |nodes|
      ensures nodes[k].next == (nodes + [head])[k + 1]
    {
      var c := Circle();
      assert c[k + 1] == nodes[k] && c[k + 2] == (nodes + [head])[k + 1];
      assert c[k + 1].next == c[k + 2];
    }

    /** The k-th entry of the original list, and the head behind its last. */
    ghost function EntryOf(orig: seq<Node>, k: nat): Node
      requires k <= |orig|
    {
      if k < |orig| then orig[k] else head
    }

    /** The entry that is visited next still points at the one that followed it in the original list. */
    lemma SuccessorOf(orig: seq<Node>, kept: seq<Node>, k: nat, all: bool, fd: int, pid: int, filp: int)
      requires Valid() && k < |orig| && Progress(orig, nodes, kept, k, all, fd, pid, filp)
      ensures orig[k].next == EntryOf(orig, k + 1)
    {
      hide BufferList.Linked, Progress;
      Here(orig, nodes, kept, k, orig + [head], all, fd, pid, filp);
      NextOf(|kept|);
    }

    lemma HeadOutside()
      requires Valid()
      ensures forall i :: 0 <= i < |nodes| ==> nodes[i] != head
    {
    }

    lemma FirstOf()
      requires Valid()
      ensures head.next == EntryOf(nodes, 0)
    {
      var c := Circle();
      assert c[0].next == c[1] && c[1] == EntryOf(nodes, 0);
    }

    /** The references of an entry are given back and the entry is deleted. */
    method Release(x: Node, ghost k: nat)
      requires Valid() && k < |nodes| && nodes[k] == x
      modifies this`nodes, this`bufRefs, this`attachRefs, this`mapRefs, repr
      ensures Valid() && nodes == old(nodes)[..k] + old(nodes)[k + 1..]
    {
      mapRefs := mapRefs - 1;
      attachRefs := attachRefs - 1;
      bufRefs := bufRefs - 1;
      Del(x, k);
    }

    /** The loop body of unmap_dma_buf_addr for the k-th entry of the list it started with. */
    method Visit(pos: Node, all: bool, fd: int, pid: int, filp: int,
                 ghost orig: seq<Node>, ghost kept: seq<Node>, ghost k: nat)
      returns (removed: bool, ghost kept': seq<Node>)
      requires Valid() && k < |orig| && pos == orig[k] && Progress(orig, nodes, kept, k, all, fd, pid, filp)
      modifies this`nodes, this`bufRefs, this`attachRefs, this`mapRefs, repr
      ensures Valid()
      ensures if removed && !all then FirstRemoved(orig, nodes, fd, pid, filp)
              else Progress(orig, nodes, kept', k + 1, all, fd, pid, filp)
    {
      hide BufferList.Linked, Matches, Progress, FirstRemoved;
      Here(orig, nodes, kept, k, orig + [head], all, fd, pid, filp);
      removed := Matches(pos.info, all, fd, pid, filp);
      kept' := kept;
      if removed {
        DropStep(orig, nodes, kept, k, all, fd, pid, filp);
        Release(pos, |kept|);
      } else {
        KeepStep(orig, nodes, kept, k, all, fd, pid, filp);
        kept' := kept + [pos];
      }
    }

    /**
     unmap_dma_buf_addr. For a whole file, exactly that file's entries go and the others keep their
     order; for one descriptor, exactly the first matching entry goes. The i-th round looks at the i-th
     entry of the original list, although the loop deletes while it iterates.
     */
    method UnmapDmaBuf(all: bool, fd: int, pid: int, filp: int) returns (visits: nat)
      requires Valid()
      modifies this`nodes, this`bufRefs, this`attachRefs, this`mapRefs, repr
      ensures Valid()
      ensures all ==> nodes == Survivors(old(nodes), pid, filp) && visits == |old(nodes)|
      ensures !all ==> FirstRemoved(old(nodes), nodes, fd, pid, filp) && visits <= |old(nodes)|
    {
      hide BufferList.Linked, Progress, Survivors, FirstRemoved;
      ghost var orig, kept := nodes, [];
      visits := 0;
      Begin(orig, all, fd, pid, filp);
      if !attached {
        Finish(orig, nodes, kept, all, fd, pid, filp);
        return;
      }
      FirstOf();
      HeadOutside();
      hide BufferList.Valid;
      var pos: Node := head.next;
      var next: Node? := pos.next;
      if orig != [] {
        SuccessorOf(orig, kept, 0, all, fd, pid, filp);
      }
      while pos != head
        invariant Valid() && visits <= |orig| && Progress(orig, nodes, kept, visits, all, fd, pid, filp)
        invariant pos == EntryOf(orig, visits) && (visits < |orig| ==> next == EntryOf(orig, visits + 1))
        decreases |orig| - visits
      {
        var removed: bool;
        removed, kept := Visit(pos, all, fd, pid, filp, orig, kept, visits);
        visits := visits + 1;
        if removed && !all {
          return;
        }
        pos := next;
        if visits < |orig| {
          SuccessorOf(orig, kept, visits, all, fd, pid, filp);
        }
        next := pos.next;
      }
      Finish(orig, nodes, kept, all, fd, pid, filp);
    }
  }

  /** After k entries of orig have been visited, ns holds the kept ones and then the rest of orig. */
  ghost predicate Progress(orig: seq<Node>, ns: seq<Node>, kept: seq<Node>, k: nat,
                           all: bool, fd: int, pid: int, filp: int)
  {
    && k <= |orig| && ns == kept + orig[k..]
    && (all ==> kept == Survivors(orig[..k], pid, filp))
    && (!all ==> kept == orig[..k] && NoMatch(kept, fd, pid, filp))
  }

  lemma Begin(orig: seq<Node>, all: bool, fd: int, pid: int, filp: int)
    ensures Progress(orig, orig, [], 0, all, fd, pid, filp)
  {
    assert [] + orig[0..] == orig && orig[..0] == [];
  }

  lemma Here(orig: seq<Node>, ns: seq<Node>, kept: seq<Node>, k: nat, stop: seq<Node>,
             all: bool, fd: int, pid: int, filp: int)
    requires Progress(orig, ns, kept, k, all, fd, pid, filp) && k < |orig|
    requires |stop| == |orig| + 1 && stop[..|orig|] == orig
    ensures |kept| < |ns| && ns[|kept|] == orig[k] && (ns + [stop[|orig|]])[|kept| + 1] == stop[k + 1]
  {
    hide Survivors, NoMatch;
  }

  lemma KeepStep(orig: seq<Node>, ns: seq<Node>, kept: seq<Node>, k: nat, all: bool, fd: int, pid: int, filp: int)
    requires Progress(orig, ns, kept, k, all, fd, pid, filp) && k < |orig| && !Matches(orig[k].info, all, fd, pid, filp)
    ensures Progress(orig, ns, kept + [orig[k]], k + 1, all, fd, pid, filp)
  {
    assert orig[..k + 1][..k] == orig[..k];
    assert orig[k..] == [orig[k]] + orig[k + 1..];
  }

  lemma DropStep(orig: seq<Node>, ns: seq<Node>, kept: seq<Node>, k: nat, all: bool, fd: int, pid: int, filp: int)
    requires Progress(orig, ns, kept, k, all, fd, pid, filp) && k < |orig| && Matches(orig[k].info, all, fd, pid, filp)
    ensures |kept| < |ns|
    ensures var ns' := ns[..|kept|] + ns[|kept| + 1..];
      if all then Progress(orig, ns', kept, k + 1, all, fd, pid, filp) else FirstRemoved(orig, ns', fd, pid, filp)
  {
    assert orig[..k + 1][..k] == orig[..k];
    var ns' := ns[..|kept|] + ns[|kept| + 1..];
    assert ns' == kept + orig[k + 1..];
    if !all {
      assert RemovedAt(orig, ns', k, fd, pid, filp);
    }
  }

  lemma Finish(orig: seq<Node>, ns: seq<Node>, kept: seq<Node>, all: bool, fd: int, pid: int, filp: int)
    requires Progress(orig, ns, kept, |orig|, all, fd, pid, filp)
    ensures if all then ns == Survivors(orig, pid, filp) else FirstRemoved(orig, ns, fd, pid, filp)
  {
    assert orig[..|orig|] == orig && orig[|orig|..] == [] && kept + [] == kept;
  }

  ghost predicate NoMatch(ns: seq<Node>, fd: int, pid: int, filp: int) {
    forall i :: 0 <= i < |ns| ==> !(ns[i].info.fd == fd && ns[i].info.pid == pid && ns[i].info.filp == filp)
  }

  /** ns' is ns without its first entry of that descriptor, process and file, or ns when there is none. */
  ghost predicate FirstRemoved(ns: seq<Node>, ns': seq<Node>, fd: int, pid: int, filp: int) {
    || (NoMatch(ns, fd, pid, filp) && ns' == ns)
    || (exists k :: 0 <= k < |ns| && RemovedAt(ns, ns', k, fd, pid, filp))
  }

  ghost predicate RemovedAt(ns: seq<Node>, ns': seq<Node>, k: nat, fd: int, pid: int, filp: int)
    requires k < |ns|
  {
    && ns[k].info.fd == fd && ns[k].info.pid == pid && ns[k].info.filp == filp
    && NoMatch(ns[..k], fd, pid, filp) && ns' == ns[..k] + ns[k + 1..]
  }

  /** The single unmap leaves the list alone if and only if no entry has the descriptor, process and file. */
  lemma UnchangedExact(ns: seq<Node>, ns': seq<Node>, fd: int, pid: int, filp: int)
    requires FirstRemoved(ns, ns', fd, pid, filp)
    ensures ns' == ns <==> NoMatch(ns, fd, pid, filp)
    ensures |ns'| == |ns| || |ns'| == |ns| - 1
  {
    if k :| 0 <= k < |ns| && RemovedAt(ns, ns', k, fd, pid, filp) {
      assert |ns'| == |ns| - 1;
    }
  }

  lemma LastSurvivor(ns: seq<Node>, pid: int, filp: int)
    requires ns != []
    ensures var last := ns[|ns| - 1];
      Survivors(ns, pid, filp) == Survivors(ns[..|ns| - 1], pid, filp) +
        if Matches(last.info, true, 0, pid, filp) then [] else [last]
  {
    hide Matches;
  }

  /** Exactly the entries of other files or processes survive, in the order they had. */
  lemma {:induction false} SurvivorsExact(ns: seq<Node>, pid: int, filp: int) returns (at: seq<nat>)
    ensures Picks(ns, Survivors(ns, pid, filp), at)
    ensures forall k :: 0 <= k < |ns| ==> (k in at <==> !(ns[k].info.pid == pid && ns[k].info.filp == filp))
  {
    if ns == [] {
      at := [];
    } else {
      hide Survivors, Picks;
      var last := |ns| - 1;
      var rest := SurvivorsExact(ns[..last], pid, filp);
      LastSurvivor(ns, pid, filp);
      PicksMore(ns, Survivors(ns[..last], pid, filp), rest);
      at := if Matches(ns[last].info, true, 0, pid, filp) then rest else rest + [last];
      forall k | 0 <= k < |ns|
        ensures k in at <==> !(ns[k].info.pid == pid && ns[k].info.filp == filp)
      {
        assert k < last ==> ns[..last][k] == ns[k];
      }
    }
  }

  /** ps is the entries of ns at these increasing positions. */
  ghost predicate Picks(ns: seq<Node>, ps: seq<Node>, at: seq<nat>) {
    && |at| == |ps| && (forall i :: 0 <= i < |at| ==> at[i] < |ns| && ns[at[i]] == ps[i])
    && (forall i, j :: 0 <= i < j < |at| ==> at[i] < at[j])
  }

  lemma PicksMore(ns: seq<Node>, ps: seq<Node>, at: seq<nat>)
    requires ns != [] && Picks(ns[..|ns| - 1], ps, at)
    ensures Picks(ns, ps + [], at) && Picks(ns, ps + [ns[|ns| - 1]], at + [|ns| - 1]) && |ns| - 1 !in at
  {
    var last := |ns| - 1;
    assert ps + [] == ps;
    forall i | 0 <= i < |at|
      ensures at[i] < last && ns[at[i]] == ps[i]
    {
      assert ns[..last][at[i]] == ps[i];
    }
  }

  /** Unmapping a descriptor that was mapped just before, and not earlier, restores the list. */
  lemma MapUnmapRoundTrip(ns: seq<Node>, x: Node, ns': seq<Node>)
    requires NoMatch(ns, x.info.fd, x.info.pid, x.info.filp)
    requires FirstRemoved(ns + [x], ns', x.info.fd, x.info.pid, x.info.filp)
    ensures ns' == ns
  {
    var all := ns + [x];
    assert all[|ns|] == x;
    var k :| 0 <= k < |all| && RemovedAt(all, ns', k, x.info.fd, x.info.pid, x.info.filp);
    assert all[..|ns|] + all[|ns| + 1..] == ns;
  }
}
