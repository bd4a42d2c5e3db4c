/** What gd_SpaceUsed counts: the nodes and the data blocks of the RAM disk. */
module RamSpace {
  import opened RamTypes

  /** The number of blocks of each node. */
  ghost function BlockCounts(nodes: set<ObjNode>): map<ObjNode, nat>
    reads nodes`chain
  {
    map n | n in nodes :: |n.chain|
  }

  ghost function Sum(counts: map<ObjNode, nat>): nat {
    if counts == map[] then 0
    else
      var n :| n in counts;
      counts[n] + Sum(counts - {n})
  }

  lemma {:induction false} SumWithout(counts: map<ObjNode, nat>, n: ObjNode)
    requires n in counts
    ensures Sum(counts) == counts[n] + Sum(counts - {n})
    decreases |counts|
  {
    var m :| m in counts && Sum(counts) == counts[m] + Sum(counts - {m});
    if m != n {
      SumWithout(counts - {m}, n);
      SumWithout(counts - {n}, m);
      assert counts - {m} - {n} == counts - {n} - {m};
    }
  }

  lemma SumChange(counts: map<ObjNode, nat>, n: ObjNode, count: nat)
    requires n in counts
    ensures Sum(counts[n := count]) == Sum(counts) - counts[n] + count
  {
    SumWithout(counts, n);
    SumWithout(counts[n := count], n);
    assert counts[n := count] - {n} == counts - {n};
  }

  lemma SumAdd(counts: map<ObjNode, nat>, n: ObjNode, count: nat)
    requires n !in counts
    ensures Sum(counts[n := count]) == Sum(counts) + count
  {
    SumWithout(counts[n := count], n);
    assert counts[n := count] - {n} == counts;
  }

  lemma SumMove(counts: map<ObjNode, nat>, from: ObjNode, to: ObjNode)
    requires from in counts && to in counts && from != to && counts[to] == 0
    ensures Sum(counts[to := counts[from]][from := 0]) == Sum(counts)
  {
    SumChange(counts, to, counts[from]);
    SumChange(counts[to := counts[from]], from, 0);
  }

  /** One unit for each node, the root among them, and one for each block. */
  ghost predicate SpaceOk(gd: GlobalData)
    reads gd`spaceUsed, gd`nodes, gd.nodes`chain
  {
    gd.spaceUsed == |gd.nodes| + Sum(BlockCounts(gd.nodes))
  }
}
