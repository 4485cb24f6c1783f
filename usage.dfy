/** getUsage (main.go): the status of a process followed by the statuses of
    its children's subtrees, child by child, so the whole tree in pre-order.
    Which processes are children is given by the tree; the first status that
    cannot be read stops the walk. */
module Usage {
  import opened Outcome
  import opened Integers
  import opened Text
  import opened Status
  import opened ProcStatus

  /** A process, what the monitor reads for it, and its child processes in
      the order pgrep lists them. */
  datatype ProcTree = Proc(pid: int, reading: Reading, children: seq<ProcTree>)

  /** One process the walk visits. */
  datatype Visit = Visit(pid: int, reading: Reading)

  /** The walk of getUsage, for a given way of reading one process: the
      statuses of the tree, or the first failure. */
  function Walk(t: ProcTree, read: Visit -> Result<ProcessStatus>): Result<seq<ProcessStatus>>
    decreases t, 1
  {
    match read(Visit(t.pid, t.reading))
    case Err(e) => Err(e)
    case Ok(status) =>
      match WalkChildren(t, |t.children|, read)
      case Err(e) => Err(e)
      case Ok(rest) => Ok([status] + rest)
  }

  /** The statuses of the subtrees of the first k children, in order. */
  function WalkChildren(t: ProcTree, k: nat, read: Visit -> Result<ProcessStatus>): Result<seq<ProcessStatus>>
    requires k <= |t.children|
    decreases t, 0, k
  {
    if k == 0 then Ok([])
    else
      match WalkChildren(t, k - 1, read)
      case Err(e) => Err(e)
      case Ok(done) =>
        match Walk(t.children[k - 1], read)
        case Err(e) => Err(e)
        case Ok(sub) => Ok(done + sub)
  }

  /** getProcStatus against the previous tick's statuses. */
  function ReadProcess(last: seq<ProcessStatus>): Visit -> Result<ProcessStatus>
  {
    (v: Visit) => ProcStatusOf(v.pid, last, v.reading)
  }

  /** getUsage: the statuses of the tree, or the first failure. */
  function UsageOf(t: ProcTree, last: seq<ProcessStatus>): Result<seq<ProcessStatus>>
  {
    Walk(t, ReadProcess(last))
  }

  /** getUsage, which reads each process through getProcStatus. */
  method GetUsage(t: ProcTree, last: seq<ProcessStatus>) returns (r: Result<seq<ProcessStatus>>)
    ensures r == UsageOf(t, last)
  {
    r := WalkTree(t, ReadProcess(last));
  }

  /** The recursion of getUsage: the process's own status first, then one
      recursive call per child, appending each subtree's statuses. */
  method WalkTree(t: ProcTree, read: Visit -> Result<ProcessStatus>) returns (r: Result<seq<ProcessStatus>>)
    ensures r == Walk(t, read)
    decreases t, 1
  {
    var status := read(Visit(t.pid, t.reading));
    if status.Err? {
      return Err(status.failure);
    }
    var childrenStatuses: seq<ProcessStatus> := [];
    for k := 0 to |t.children|
      invariant WalkChildren(t, k, read) == Ok(childrenStatuses)
    {
      var sub := WalkTree(t.children[k], read);
      if sub.Err? {
        WalkChildrenFailureSticks(t, k + 1, read);
        return Err(sub.failure);
      }
      childrenStatuses := childrenStatuses + sub.value;
    }
    r := Ok([status.value] + childrenStatuses);
  }

  lemma {:induction false} WalkChildrenFailureSticks(t: ProcTree, k: nat, read: Visit -> Result<ProcessStatus>)
    requires k <= |t.children| && WalkChildren(t, k, read).Err?
    ensures WalkChildren(t, |t.children|, read) == WalkChildren(t, k, read)
    decreases |t.children| - k
  {
    if k < |t.children| {
      WalkChildrenFailureSticks(t, k + 1, read);
    }
  }

  // ---------------------------------------------------------------- pre-order

  /** The processes of the tree in pre-order: the root, then each child's
      subtree in child order. */
  function Preorder(t: ProcTree): (visits: seq<Visit>)
    ensures |visits| >= 1 && visits[0] == Visit(t.pid, t.reading)
    decreases t, 1
  {
    [Visit(t.pid, t.reading)] + ChildrenPreorder(t, |t.children|)
  }

  function ChildrenPreorder(t: ProcTree, k: nat): seq<Visit>
    requires k <= |t.children|
    decreases t, 0, k
  {
    if k == 0 then [] else ChildrenPreorder(t, k - 1) + Preorder(t.children[k - 1])
  }

  /** The statuses of a list of visits, read one after the other. */
  function ReadAll(visits: seq<Visit>, read: Visit -> Result<ProcessStatus>): Result<seq<ProcessStatus>>
  {
    if visits == [] then Ok([])
    else
      match ReadAll(visits[..|visits| - 1], read)
      case Err(e) => Err(e)
      case Ok(done) =>
        match read(visits[|visits| - 1])
        case Err(e) => Err(e)
        case Ok(status) => Ok(done + [status])
  }

  /** Two results in sequence: the first failure, or both lists joined. */
  function Then(a: Result<seq<ProcessStatus>>, b: Result<seq<ProcessStatus>>): (r: Result<seq<ProcessStatus>>)
    ensures r.Ok? <==> a.Ok? && b.Ok?
    ensures r.Ok? ==> r.value == a.value + b.value
    ensures a.Err? ==> r == a
    ensures a.Ok? && b.Err? ==> r == b
  {
    match a
    case Err(_) => a
    case Ok(x) =>
      match b
      case Err(_) => b
      case Ok(y) => Ok(x + y)
  }

  /** Reading two lists of visits one after the other. */
  lemma {:induction false} ReadAllAppend(a: seq<Visit>, b: seq<Visit>, read: Visit -> Result<ProcessStatus>)
    ensures ReadAll(a + b, read) == Then(ReadAll(a, read), ReadAll(b, read))
  {
    if b == [] {
      assert a + b == a;
      if ReadAll(a, read).Ok? {
        assert ReadAll(a, read).value + [] == ReadAll(a, read).value;
      }
    } else {
      var front := b[..|b| - 1];
      assert (a + b)[..|a + b| - 1] == a + front;
      ReadAllAppend(a, front, read);
      if ReadAll(a, read).Ok? && ReadAll(front, read).Ok? && read(b[|b| - 1]).Ok? {
        var x, y, s := ReadAll(a, read).value, ReadAll(front, read).value, read(b[|b| - 1]).value;
        assert x + y + [s] == x + (y + [s]);
      }
    }
  }

  /** The walk reads exactly the processes of the tree, in pre-order, and
      fails with the first process that cannot be read. */
  lemma {:induction false} WalkIsPreorder(t: ProcTree, read: Visit -> Result<ProcessStatus>)
    ensures Walk(t, read) == ReadAll(Preorder(t), read)
    decreases t, 1
  {
    var root := [Visit(t.pid, t.reading)];
    WalkChildrenIsPreorder(t, |t.children|, read);
    ReadAllAppend(root, ChildrenPreorder(t, |t.children|), read);
    assert root[..0] == [];
    match read(root[0])
    case Err(_) =>
    case Ok(status) =>
      assert ReadAll(root, read) == Ok([status]) by {
        assert [] + [status] == [status];
      }
  }

  lemma {:induction false} WalkChildrenIsPreorder(t: ProcTree, k: nat, read: Visit -> Result<ProcessStatus>)
    requires k <= |t.children|
    ensures WalkChildren(t, k, read) == ReadAll(ChildrenPreorder(t, k), read)
    decreases t, 0, k
  {
    if k > 0 {
      WalkChildrenIsPreorder(t, k - 1, read);
      WalkIsPreorder(t.children[k - 1], read);
      ReadAllAppend(ChildrenPreorder(t, k - 1), Preorder(t.children[k - 1]), read);
    }
  }

  /** A successful reading yields one status per visit, in order, each the
      one read for that visit. */
  lemma {:induction false} ReadAllOk(visits: seq<Visit>, read: Visit -> Result<ProcessStatus>)
    requires ReadAll(visits, read).Ok?
    ensures |ReadAll(visits, read).value| == |visits|
    ensures forall i :: 0 <= i < |visits| ==> read(visits[i]) == Ok(ReadAll(visits, read).value[i])
  {
    if visits != [] {
      var front := visits[..|visits| - 1];
      ReadAllOk(front, read);
      assert forall i :: 0 <= i < |front| ==> front[i] == visits[i];
    }
  }

  /** The statuses getUsage returns: the root's first, then one per process
      of the tree in pre-order, each the status getProcStatus gives for that
      process and carrying its pid. */
  lemma UsageOk(t: ProcTree, last: seq<ProcessStatus>)
    requires UsageOf(t, last).Ok?
    ensures var r := UsageOf(t, last).value;
      |r| == |Preorder(t)| &&
      forall i :: 0 <= i < |r| ==>
        ProcStatusOf(Preorder(t)[i].pid, last, Preorder(t)[i].reading) == Ok(r[i]) &&
        r[i].pid == Preorder(t)[i].pid
  {
    var read := ReadProcess(last);
    var visits := Preorder(t);
    WalkIsPreorder(t, read);
    ReadAllOk(visits, read);
    var r := UsageOf(t, last).value;
    forall i | 0 <= i < |r|
      ensures ProcStatusOf(visits[i].pid, last, visits[i].reading) == Ok(r[i]) && r[i].pid == visits[i].pid
    {
      assert read(visits[i]) == Ok(r[i]);
      ProcStatusOfOk(visits[i].pid, last, visits[i].reading);
    }
  }

  /** The number of processes in each child's subtree. */
  function SubtreeSizes(t: ProcTree): (sizes: seq<nat>)
    ensures |sizes| == |t.children|
    ensures forall k :: 0 <= k < |t.children| ==> sizes[k] == |Preorder(t.children[k])|
  {
    seq(|t.children|, k requires 0 <= k < |t.children| => |Preorder(t.children[k])|)
  }

  /** The pre-order holds the root and then every subtree: its length is one
      more than the sum of the subtree sizes. */
  lemma PreorderLength(t: ProcTree)
    ensures |Preorder(t)| == 1 + Sum(SubtreeSizes(t))
  {
    ChildrenPreorderLength(t, |t.children|);
    assert SubtreeSizes(t)[..|t.children|] == SubtreeSizes(t);
  }

  lemma {:induction false} ChildrenPreorderLength(t: ProcTree, k: nat)
    requires k <= |t.children|
    ensures |ChildrenPreorder(t, k)| == Sum(SubtreeSizes(t)[..k])
  {
    if k > 0 {
      ChildrenPreorderLength(t, k - 1);
      assert SubtreeSizes(t)[..k][..k - 1] == SubtreeSizes(t)[..k - 1];
    }
  }
}
