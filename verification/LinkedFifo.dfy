/** util/list.c: a singly linked list with head and tail pointers, used as a FIFO. */
module LinkedFifo {

  /** dataList_t */
  class DataList<T> {
    var data: T
    var next: DataList?<T>

    constructor (data: T)
      ensures this.data == data && next == null
    {
      this.data := data;
      next := null;
    }
  }

  /** listInstance_t. The mutex makes each function one atomic step. */
  class ListInstance<T(0)> {
    var head_list: DataList?<T>
    var tail_list: DataList?<T>
    var num: int
    ghost var nodes: seq<DataList<T>>  // the reachable nodes, in order

    /** head reaches tail through exactly num distinct nodes; both are null when there is none. */
    ghost predicate Valid()
      reads this, nodes
    {
      && num == |nodes|
      && (forall i, j | 0 <= i < j < |nodes| :: nodes[i] != nodes[j])
      && (forall i | 0 <= i < |nodes| - 1 :: nodes[i].next == nodes[i + 1])
      && (if nodes == [] then head_list == null && tail_list == null
          else head_list == nodes[0] && tail_list == nodes[|nodes| - 1] && tail_list.next == null)
    }

    ghost function Contents(): (s: seq<T>)
      reads this, nodes
      ensures |s| == |nodes|
    {
      seq(|nodes|, i requires 0 <= i < |nodes| reads this, nodes => nodes[i].data)
    }

    constructor ()
      ensures Valid() && Contents() == [] && nodes == []
    {
      head_list, tail_list, num := null, null, 0;
      nodes := [];
    }

    /** list_add; outOfMemory stands for a failed malloc. */
    method Add(data: T, outOfMemory: bool) returns (ret: int)
      requires Valid()
      modifies this, nodes
      ensures Valid() && fresh(set n | n in nodes && n !in old(nodes))
      ensures ret == if outOfMemory then -1 else 0
      ensures Contents() == if ret == 0 then old(Contents()) + [data] else old(Contents())
    {
      if outOfMemory {
        return -1;
      }
      var node := new DataList(data);
      if head_list == null {
        head_list := node;
      } else {
        tail_list.next := node;
      }
      tail_list := node;
      num := num + 1;
      nodes := nodes + [node];
      assert Contents() == old(Contents()) + [data];
      ret := 0;
    }

    /** list_pop */
    method Pop() returns (ret: int, data: T)
      requires Valid()
      modifies this
      ensures Valid() && (forall n | n in nodes :: n in old(nodes))
      ensures ret == if old(Contents()) == [] then -1 else 0
      ensures ret == 0 ==> old(Contents()) == [data] + Contents()
      ensures ret == -1 ==> Contents() == []
    {
      if head_list == null {
        data := *;
        return -1, data;
      }
      data := head_list.data;
      head_list := head_list.next;
      nodes := nodes[1..];
      if head_list == null {
        tail_list := null;
      }
      num := num - 1;
      assert old(Contents()) == [data] + Contents();
      ret := 0;
    }

    /** list_del_all; freed collects the payloads handed to free(). */
    method DelAll() returns (ret: int, ghost freed: seq<T>)
      requires Valid()
      modifies this
      ensures Valid() && Contents() == [] && nodes == [] && ret == 0
      ensures freed == old(Contents())
    {
      freed := [];
      ghost var all, k := nodes, 0;
      while head_list != null
        invariant 0 <= k <= |all| && nodes == all[k..] && freed == old(Contents())[..k]
        invariant head_list == if k == |all| then null else all[k]
        decreases |all| - k
      {
        freed := freed + [head_list.data];
        head_list := head_list.next;
        k := k + 1;
        nodes := all[k..];
      }
      tail_list := null;
      num := 0;
      ret := 0;
    }

    /** list_get_num */
    method GetNum() returns (n: int)
      requires Valid()
      ensures n == |Contents()|
    {
      n := num;
    }
  }

  // ---------- every sequence of operations ----------

  datatype Op<T> = Add(data: T, outOfMemory: bool) | Pop | DelAll

  /** The queue and the popped payloads after a sequence of operations, on plain sequences. */
  function Replay<T>(ops: seq<Op<T>>): (r: (seq<T>, seq<T>))
    decreases |ops|
  {
    if ops == [] then ([], []) else
      var (q, out) := Replay(ops[..|ops| - 1]);
      match ops[|ops| - 1]
      case Add(data, oom) => if oom then (q, out) else (q + [data], out)
      case Pop => if q == [] then (q, out) else (q[1..], out + [q[0]])
      case DelAll => ([], out)
  }

  /** The list in memory behaves as that queue under every sequence of operations. */
  method Drive<T(0)>(ops: seq<Op<T>>) returns (list: ListInstance<T>, popped: seq<T>)
    ensures list.Valid() && (list.Contents(), popped) == Replay(ops)
  {
    list := new ListInstance<T>();
    popped := [];
    for n := 0 to |ops|
      invariant list.Valid() && fresh(list) && fresh(set x | x in list.nodes)
      invariant (list.Contents(), popped) == Replay(ops[..n])
    {
      assert ops[..n + 1][..n] == ops[..n];
      match ops[n] {
        case Add(data, oom) => var _ := list.Add(data, oom);
        case Pop =>
          var ret, data := list.Pop();
          if ret == 0 {
            popped := popped + [data];
          }
        case DelAll => var _, _ := list.DelAll();
      }
    }
    assert ops[..|ops|] == ops;
  }

  /** What was added, in order, while no list_del_all intervenes. */
  function Added<T>(ops: seq<Op<T>>): seq<T>
    decreases |ops|
  {
    if ops == [] then [] else
      Added(ops[..|ops| - 1])
        + (match ops[|ops| - 1] case Add(data, oom) => if oom then [] else [data] case _ => [])
  }

  /** First in, first out: popped payloads followed by queued ones are the added ones, in order. */
  lemma {:induction false} FirstInFirstOut<T>(ops: seq<Op<T>>)
    requires forall i | 0 <= i < |ops| :: !ops[i].DelAll?
    ensures Replay(ops).1 + Replay(ops).0 == Added(ops)
    decreases |ops|
  {
    if ops != [] {
      var (q, out) := Replay(ops[..|ops| - 1]);
      FirstInFirstOut(ops[..|ops| - 1]);
      match ops[|ops| - 1]
      case Add(data, oom) => assert out + (q + [data]) == out + q + [data];
      case Pop =>
        if q != [] {
          assert q == [q[0]] + q[1..];
          assert out + [q[0]] + q[1..] == out + q;
        }
      case DelAll =>
    }
  }
}
