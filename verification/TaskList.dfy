/** The list of background tasks (mcsrc/src/background.c): a singly linked list, newest task first. */
module TaskList {
  import Sequences

  datatype Task = Task(pid: int, fd: int, toChild: int, info: string)

  /** The list without the first task of pid. */
  function Without(tasks: seq<Task>, pid: int): seq<Task> {
    if tasks == [] then [] else if tasks[0].pid == pid then tasks[1..] else [tasks[0]] + Without(tasks[1..], pid)
  }

  /** The descriptor of the first task of pid, -1 if there is none. */
  function FdOf(tasks: seq<Task>, pid: int): int {
    if tasks == [] then -1 else if tasks[0].pid == pid then tasks[0].fd else FdOf(tasks[1..], pid)
  }

  /** The pipe back to the child that is heard on fd, -1 if there is no such task. */
  function ToChild(tasks: seq<Task>, fd: int): int {
    if tasks == [] then -1 else if tasks[0].fd == fd then tasks[0].toChild else ToChild(tasks[1..], fd)
  }

  lemma {:induction false} WithoutAt(tasks: seq<Task>, pid: int, k: nat)
    requires k < |tasks| && tasks[k].pid == pid && forall i :: 0 <= i < k ==> tasks[i].pid != pid
    ensures Without(tasks, pid) == tasks[..k] + tasks[k + 1..] && FdOf(tasks, pid) == tasks[k].fd
  {
    if k == 0 {
      assert tasks[..k] + tasks[k + 1..] == tasks[1..];
    } else {
      WithoutAt(tasks[1..], pid, k - 1);
      Sequences.LeaveOut(tasks, k);
    }
  }

  lemma {:induction false} WithoutNone(tasks: seq<Task>, pid: int)
    requires forall i :: 0 <= i < |tasks| ==> tasks[i].pid != pid
    ensures Without(tasks, pid) == tasks && FdOf(tasks, pid) == -1
  {
    if tasks != [] {
      WithoutNone(tasks[1..], pid);
      assert tasks == [tasks[0]] + tasks[1..];
    }
  }

  /** Task k is the first that is heard on fd. */
  ghost predicate FirstOn(tasks: seq<Task>, fd: int, k: int) {
    0 <= k < |tasks| && tasks[k].fd == fd && forall i :: 0 <= i < k ==> tasks[i].fd != fd
  }

  lemma {:induction false} ToChildAt(tasks: seq<Task>, fd: int, k: nat)
    requires k <= |tasks| && forall i :: 0 <= i < k ==> tasks[i].fd != fd
    requires k < |tasks| ==> tasks[k].fd == fd
    ensures ToChild(tasks, fd) == if k < |tasks| then tasks[k].toChild else -1
  {
    if k > 0 {
      ToChildAt(tasks[1..], fd, k - 1);
    }
  }

  class Node {
    const task: Task
    var next: Node?

    constructor (task: Task, next: Node?)
      ensures this.task == task && this.next == next
    {
      this.task, this.next := task, next;
    }
  }

  ghost function TasksOf(nodes: seq<Node>): seq<Task> {
    seq(|nodes|, i requires 0 <= i < |nodes| => nodes[i].task)
  }

  ghost function Following(nodes: seq<Node>, i: nat): Node? {
    if i + 1 < |nodes| then nodes[i + 1] else null
  }

  /** Looking for pid down the list gets to node k, or to the end. */
  lemma WithoutNode(nodes: seq<Node>, pid: int, k: nat)
    requires k <= |nodes| && forall i :: 0 <= i < k ==> nodes[i].task.pid != pid
    requires k < |nodes| ==> nodes[k].task.pid == pid
    ensures k < |nodes| ==>
      && Without(TasksOf(nodes), pid) == TasksOf(nodes[..k] + nodes[k + 1..])
      && FdOf(TasksOf(nodes), pid) == nodes[k].task.fd
    ensures k == |nodes| ==> Without(TasksOf(nodes), pid) == TasksOf(nodes) && FdOf(TasksOf(nodes), pid) == -1
  {
    var tasks := TasksOf(nodes);
    if k < |nodes| {
      WithoutAt(tasks, pid, k);
      assert TasksOf(nodes[..k] + nodes[k + 1..]) == tasks[..k] + tasks[k + 1..];
    } else {
      WithoutNone(tasks, pid);
    }
  }

  lemma WithoutKth(was: seq<Node>, k: nat, i: nat)
    requires k < |was| && i + 1 < |was|
    ensures var nodes := was[..k] + was[k + 1..];
      var n := if i < k then i else i + 1;
      nodes[i] == was[n] && Following(nodes, i) == Following(was, if n + 1 == k then k else n)
  {}

  lemma HeadFollows(was: seq<Node>, k: nat)
    requires k < |was|
    ensures var nodes := was[..k] + was[k + 1..];
      (if nodes == [] then null else nodes[0]) == if k > 0 then was[0] else Following(was, 0)
  {}

  class Tasks {
    var head: Node?
    ghost var nodes: seq<Node>

    ghost predicate Valid()
      reads this, nodes
    {
      && (forall i, j :: 0 <= i < j < |nodes| ==> nodes[i] != nodes[j])
      && head == (if nodes == [] then null else nodes[0])
      && forall i :: 0 <= i < |nodes| ==> nodes[i].next == Following(nodes, i)
    }

    /** The tasks, newest first. */
    ghost function Contents(): seq<Task>
      reads this
    {
      TasksOf(nodes)
    }

    constructor ()
      ensures Valid() && Contents() == [] && nodes == []
    {
      head, nodes := null, [];
    }

    /** register_task_running */
    method RegisterTaskRunning(pid: int, fd: int, toChild: int, info: string)
      requires Valid()
      modifies this
      ensures Valid() && |nodes| == |old(nodes)| + 1 && fresh(nodes[0]) && nodes[1..] == old(nodes)
      ensures Contents() == [Task(pid, fd, toChild, info)] + old(Contents())
    {
      var node := new Node(Task(pid, fd, toChild, info), head);
      head := node;
      nodes := [node] + nodes;
      forall i | 0 <= i < |nodes| ensures nodes[i].next == Following(nodes, i) {
        if i > 0 {
          assert nodes[i] == old(nodes)[i - 1] && nodes[i].next == old(nodes[i - 1].next);
        }
      }
    }

    lemma NextAt(k: nat)
      requires Valid() && k < |nodes|
      ensures nodes[k].next == Following(nodes, k)
    {}

    /** Node k is linked out. */
    method Unlink(prev: Node?, p: Node, ghost k: nat)
      requires Valid() && k < |nodes| && p == nodes[k] && prev == if k == 0 then null else nodes[k - 1]
      modifies this, nodes
      ensures Valid() && nodes == old(nodes)[..k] + old(nodes)[k + 1..]
    {
      ghost var was := nodes;
      assert forall i :: 0 <= i < |was| ==> was[i].next == Following(was, i);
      NextAt(k);
      if prev != null {
        prev.next := p.next;
      } else {
        head := p.next;
      }
      nodes := was[..k] + was[k + 1..];
      forall i | 0 <= i < |was| ensures was[i].next == Following(was, if i + 1 == k then k else i) {
        assert i + 1 != k ==> was[i] != prev;
      }
      RelinkedValid(was, k);
    }

    /** destroy_task: unlinks the first task of pid. */
    method DestroyTask(pid: int) returns (fd: int)
      requires Valid()
      modifies this, nodes
      ensures Valid() && (forall n :: n in nodes ==> n in old(nodes))
      ensures Contents() == Without(old(Contents()), pid) && fd == FdOf(old(Contents()), pid)
    {
      hide TasksOf, Without, FdOf;
      var p, prev: Node? := head, null;
      ghost var k := 0;
      while p != null
        invariant 0 <= k <= |nodes| && p == if k < |nodes| then nodes[k] else null
        invariant prev == if k == 0 then null else nodes[k - 1]
        invariant forall i :: 0 <= i < k ==> nodes[i].task.pid != pid
        decreases |nodes| - k
      {
        if p.task.pid == pid {
          WithoutNode(nodes, pid, k);
          Unlink(prev, p, k);
          return p.task.fd;
        }
        prev, p, k := p, p.next, k + 1;
      }
      WithoutNode(nodes, pid, k);
      return -1;
    }

    /** The list is linked up again around the node that was at k. */
    lemma RelinkedValid(was: seq<Node>, k: nat)
      requires k < |was| && nodes == was[..k] + was[k + 1..]
      requires forall i, j :: 0 <= i < j < |was| ==> was[i] != was[j]
      requires head == if k > 0 then was[0] else Following(was, 0)
      requires forall i :: 0 <= i < |was| ==> was[i].next == Following(was, if i + 1 == k then k else i)
      ensures Valid()
    {
      hide Following;
      forall i, j | 0 <= i < j < |nodes| ensures nodes[i] != nodes[j] {
        WithoutKth(was, k, i);
        WithoutKth(was, k, j);
      }
      forall i | 0 <= i < |nodes| ensures nodes[i].next == Following(nodes, i) {
        WithoutKth(was, k, i);
      }
      HeadFollows(was, k);
    }

    /** The search of background_attention: who is heard on fd. */
    method FindToChild(fd: int) returns (toChild: int)
      requires Valid()
      ensures toChild == ToChild(Contents(), fd)
      ensures forall k :: FirstOn(Contents(), fd, k) ==> toChild == Contents()[k].toChild
      ensures (forall k :: 0 <= k < |Contents()| ==> Contents()[k].fd != fd) ==> toChild == -1
    {
      hide ToChild;
      var p := head;
      ghost var k := 0;
      while p != null && p.task.fd != fd
        invariant 0 <= k <= |nodes| && p == if k < |nodes| then nodes[k] else null
        invariant forall i :: 0 <= i < k ==> Contents()[i].fd != fd
        decreases |nodes| - k
      {
        p, k := p.next, k + 1;
      }
      ToChildAt(Contents(), fd, k);
      toChild := if p != null then p.task.toChild else -1;
    }
  }
}
