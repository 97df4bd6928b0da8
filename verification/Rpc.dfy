/** The background protocol (mcsrc/src/background.c) as a state machine: one parent, any number of children, and
    every read and write of a pipe a step of its own, in any order. */
module Rpc {
  import opened Wire
  import opened TaskList
  import opened Wrappers
  import Sequences

  /** size is sizeof (*ctx), and end the address of end_bg_process, the routine that a child calls last: it takes the
      child off the task list while the parent serves the call. */
  datatype System = System(size: nat, end: nat)

  datatype Child =
    | Idle
    | Busy(call: Request, written: nat, receipt: Receipt, pieces: nat)
    | Gone  // has ended

  /** A child, whether the parent has it on its task list and listens to it, the pipe it writes to, and what has
      happened so far: the calls served by the parent with their answers, and the calls that returned in the child
      with the answers it got. */
  datatype Link = Link(pid: int, listed: bool, child: Child, up: Bytes,
                       served: seq<(Request, Answer)>, returned: seq<(Request, Answer)>)

  /** Where the parent is in background_attention. */
  datatype Parent =
    | Selecting
    | Reading(fd: nat, reader: Reader, done: nat)
    | Serving(fd: nat, request: Request)
    | Replying(fd: nat, to: nat, chunks: seq<Bytes>)

  /** The two pipes of child i: the descriptor it is heard on, and the one its replies are written to, at whose other
      end it reads downs[i]. */
  function Heard(i: int): int { 2 * i }
  function Answered(i: int): int { 2 * i + 1 }

  datatype State = State(links: seq<Link>, downs: seq<Bytes>, tasks: seq<Task>, parent: Parent)

  datatype Step =
    | Spawn(pid: int)
    | StartCall(fd: nat, call: Request)
    | ChildWrite(fd: nat)
    | ChildRead(fd: nat)
    | Exit(fd: nat)
    | Select(fd: nat)
    | ParentRead
    | Serve(answer: Answer)
    | ParentWrite
    | Reap(fd: nat)

  /** The steps that carry on with calls already made. */
  predicate Internal(step: Step) {
    step.ChildWrite? || step.ChildRead? || step.Select? || step.ParentRead? || step.Serve? || step.ParentWrite?
  }

  const INIT := State([], [], [], Selecting)

  ghost predicate Enabled(sys: System, s: State, step: Step) {
    && |s.downs| == |s.links|
    && match step
    case Spawn(pid) => forall i :: 0 <= i < |s.links| && s.links[i].listed ==> s.links[i].pid != pid
    case StartCall(fd, call) => fd < |s.links| && s.links[fd].child.Idle? && Proper(sys.size, call)
    case ChildWrite(fd) => fd < |s.links| && CanWrite(sys, s.links[fd].child)
    case ChildRead(fd) => fd < |s.links| && CanRead(sys, s.links[fd].child, s.downs[fd])
    case Exit(fd) => fd < |s.links| && s.links[fd].child.Idle?
    case Select(fd) => s.parent.Selecting? && fd < |s.links| && s.links[fd].listed && s.links[fd].up != []
    case ParentRead => s.parent.Reading? && s.parent.fd < |s.links|
                       && Need(sys.size, s.parent.reader) <= |s.links[s.parent.fd].up|
    case Serve(a) => s.parent.Serving? && s.parent.fd < |s.links| && Answers(sys.size, s.parent.request, a)
    case ParentWrite => s.parent.Replying? && s.parent.chunks != [] && s.parent.to < |s.downs|
    case Reap(fd) => s.parent.Selecting? && fd < |s.links| && s.links[fd].listed && s.links[fd].child.Gone?
                     && |s.links[fd].up| < 8
  }

  ghost predicate CanWrite(sys: System, c: Child) {
    c.Busy? && Proper(sys.size, c.call) && c.written < |RequestChunks(sys.size, c.call)|
  }

  ghost predicate CanRead(sys: System, c: Child, down: Bytes) {
    && c.Busy? && Proper(sys.size, c.call) && c.written == |RequestChunks(sys.size, c.call)|
    && ReplyNeed(sys.size, c.receipt) <= |down|
  }

  // ---------------------------------------------------------------- what one step does to a link

  ghost function Wrote(sys: System, l: Link): Link
    requires CanWrite(sys, l.child)
  {
    var w := l.child.written;
    l.(up := l.up + RequestChunks(sys.size, l.child.call)[w], child := l.child.(written := w + 1))
  }

  /** The child's next read; when it was the last one, the call returns. */
  ghost function Received(sys: System, l: Link, down: Bytes): Link
    requires CanRead(sys, l.child, down)
  {
    var c := l.child;
    var receipt := ReplyFeed(c.call, c.receipt, down[..ReplyNeed(sys.size, c.receipt)]);
    if receipt.Got? then
      // after end_bg_process the child exits
      l.(child := if c.call.routine == sys.end then Gone else Idle, returned := l.returned + [(c.call, receipt.answer)])
    else l.(child := c.(receipt := receipt, pieces := c.pieces + 1))
  }

  /** The call q of the child has been served; if it was the last one, the child is no longer listed. */
  function Served(sys: System, l: Link, q: Request, a: Answer): Link {
    l.(served := l.served + [(q, a)], listed := l.listed && q.routine != sys.end)
  }

  function AfterRead(fd: nat, r: Reader, done: nat): Parent {
    if r.place == Complete then Serving(fd, r.request)
    else if r.place == Failed then Selecting
    else Reading(fd, r, done)
  }

  function AfterWrite(p: Parent): Parent
    requires p.Replying? && p.chunks != []
  {
    if |p.chunks| == 1 then Selecting else p.(chunks := p.chunks[1..])
  }

  ghost function Do(sys: System, s: State, step: Step): State
    requires Enabled(sys, s, step)
  {
    match step
    case Spawn(pid) =>
      var fd := |s.links|;
      s.(links := s.links + [Link(pid, true, Idle, [], [], [])], downs := s.downs + [[]],
         tasks := [Task(pid, Heard(fd), Answered(fd), "")] + s.tasks)
    case StartCall(fd, call) =>
      s.(links := s.links[fd := s.links[fd].(child := Busy(call, 0, AtResult, 0))])
    case ChildWrite(fd) => s.(links := s.links[fd := Wrote(sys, s.links[fd])])
    case ChildRead(fd) =>
      var n := ReplyNeed(sys.size, s.links[fd].child.receipt);
      s.(links := s.links[fd := Received(sys, s.links[fd], s.downs[fd])], downs := s.downs[fd := s.downs[fd][n..]])
    case Exit(fd) => s.(links := s.links[fd := s.links[fd].(child := Gone)])
    case Select(fd) => s.(parent := Reading(fd, START, 0))
    case ParentRead =>
      var p := s.parent;
      var l, n := s.links[p.fd], Need(sys.size, p.reader);
      s.(links := s.links[p.fd := l.(up := l.up[n..])],
         parent := AfterRead(p.fd, Feed(p.reader, l.up[..n]), p.done + 1))
    case Serve(a) =>
      var fd, q := s.parent.fd, s.parent.request;
      var pipe := ToChild(s.tasks, Heard(fd));
      var to := pipe / 2;
      if 0 <= to < |s.downs| && pipe == Answered(to) then
        // the pipe has been looked up before the call, which may take the task off the list
        s.(links := s.links[fd := Served(sys, s.links[fd], q, a)],
           tasks := if q.routine == sys.end then Without(s.tasks, s.links[fd].pid) else s.tasks,
           parent := Replying(fd, to, ReplyChunks(sys.size, q, a)))
      else s.(parent := Selecting)
    case ParentWrite =>
      var to := s.parent.to;
      s.(downs := s.downs[to := s.downs[to] + s.parent.chunks[0]], parent := AfterWrite(s.parent))
    case Reap(fd) =>
      s.(links := s.links[fd := s.links[fd].(listed := false)], tasks := Without(s.tasks, s.links[fd].pid))
  }

  // ---------------------------------------------------------------- the invariant

  /** What the parent is doing for one child. */
  datatype Role = Free | Reads(reader: Reader, done: nat) | Serves(request: Request) | Replies(chunks: seq<Bytes>)

  function RoleOf(p: Parent, fd: nat): Role {
    match p
    case Selecting => Free
    case Reading(f, r, j) => if f == fd then Reads(r, j) else Free
    case Serving(f, q) => if f == fd then Serves(q) else Free
    case Replying(f, _, cs) => if f == fd then Replies(cs) else Free
  }

  /** Every answer that has reached the child is the parent's answer to that very call, in order. */
  ghost predicate LogsAgree(sys: System, l: Link) {
    && |l.returned| <= |l.served| <= |l.returned| + 1
    && forall k :: 0 <= k < |l.returned| ==>
         l.returned[k].0 == l.served[k].0 && l.returned[k].1 == Seen(l.served[k].1)
         && Answers(sys.size, l.served[k].0, l.served[k].1)
  }

  /** What the child has still to write of its request. */
  ghost function Unsent(sys: System, q: Request, written: nat): Bytes
    requires Proper(sys.size, q) && written <= |RequestChunks(sys.size, q)|
  {
    Concat(RequestChunks(sys.size, q)[written..])
  }

  ghost predicate AllNonempty(chunks: seq<Bytes>) { forall k :: 0 <= k < |chunks| ==> chunks[k] != [] }

  /** A request on its way: what is in the pipe and what is still to be written is what is still to be read. */
  ghost predicate Asking(sys: System, q: Request, written: nat, up: Bytes, role: Role)
    requires Proper(sys.size, q)
  {
    var chunks := RequestChunks(sys.size, q);
    && written <= |chunks|
    && match role
       case Free => up + Unsent(sys, q, written) == Concat(chunks)
       case Reads(r, j) =>
         j < |chunks| && r == Tracked(sys.size, q, j) && up + Unsent(sys, q, written) == Concat(chunks[j..])
       case Serves(q') => q' == q && up + Unsent(sys, q, written) == []
       case Replies(_) => false
  }

  /** A reply on its way. */
  ghost predicate Answering(sys: System, q: Request, a: Answer, receipt: Receipt, pieces: nat, down: Bytes,
                            role: Role) {
    && Answers(sys.size, q, a)
    && pieces < |ReplyChunks(sys.size, q, a)| && receipt == ReplyTracked(sys.size, q, a, pieces)
    && match role
       case Free => down == Concat(ReplyChunks(sys.size, q, a)[pieces..])
       case Replies(cs) =>
         cs != [] && AllNonempty(cs) && |cs| <= 2 && down + Concat(cs) == Concat(ReplyChunks(sys.size, q, a)[pieces..])
       case Reads(_, _) => false
       case Serves(_) => false
  }

  ghost predicate BusyOk(sys: System, l: Link, down: Bytes, role: Role)
    requires l.child.Busy?
  {
    var Busy(q, written, receipt, pieces) := l.child;
    && Proper(sys.size, q) && written <= |RequestChunks(sys.size, q)|
    && if |l.served| == |l.returned| then
         down == [] && receipt == AtResult && pieces == 0 && Asking(sys, q, written, l.up, role)
       else
         && |l.served| == |l.returned| + 1 && l.served[|l.returned|].0 == q
         && l.up == [] && Unsent(sys, q, written) == []
         && Answering(sys, q, l.served[|l.returned|].1, receipt, pieces, down, role)
  }

  ghost predicate LinkOk(sys: System, l: Link, down: Bytes, role: Role) {
    && LogsAgree(sys, l)
    && if l.child.Busy? then BusyOk(sys, l, down, role)
       else role == Free && l.up == [] && down == [] && |l.served| == |l.returned|
  }

  ghost predicate TasksOk(s: State) {
    && (forall k :: 0 <= k < |s.tasks| ==>
          var i := s.tasks[k].fd / 2;
          0 <= i < |s.links| && s.tasks[k].fd == Heard(i) && s.tasks[k].pid == s.links[i].pid)
    && (forall i, j :: 0 <= i < j < |s.links| && s.links[i].listed && s.links[j].listed ==>
          s.links[i].pid != s.links[j].pid)
    && (forall i :: 0 <= i < |s.links| && s.links[i].listed ==> ToChild(s.tasks, Heard(i)) == Answered(i))
  }

  /** A child is on the list until its last call is served; nothing of it is served after that, and it makes no
      further call. */
  ghost predicate ListedOk(sys: System, l: Link) {
    && |l.returned| <= |l.served|
    && (l.child.Idle? ==> l.listed)
    && (l.child.Busy? ==> (l.listed <==> |l.served| == |l.returned| || l.child.call.routine != sys.end))
    && (forall k :: 0 <= k < |l.served| && l.served[k].0.routine == sys.end ==> !l.listed && k == |l.served| - 1)
  }

  ghost predicate ListsOk(sys: System, s: State) {
    forall i :: 0 <= i < |s.links| ==> ListedOk(sys, s.links[i])
  }

  ghost predicate ParentOk(s: State) {
    && (!s.parent.Selecting? ==> s.parent.fd < |s.links|)
    && (s.parent.Replying? ==> s.parent.to == s.parent.fd)
  }

  ghost predicate LinksOk(sys: System, s: State) {
    |s.downs| == |s.links|
    && forall i :: 0 <= i < |s.links| ==> LinkOk(sys, s.links[i], s.downs[i], RoleOf(s.parent, i))
  }

  ghost predicate Inv(sys: System, s: State) {
    sys.size > 0 && LinksOk(sys, s) && ParentOk(s) && TasksOk(s) && ListsOk(sys, s)
  }

  // ---------------------------------------------------------------- each step keeps a link in order

  lemma SuffixAll(chunks: seq<Bytes>)
    ensures Concat(chunks[|chunks|..]) == [] && chunks[0..] == chunks
  {}

  lemma StartOk(sys: System, l: Link, q: Request)
    requires LinkOk(sys, l, [], Free) && l.child.Idle? && Proper(sys.size, q)
    ensures LinkOk(sys, l.(child := Busy(q, 0, AtResult, 0)), [], Free)
  {
    hide RequestChunks, LogsAgree, Answering;
    LogsKept(sys, l, l.(child := Busy(q, 0, AtResult, 0)));
    SuffixAll(RequestChunks(sys.size, q));
    assert [] + Unsent(sys, q, 0) == Unsent(sys, q, 0);
  }

  lemma LogsKept(sys: System, l: Link, l': Link)
    requires l'.served == l.served && l'.returned == l.returned
    ensures LogsAgree(sys, l') == LogsAgree(sys, l)
  {}

  lemma ChildWriteOk(sys: System, l: Link, down: Bytes, role: Role)
    requires LinkOk(sys, l, down, role) && CanWrite(sys, l.child)
    ensures LinkOk(sys, Wrote(sys, l), down, role)
  {
    hide RequestChunks, LogsAgree, Answering, Concat, Tracked;
    var q, w := l.child.call, l.child.written;
    LogsKept(sys, l, Wrote(sys, l));
    ConcatFrom(RequestChunks(sys.size, q), w);
    Sequences.Assoc(l.up, RequestChunks(sys.size, q)[w], Unsent(sys, q, w + 1));
  }

  lemma SelectOk(sys: System, l: Link, down: Bytes)
    requires LinkOk(sys, l, down, Free) && l.up != []
    ensures LinkOk(sys, l, down, Reads(START, 0))
  {
    hide RequestChunks, LogsAgree, Answering;
    var q := l.child.call;
    RequestLength(sys.size, q);
    SuffixAll(RequestChunks(sys.size, q));
  }

  lemma Cut(a: Bytes, b: Bytes, c: Bytes, d: Bytes, n: nat)
    requires a + b == c + d && |c| == n <= |a|
    ensures a[..n] == c && a[n..] + b == d
  {
    assert (a + b)[..n] == a[..n] && (a + b)[n..] == a[n..] + b;
    assert (c + d)[..n] == c && (c + d)[n..] == d;
  }

  lemma Unserved(sys: System, l: Link, down: Bytes, role: Role)
    requires LinkOk(sys, l, down, role) && (role.Reads? || role.Serves?)
    ensures l.child.Busy? && |l.served| == |l.returned| && (role.Serves? ==> l.child.call == role.request)
  {}

  lemma ParentReadOk(sys: System, l: Link, down: Bytes, r: Reader, j: nat)
    requires LinkOk(sys, l, down, Reads(r, j)) && Need(sys.size, r) <= |l.up|
    ensures var n := Need(sys.size, r);
      && Feed(r, l.up[..n]).place != Failed
      && LinkOk(sys, l.(up := l.up[n..]), down, RoleOf(AfterRead(0, Feed(r, l.up[..n]), j + 1), 0))
  {
    hide RequestChunks, LogsAgree, Answering, Tracked, Concat, Need, Feed;
    Unserved(sys, l, down, Reads(r, j));
    var n := Need(sys.size, r);
    LogsKept(sys, l, l.(up := l.up[n..]));
    var q, w := l.child.call, l.child.written;
    var chunks := RequestChunks(sys.size, q);
    ReaderTracks(sys.size, q, j);
    if j + 1 < |chunks| {
      ReaderTracks(sys.size, q, j + 1);
    }
    ConcatFrom(chunks, j);
    Cut(l.up, Unsent(sys, q, w), chunks[j], Concat(chunks[j + 1..]), n);
    NothingAfter(chunks);
  }

  lemma NothingAfter(chunks: seq<Bytes>)
    ensures Concat(chunks[|chunks|..]) == []
  {}

  lemma ReplyNonempty(sys: System, q: Request, a: Answer)
    requires sys.size > 0 && Answers(sys.size, q, a)
    ensures AllNonempty(ReplyChunks(sys.size, q, a)) && 1 <= |ReplyChunks(sys.size, q, a)| <= 2
  {}

  lemma ServeOk(sys: System, l: Link, down: Bytes, q: Request, a: Answer)
    requires sys.size > 0 && LinkOk(sys, l, down, Serves(q)) && Answers(sys.size, q, a)
    ensures LinkOk(sys, Served(sys, l, q, a), down, Replies(ReplyChunks(sys.size, q, a)))
  {
    hide RequestChunks, ReplyChunks, Answers, Concat;
    ReplyNonempty(sys, q, a);
    SuffixAll(ReplyChunks(sys.size, q, a));
    assert [] + Concat(ReplyChunks(sys.size, q, a)) == Concat(ReplyChunks(sys.size, q, a));
  }

  lemma ParentWriteOk(sys: System, l: Link, down: Bytes, cs: seq<Bytes>)
    requires LinkOk(sys, l, down, Replies(cs)) && cs != []
    ensures LinkOk(sys, l, down + cs[0], if |cs| == 1 then Free else Replies(cs[1..]))
  {
    hide RequestChunks, ReplyChunks, Answers, LogsAgree, ReplyTracked, Unsent;
    assert cs[0..] == cs;
    ConcatFrom(cs, 0);
    Sequences.Assoc(down, cs[0], Concat(cs[1..]));
    if |cs| == 1 {
      NothingAfter(cs);
      assert (down + cs[0]) + [] == down + cs[0];
    }
  }

  lemma ConcatNonempty(cs: seq<Bytes>)
    requires cs != [] && AllNonempty(cs)
    ensures Concat(cs) != []
  {}

  lemma ReplyTake(sys: System, q: Request, a: Answer, pieces: nat, down: Bytes, role: Role)
    requires Answers(sys.size, q, a) && Answering(sys, q, a, ReplyTracked(sys.size, q, a, pieces), pieces, down, role)
    requires ReplyNeed(sys.size, ReplyTracked(sys.size, q, a, pieces)) <= |down|
    ensures var n := ReplyNeed(sys.size, ReplyTracked(sys.size, q, a, pieces));
      var receipt := ReplyFeed(q, ReplyTracked(sys.size, q, a, pieces), down[..n]);
      && (receipt.Got? ==> receipt.answer == Seen(a) && down[n..] == [] && role == Free)
      && (!receipt.Got? ==> Answering(sys, q, a, receipt, pieces + 1, down[n..], role))
  {
    hide ReplyChunks, Answers, Concat, ReplyTracked, ReplyNeed, ReplyFeed;
    var rs := ReplyChunks(sys.size, q, a);
    var n := ReplyNeed(sys.size, ReplyTracked(sys.size, q, a, pieces));
    var more := if role.Replies? then Concat(role.chunks) else [];
    ReplyTracks(sys.size, q, a, pieces);
    ConcatFrom(rs, pieces);
    assert down + [] == down;
    Cut(down, more, rs[pieces], Concat(rs[pieces + 1..]), n);
    assert down[n..] + [] == down[n..];
    if pieces + 1 == |rs| {
      NothingAfter(rs);
      if role.Replies? {
        ConcatNonempty(role.chunks);
      }
    } else {
      ReplyTracks(sys.size, q, a, pieces + 1);
    }
  }

  lemma ChildReadOk(sys: System, l: Link, down: Bytes, role: Role)
    requires sys.size > 0 && LinkOk(sys, l, down, role) && CanRead(sys, l.child, down)
    ensures LinkOk(sys, Received(sys, l, down), down[ReplyNeed(sys.size, l.child.receipt)..], role)
    ensures |l.served| == |l.returned| + 1
  {
    hide RequestChunks, ReplyChunks, Answers, Concat, ReplyTracked, ReplyFeed, Answering;
    var c := l.child;
    assert |l.served| == |l.returned| + 1;
    var a := l.served[|l.returned|].1;
    AnsweringFits(sys, c.call, a, c.receipt, c.pieces, down, role);
    ReplyTake(sys, c.call, a, c.pieces, down, role);
  }

  lemma AnsweringFits(sys: System, q: Request, a: Answer, receipt: Receipt, pieces: nat, down: Bytes, role: Role)
    requires Answering(sys, q, a, receipt, pieces, down, role)
    ensures Answers(sys.size, q, a) && receipt == ReplyTracked(sys.size, q, a, pieces)
  {}

  // ---------------------------------------------------------------- each step keeps the invariant

  /** Only child fd is concerned. */
  lemma LinksKept(sys: System, s: State, s': State, fd: nat)
    requires LinksOk(sys, s) && |s'.links| == |s.links| == |s'.downs| && fd < |s.links|
    requires forall i :: 0 <= i < |s.links| && i != fd ==>
      s'.links[i] == s.links[i] && s'.downs[i] == s.downs[i] && RoleOf(s'.parent, i) == RoleOf(s.parent, i)
    requires LinkOk(sys, s'.links[fd], s'.downs[fd], RoleOf(s'.parent, fd))
    ensures LinksOk(sys, s')
  {
    hide LinkOk, RoleOf;
  }

  lemma LinkAt(sys: System, s: State, fd: nat)
    requires Inv(sys, s) && fd < |s.links|
    ensures |s.downs| == |s.links| && LinkOk(sys, s.links[fd], s.downs[fd], RoleOf(s.parent, fd))
    ensures ParentOk(s) && TasksOk(s) && sys.size > 0 && ListedOk(sys, s.links[fd]) && ListsOk(sys, s)
  {
    hide LinkOk, RoleOf;
  }

  lemma TasksKept(s: State, s': State, fd: nat)
    requires TasksOk(s) && fd < |s.links| && s'.tasks == s.tasks && |s'.links| == |s.links|
    requires forall i :: 0 <= i < |s.links| && i != fd ==> s'.links[i] == s.links[i]
    requires s'.links[fd].pid == s.links[fd].pid && s'.links[fd].listed == s.links[fd].listed
    ensures TasksOk(s')
  {
  }

  lemma InvKept(sys: System, s: State, s': State, fd: nat)
    requires LinksOk(sys, s') && ParentOk(s') && TasksOk(s') && ListsOk(sys, s) && sys.size > 0
    requires fd < |s.links| == |s'.links| && ListedOk(sys, s'.links[fd])
    requires forall i :: 0 <= i < |s.links| && i != fd ==> s'.links[i] == s.links[i]
    ensures Inv(sys, s')
  {
    hide LinksOk, TasksOk, ListedOk;
  }

  /** A child that is taken off the list leaves the others findable. */
  lemma Unlisted(s: State, s': State, fd: nat)
    requires TasksOk(s) && fd < |s.links| == |s'.links| && s.links[fd].listed
    requires s'.tasks == Without(s.tasks, s.links[fd].pid)
    requires !s'.links[fd].listed && s'.links[fd].pid == s.links[fd].pid
    requires forall i :: 0 <= i < |s.links| && i != fd ==> s'.links[i] == s.links[i]
    ensures TasksOk(s')
  {
    hide ToChild, Without;
    var pid := s.links[fd].pid;
    forall i | 0 <= i < |s'.links| && s'.links[i].listed ensures ToChild(s'.tasks, Heard(i)) == Answered(i) {
      assert i != fd && s'.links[i] == s.links[i] && ToChild(s.tasks, Heard(i)) == Answered(i);
      ToChildWithout(s.tasks, pid, Heard(i));
    }
    WithoutIn(s.tasks, pid);
    forall k | 0 <= k < |s'.tasks|
      ensures var i := s'.tasks[k].fd / 2;
        0 <= i < |s'.links| && s'.tasks[k].fd == Heard(i) && s'.tasks[k].pid == s'.links[i].pid
    {
      assert s'.tasks[k] in s.tasks;
    }
  }

  lemma ListedStart(sys: System, l: Link, q: Request)
    requires ListedOk(sys, l) && l.child.Idle? && |l.served| == |l.returned|
    ensures ListedOk(sys, l.(child := Busy(q, 0, AtResult, 0)))
  {}

  lemma ListedWrote(sys: System, l: Link)
    requires ListedOk(sys, l) && CanWrite(sys, l.child)
    ensures ListedOk(sys, Wrote(sys, l))
  {}

  lemma ListedRead(sys: System, l: Link, n: nat)
    requires ListedOk(sys, l) && n <= |l.up|
    ensures ListedOk(sys, l.(up := l.up[n..]))
  {}

  lemma ListedReceived(sys: System, l: Link, down: Bytes)
    requires ListedOk(sys, l) && CanRead(sys, l.child, down) && |l.served| == |l.returned| + 1
    ensures ListedOk(sys, Received(sys, l, down))
  {}

  lemma ListedServed(sys: System, l: Link, q: Request, a: Answer)
    requires ListedOk(sys, l) && l.child.Busy? && l.child.call == q && |l.served| == |l.returned|
    ensures l.listed && ListedOk(sys, Served(sys, l, q, a))
  {}

  lemma ListedEnded(sys: System, l: Link)
    requires ListedOk(sys, l) && !l.child.Busy?
    ensures ListedOk(sys, l.(child := Gone)) && (l.child.Gone? ==> ListedOk(sys, l.(listed := false)))
  {}

  lemma ChildStepKeepsInv(sys: System, s: State, step: Step)
    requires Inv(sys, s) && Enabled(sys, s, step)
    requires step.StartCall? || step.ChildWrite? || step.ChildRead? || step.Exit?
    ensures Inv(sys, Do(sys, s, step))
  {
    hide LinkOk, RoleOf, TasksOk, LinksOk, ListedOk, ListsOk, Proper, RequestChunks;
    var s' := Do(sys, s, step);
    var fd := step.fd;
    LinkAt(sys, s, fd);
    LinksOf(sys, s);
    var l, down, role := s.links[fd], s.downs[fd], RoleOf(s.parent, fd);
    match step {
      case StartCall(_, q) =>
        IdleFree(sys, l, down, role);
        StartOk(sys, l, q);
        ListedStart(sys, l, q);
      case ChildWrite(_) =>
        ChildWriteOk(sys, l, down, role);
        ListedWrote(sys, l);
      case ChildRead(_) =>
        ChildReadOk(sys, l, down, role);
        ListedReceived(sys, l, down);
      case Exit(_) =>
        ExitOk(sys, l, l.(child := Gone), down, role);
        ListedEnded(sys, l);
    }
    LinksKept(sys, s, s', fd);
    TasksKept(s, s', fd);
    InvKept(sys, s, s', fd);
  }

  lemma LinksOf(sys: System, s: State)
    requires Inv(sys, s)
    ensures LinksOk(sys, s)
  {}

  /** A child without a call has empty pipes, and the parent is not busy with it. */
  lemma IdleFree(sys: System, l: Link, down: Bytes, role: Role)
    requires LinkOk(sys, l, down, role) && !l.child.Busy?
    ensures role == Free && l.up == [] && down == [] && |l.served| == |l.returned|
  {}

  lemma ExitOk(sys: System, l: Link, l': Link, down: Bytes, role: Role)
    requires LinkOk(sys, l, down, role) && !l.child.Busy? && !l'.child.Busy?
    requires l'.served == l.served && l'.returned == l.returned && l'.up == l.up
    ensures LinkOk(sys, l', down, role)
  {}

  lemma ParentStepKeepsInv(sys: System, s: State, step: Step)
    requires Inv(sys, s) && Enabled(sys, s, step)
    requires step.Select? || step.ParentRead? || step.Serve? || step.ParentWrite?
    ensures Inv(sys, Do(sys, s, step))
  {
    hide LinkOk, TasksOk, LinksOk, ListedOk, ListsOk, Proper, Answers, Feed, Without;
    var s' := Do(sys, s, step);
    var fd := if step.Select? then step.fd else s.parent.fd;
    ParentAt(sys, s);
    LinkAt(sys, s, fd);
    LinksOf(sys, s);
    var l, down := s.links[fd], s.downs[fd];
    match step {
      case Select(_) => SelectOk(sys, l, down);
      case ParentRead =>
        ParentReadOk(sys, l, down, s.parent.reader, s.parent.done);
        ListedRead(sys, l, Need(sys.size, s.parent.reader));
      case Serve(a) =>
        Unserved(sys, l, down, RoleOf(s.parent, fd));
        ListedServed(sys, l, s.parent.request, a);
        Found(s, fd);
        ServeOk(sys, l, down, s.parent.request, a);
      case ParentWrite => ParentWriteOk(sys, l, down, s.parent.chunks);
    }
    LinksKept(sys, s, s', fd);
    if step.Serve? && s.parent.request.routine == sys.end {
      Unlisted(s, s', fd);
    } else {
      TasksKept(s, s', fd);
    }
    InvKept(sys, s, s', fd);
  }

  lemma ParentAt(sys: System, s: State)
    requires Inv(sys, s)
    ensures ParentOk(s)
  {}

  /** The parent finds the pipe back to every child that is still there. */
  lemma Found(s: State, fd: nat)
    requires TasksOk(s) && fd < |s.links| && s.links[fd].listed
    ensures ToChild(s.tasks, Heard(fd)) == Answered(fd)
  {}

  lemma SpawnKeepsInv(sys: System, s: State, pid: int)
    requires Inv(sys, s) && Enabled(sys, s, Spawn(pid))
    ensures Inv(sys, Do(sys, s, Spawn(pid)))
  {
    hide LinkOk, ListedOk;
    var s' := Do(sys, s, Spawn(pid));
    NewOk(sys, pid);
    assert RoleOf(s.parent, |s.links|) == Free;
    forall i | 0 <= i < |s'.links| ensures LinkOk(sys, s'.links[i], s'.downs[i], RoleOf(s'.parent, i)) {
      assert i < |s.links| ==> LinkOk(sys, s.links[i], s.downs[i], RoleOf(s.parent, i));
    }
    assert s'.tasks[1..] == s.tasks;
    forall i | 0 <= i < |s'.links| && s'.links[i].listed ensures ToChild(s'.tasks, Heard(i)) == Answered(i) {
      assert i < |s.links| ==> s'.links[i] == s.links[i] && ToChild(s.tasks, Heard(i)) == Answered(i);
    }
    forall k | 0 <= k < |s'.tasks|
      ensures var i := s'.tasks[k].fd / 2;
        0 <= i < |s'.links| && s'.tasks[k].fd == Heard(i) && s'.tasks[k].pid == s'.links[i].pid
    {
      assert k > 0 ==> s'.tasks[k] == s.tasks[k - 1];
    }
  }

  lemma NewOk(sys: System, pid: int)
    ensures LinkOk(sys, Link(pid, true, Idle, [], [], []), [], Free)
    ensures ListedOk(sys, Link(pid, true, Idle, [], [], []))
  {}

  lemma {:induction false} ToChildWithout(tasks: seq<Task>, pid: int, fd: int)
    requires forall k :: 0 <= k < |tasks| && tasks[k].fd == fd ==> tasks[k].pid != pid
    ensures ToChild(Without(tasks, pid), fd) == ToChild(tasks, fd)
  {
    if tasks != [] && tasks[0].pid != pid {
      ToChildWithout(tasks[1..], pid, fd);
    }
  }

  lemma {:induction false} WithoutIn(tasks: seq<Task>, pid: int)
    ensures forall t :: t in Without(tasks, pid) ==> t in tasks
  {
    if tasks != [] && tasks[0].pid != pid {
      WithoutIn(tasks[1..], pid);
    }
  }

  lemma ReapKeepsInv(sys: System, s: State, fd: nat)
    requires Inv(sys, s) && Enabled(sys, s, Reap(fd))
    ensures Inv(sys, Do(sys, s, Reap(fd)))
  {
    hide LinkOk, RoleOf, TasksOk, LinksOk, ListedOk, ListsOk, Without;
    var s' := Do(sys, s, Reap(fd));
    LinkAt(sys, s, fd);
    LinksOf(sys, s);
    ExitOk(sys, s.links[fd], s'.links[fd], s.downs[fd], RoleOf(s.parent, fd));
    ListedEnded(sys, s.links[fd]);
    LinksKept(sys, s, s', fd);
    Unlisted(s, s', fd);
    InvKept(sys, s, s', fd);
  }

  lemma StepKeepsInv(sys: System, s: State, step: Step)
    requires Inv(sys, s) && Enabled(sys, s, step)
    ensures Inv(sys, Do(sys, s, step))
  {
    hide Inv, Enabled, Do;
    match step
    case Spawn(pid) => SpawnKeepsInv(sys, s, pid);
    case Reap(fd) => ReapKeepsInv(sys, s, fd);
    case StartCall(_, _) => ChildStepKeepsInv(sys, s, step);
    case ChildWrite(_) => ChildStepKeepsInv(sys, s, step);
    case ChildRead(_) => ChildStepKeepsInv(sys, s, step);
    case Exit(_) => ChildStepKeepsInv(sys, s, step);
    case Select(_) => ParentStepKeepsInv(sys, s, step);
    case ParentRead => ParentStepKeepsInv(sys, s, step);
    case Serve(_) => ParentStepKeepsInv(sys, s, step);
    case ParentWrite => ParentStepKeepsInv(sys, s, step);
  }

  // ---------------------------------------------------------------- whole runs

  /** What a run comes to, step by step; None if one of the steps is not possible. */
  ghost function Run(sys: System, s: State, steps: seq<Step>): Option<State>
    decreases |steps|
  {
    if steps == [] then Some(s)
    else if !Enabled(sys, s, steps[0]) then None
    else Run(sys, Do(sys, s, steps[0]), steps[1..])
  }

  lemma {:induction false} RunKeepsInv(sys: System, s: State, steps: seq<Step>)
    requires Inv(sys, s) && Run(sys, s, steps).Some?
    ensures Inv(sys, Run(sys, s, steps).value)
    decreases |steps|
  {
    hide Inv, Enabled, Do;
    if steps != [] {
      StepKeepsInv(sys, s, steps[0]);
      RunKeepsInv(sys, Do(sys, s, steps[0]), steps[1..]);
    }
  }

  lemma InitOk(sys: System)
    requires sys.size > 0
    ensures Inv(sys, INIT)
  {}

  /** Frames never lose sync: after any run, with any number of children and any interleaving, a child that is not
      in a call has both its pipes empty and the parent is not in the middle of anything of its. */
  lemma {:induction false} AlwaysInSync(sys: System, steps: seq<Step>, fd: nat)
    requires sys.size > 0 && Run(sys, INIT, steps).Some?
    requires var s := Run(sys, INIT, steps).value; fd < |s.links| && !s.links[fd].child.Busy?
    ensures var s := Run(sys, INIT, steps).value;
      && |s.downs| == |s.links| && s.links[fd].up == [] && s.downs[fd] == []
      && (s.parent.Selecting? || s.parent.fd != fd)
  {
    var s := Run(sys, INIT, steps).value;
    InitOk(sys);
    RunKeepsInv(sys, INIT, steps);
    LinkAt(sys, s, fd);
    IdleFree(sys, s.links[fd], s.downs[fd], RoleOf(s.parent, fd));
  }

  /** Replies reach the child that asked: after any run, the k-th call that returned in a child is the k-th call
      the parent served for it, with the parent's answer to that call (NULL for an empty string). At most one call
      of a child is served and not yet returned. */
  lemma {:induction false} RepliesReachTheAsker(sys: System, steps: seq<Step>, fd: nat)
    requires sys.size > 0 && Run(sys, INIT, steps).Some? && fd < |Run(sys, INIT, steps).value.links|
    ensures var l := Run(sys, INIT, steps).value.links[fd];
      && |l.returned| <= |l.served| <= |l.returned| + 1
      && (forall k :: 0 <= k < |l.returned| ==>
            && l.returned[k].0 == l.served[k].0
            && l.returned[k].1 == (if l.served[k].1 == Text(Some([])) then Text(None) else l.served[k].1)
            && Answers(sys.size, l.served[k].0, l.served[k].1))
      && (!l.child.Busy? ==> |l.served| == |l.returned|)
  {
    var s := Run(sys, INIT, steps).value;
    InitOk(sys);
    RunKeepsInv(sys, INIT, steps);
    LinkAt(sys, s, fd);
  }

  /** A child says goodbye once: if a call to end_bg_process has been served for a child, it was the last one served,
      the child is off the task list from then on, and once the call has returned the child has ended. */
  lemma {:induction false} EndIsLast(sys: System, steps: seq<Step>, fd: nat, k: nat)
    requires sys.size > 0 && Run(sys, INIT, steps).Some? && fd < |Run(sys, INIT, steps).value.links|
    requires var l := Run(sys, INIT, steps).value.links[fd];
      k < |l.served| && l.served[k].0.routine == sys.end
    ensures var s := Run(sys, INIT, steps).value;
      var l := s.links[fd];
      && k == |l.served| - 1 && !l.listed
      && (|l.returned| == |l.served| ==> l.child.Gone?)
      && (s.parent.Reading? || s.parent.Serving? ==> s.parent.fd != fd)
  {
    var s := Run(sys, INIT, steps).value;
    InitOk(sys);
    RunKeepsInv(sys, INIT, steps);
    LinkAt(sys, s, fd);
    if s.parent.Reading? || s.parent.Serving? {
      Unserved(sys, s.links[s.parent.fd], s.downs[s.parent.fd], RoleOf(s.parent, s.parent.fd));
    }
  }

  /** The parent serves only what the child is asking for: what it has read is the call the child is in. */
  lemma {:induction false} ServesTheCall(sys: System, steps: seq<Step>)
    requires sys.size > 0 && Run(sys, INIT, steps).Some? && Run(sys, INIT, steps).value.parent.Serving?
    ensures var s := Run(sys, INIT, steps).value;
      && s.parent.fd < |s.links| && s.links[s.parent.fd].child.Busy?
      && s.links[s.parent.fd].child.call == s.parent.request && s.links[s.parent.fd].up == []
      && ToChild(s.tasks, Heard(s.parent.fd)) == Answered(s.parent.fd)
  {
    var s := Run(sys, INIT, steps).value;
    InitOk(sys);
    RunKeepsInv(sys, INIT, steps);
    ParentAt(sys, s);
    LinkAt(sys, s, s.parent.fd);
    Unserved(sys, s.links[s.parent.fd], s.downs[s.parent.fd], RoleOf(s.parent, s.parent.fd));
    Found(s, s.parent.fd);
  }

  // ---------------------------------------------------------------- calls return

  /** How many steps a call can still take. */
  ghost function Work(sys: System, l: Link, role: Role): nat {
    if !l.child.Busy? || !Proper(sys.size, l.child.call) then 0
    else
      var Busy(q, written, receipt, pieces) := l.child;
      var n := |RequestChunks(sys.size, q)|;
      var unsent := if written <= n then n - written else 0;
      if |l.served| == |l.returned| then
        unsent + match role
                 case Free => n + 6
                 case Reads(_, j) => 5 + if j <= n then n - j else 0
                 case Serves(_) => 5
                 case Replies(_) => 0
      else
        unsent + (if role.Replies? then |role.chunks| else 0) + ReplyLeft(sys, l, q, pieces)
  }

  ghost function ReplyLeft(sys: System, l: Link, q: Request, pieces: nat): nat {
    if |l.returned| < |l.served| && Answers(sys.size, q, l.served[|l.returned|].1) then
      var n := |ReplyChunks(sys.size, q, l.served[|l.returned|].1)|;
      if pieces <= n then n - pieces else 0
    else 0
  }

  /** The work of the first n children. */
  ghost function TotalWork(sys: System, s: State, n: nat): nat
    requires n <= |s.links|
  {
    if n == 0 then 0 else TotalWork(sys, s, n - 1) + Work(sys, s.links[n - 1], RoleOf(s.parent, n - 1))
  }

  lemma {:induction false} LessWork(sys: System, s: State, s': State, fd: nat, n: nat)
    requires n <= |s.links| == |s'.links| && fd < |s.links|
    requires forall i :: 0 <= i < |s.links| && i != fd ==>
      s'.links[i] == s.links[i] && RoleOf(s'.parent, i) == RoleOf(s.parent, i)
    requires Work(sys, s'.links[fd], RoleOf(s'.parent, fd)) < Work(sys, s.links[fd], RoleOf(s.parent, fd))
    ensures if fd < n then TotalWork(sys, s', n) < TotalWork(sys, s, n)
            else TotalWork(sys, s', n) == TotalWork(sys, s, n)
    decreases n
  {
    hide Work, RoleOf;
    if n > 0 {
      LessWork(sys, s, s', fd, n - 1);
    }
  }

  lemma ChildWriteWorks(sys: System, l: Link, down: Bytes, role: Role)
    requires LinkOk(sys, l, down, role) && CanWrite(sys, l.child)
    ensures Work(sys, Wrote(sys, l), role) < Work(sys, l, role)
  {
    hide RequestChunks, Proper, Answers, ReplyChunks;
  }

  lemma SelectWorks(sys: System, l: Link, down: Bytes)
    requires LinkOk(sys, l, down, Free) && l.up != []
    ensures Work(sys, l, Reads(START, 0)) < Work(sys, l, Free)
  {
    hide RequestChunks, Proper, Answers, ReplyChunks;
  }

  lemma ParentReadWorks(sys: System, l: Link, down: Bytes, r: Reader, j: nat)
    requires LinkOk(sys, l, down, Reads(r, j)) && Need(sys.size, r) <= |l.up|
    ensures var n := Need(sys.size, r);
      Work(sys, l.(up := l.up[n..]), RoleOf(AfterRead(0, Feed(r, l.up[..n]), j + 1), 0))
      < Work(sys, l, Reads(r, j))
  {
    hide RequestChunks, Proper, Answers, ReplyChunks, Need, Feed, Tracked;
    Unserved(sys, l, down, Reads(r, j));
    ParentReadOk(sys, l, down, r, j);
  }

  lemma ServeWorks(sys: System, l: Link, down: Bytes, q: Request, a: Answer)
    requires sys.size > 0 && LinkOk(sys, l, down, Serves(q)) && Answers(sys.size, q, a)
    ensures Work(sys, Served(sys, l, q, a), Replies(ReplyChunks(sys.size, q, a)))
          < Work(sys, l, Serves(q))
  {
    hide RequestChunks, Proper, Answers, ReplyChunks;
    Unserved(sys, l, down, Serves(q));
    ReplyNonempty(sys, q, a);
  }

  lemma ParentWriteWorks(sys: System, l: Link, down: Bytes, cs: seq<Bytes>)
    requires LinkOk(sys, l, down, Replies(cs)) && cs != []
    ensures Work(sys, l, if |cs| == 1 then Free else Replies(cs[1..])) < Work(sys, l, Replies(cs))
  {
    hide RequestChunks, Proper, Answers, ReplyChunks;
  }

  lemma ChildReadWorks(sys: System, l: Link, down: Bytes, role: Role)
    requires sys.size > 0 && LinkOk(sys, l, down, role) && CanRead(sys, l.child, down)
    ensures Work(sys, Received(sys, l, down), role) < Work(sys, l, role)
  {
    hide RequestChunks, Answers, ReplyChunks, ReplyTracked, ReplyFeed, LogsAgree;
    ChildReadOk(sys, l, down, role);
    AnsweringLeft(sys, l, down, role);
  }

  lemma AnsweringLeft(sys: System, l: Link, down: Bytes, role: Role)
    requires LinkOk(sys, l, down, role) && l.child.Busy? && |l.served| == |l.returned| + 1
    ensures ReplyLeft(sys, l, l.child.call, l.child.pieces) > 0
    ensures ReplyLeft(sys, l, l.child.call, l.child.pieces + 1) < ReplyLeft(sys, l, l.child.call, l.child.pieces)
  {
    hide RequestChunks, Answers, ReplyChunks, ReplyTracked, LogsAgree, Proper;
  }

  /** Every step that carries on with a call uses up work. */
  lemma InternalWorks(sys: System, s: State, step: Step)
    requires Inv(sys, s) && Enabled(sys, s, step) && Internal(step)
    ensures TotalWork(sys, Do(sys, s, step), |Do(sys, s, step).links|) < TotalWork(sys, s, |s.links|)
  {
    hide LinkOk, TasksOk, LinksOk, Proper, Answers, Feed, Work, TotalWork, RequestChunks, ReplyChunks;
    var s' := Do(sys, s, step);
    var fd := if step.ChildWrite? || step.ChildRead? || step.Select? then step.fd else s.parent.fd;
    ParentAt(sys, s);
    LinkAt(sys, s, fd);
    var l, down, role := s.links[fd], s.downs[fd], RoleOf(s.parent, fd);
    match step {
      case ChildWrite(_) => ChildWriteWorks(sys, l, down, role);
      case ChildRead(_) => ChildReadWorks(sys, l, down, role);
      case Select(_) => SelectWorks(sys, l, down);
      case ParentRead => ParentReadWorks(sys, l, down, s.parent.reader, s.parent.done);
      case Serve(a) =>
        Unserved(sys, l, down, role);
        ListedServed(sys, l, s.parent.request, a);
        Found(s, fd);
        ServeWorks(sys, l, down, s.parent.request, a);
      case ParentWrite => ParentWriteWorks(sys, l, down, s.parent.chunks);
    }
    LessWork(sys, s, s', fd, |s.links|);
  }

  /** No deadlock: while a child is in a call, or the parent is busy, some step carries on. */
  lemma {:induction false} SomeStepCarriesOn(sys: System, s: State, fd: nat) returns (step: Step)
    requires Inv(sys, s)
    requires if s.parent.Selecting? then fd < |s.links| && s.links[fd].child.Busy? else fd == s.parent.fd
    ensures Internal(step) && Enabled(sys, s, step)
  {
    hide Inv, LinkOk, TasksOk, LinksOk, RoleOf, Proper, Answers, RequestChunks, ReplyChunks;
    ParentAt(sys, s);
    LinkAt(sys, s, fd);
    var l, down, role := s.links[fd], s.downs[fd], RoleOf(s.parent, fd);
    assert role == match s.parent { case Selecting => Free case Reading(_, r, j) => Reads(r, j)
                                    case Serving(_, q) => Serves(q) case Replying(_, _, cs) => Replies(cs) } by {
      RoleIs(s.parent, fd);
    }
    LinkCarriesOn(sys, l, down, role);
    if CanWrite(sys, l.child) {
      step := ChildWrite(fd);
    } else {
      match s.parent {
        case Selecting => step := if l.up != [] then Select(fd) else ChildRead(fd);
        case Reading(_, _, _) => step := ParentRead;
        case Serving(_, q) =>
          step := Serve(if q.kind == RETURN_INTEGER then Number(0, q.ctx) else Text(None));
        case Replying(_, _, _) => step := ParentWrite;
      }
    }
  }

  lemma RoleIs(p: Parent, fd: nat)
    requires p.Selecting? || p.fd == fd
    ensures RoleOf(p, fd) == match p { case Selecting => Free case Reading(_, r, j) => Reads(r, j)
                                       case Serving(_, q) => Serves(q) case Replying(_, _, cs) => Replies(cs) }
  {}

  lemma LinkCarriesOn(sys: System, l: Link, down: Bytes, role: Role)
    requires sys.size > 0 && LinkOk(sys, l, down, role) && (l.child.Busy? || role != Free)
    ensures l.child.Busy? && (l.up != [] ==> |l.served| == |l.returned|)
    ensures CanWrite(sys, l.child)
         || (role.Reads? && Need(sys.size, role.reader) <= |l.up|)
         || (role.Serves? && Answers(sys.size, role.request,
               if role.request.kind == RETURN_INTEGER then Number(0, role.request.ctx) else Text(None)))
         || (role.Replies? && role.chunks != [])
         || (role.Free? && (l.up != [] || CanRead(sys, l.child, down)))
  {
    hide RequestChunks, ReplyChunks, Tracked, ReplyTracked, Concat, LogsAgree;
    var q, w := l.child.call, l.child.written;
    var chunks := RequestChunks(sys.size, q);
    if w == |chunks| {
      NothingAfter(chunks);
      assert l.up + [] == l.up;
      if |l.served| == |l.returned| {
        match role {
          case Reads(_, j) =>
            ReaderTracks(sys.size, q, j);
            ConcatFrom(chunks, j);
          case Free => RequestNonempty(sys, q);
          case _ =>
        }
      } else if role.Free? {
        var a := l.served[|l.returned|].1;
        ReplyTracks(sys.size, q, a, l.child.pieces);
        ConcatFrom(ReplyChunks(sys.size, q, a), l.child.pieces);
      }
    }
  }

  lemma RequestNonempty(sys: System, q: Request)
    requires Proper(sys.size, q)
    ensures Concat(RequestChunks(sys.size, q)) != []
  {}

  /** Every call returns. From every state that keeps the invariant, and so after any run, the calls under way
      take at most TotalWork further steps, in whatever order, if no new calls are made; and when no step can carry
      on, every call has returned, the parent is back in select, and all the pipes are empty. */
  lemma {:induction false} CallsReturn(sys: System, s: State, steps: seq<Step>)
    requires Inv(sys, s) && Run(sys, s, steps).Some? && forall k :: 0 <= k < |steps| ==> Internal(steps[k])
    ensures |steps| <= TotalWork(sys, s, |s.links|)
    ensures var s' := Run(sys, s, steps).value;
      (forall step :: Internal(step) ==> !Enabled(sys, s', step)) ==>
        s'.parent.Selecting? && |s'.downs| == |s'.links|
        && forall fd :: 0 <= fd < |s'.links| ==>
             !s'.links[fd].child.Busy? && s'.links[fd].up == [] && s'.downs[fd] == []
    decreases |steps|
  {
    hide Inv, Enabled, Do, TotalWork;
    if steps != [] {
      InternalWorks(sys, s, steps[0]);
      StepKeepsInv(sys, s, steps[0]);
      CallsReturn(sys, Do(sys, s, steps[0]), steps[1..]);
    } else if forall step :: Internal(step) ==> !Enabled(sys, s, step) {
      StuckIsQuiet(sys, s);
    }
  }

  lemma StuckIsQuiet(sys: System, s: State)
    requires Inv(sys, s) && forall step :: Internal(step) ==> !Enabled(sys, s, step)
    ensures s.parent.Selecting? && |s.downs| == |s.links|
    ensures forall fd :: 0 <= fd < |s.links| ==>
      !s.links[fd].child.Busy? && s.links[fd].up == [] && s.downs[fd] == []
  {
    hide Inv, Enabled, Internal, LinkOk, RoleOf;
    if !s.parent.Selecting? {
      ParentAt(sys, s);
      var step := SomeStepCarriesOn(sys, s, s.parent.fd);
    }
    LinksOf(sys, s);
    forall fd | 0 <= fd < |s.links|
      ensures !s.links[fd].child.Busy? && s.links[fd].up == [] && s.downs[fd] == []
    {
      if s.links[fd].child.Busy? {
        var step := SomeStepCarriesOn(sys, s, fd);
      }
      LinkAt(sys, s, fd);
      IdleFree(sys, s.links[fd], s.downs[fd], RoleOf(s.parent, fd));
    }
  }
}
