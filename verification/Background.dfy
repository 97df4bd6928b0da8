/** The two ends of the background protocol (mcsrc/src/background.c), over pipes: what the child writes for a
    call, what background_attention reads, and what goes back. Reads are complete: a read is short only at the
    end of what the other side has written. */
module Background {
  import opened Wire
  import opened TaskList
  import opened Wrappers
  import Sequences

  class Pipe {
    var bytes: Bytes

    constructor ()
      ensures bytes == []
    {
      bytes := [];
    }

    method Write(s: Bytes)
      modifies this
      ensures bytes == old(bytes) + s
    {
      bytes := bytes + s;
    }

    method Read(n: nat) returns (s: Bytes)
      modifies this
      ensures s + bytes == old(bytes)
      ensures if n <= |old(bytes)| then |s| == n else bytes == []
    {
      var k := if n <= |bytes| then n else |bytes|;
      s, bytes := bytes[..k], bytes[k..];
    }
  }

  lemma Split(a: Bytes, b: Bytes, c: Bytes, d: Bytes)
    requires a + b == c + d && |a| == |c|
    ensures a == c && b == d
  {
    assert a == (a + b)[..|a|] && b == (a + b)[|a|..];
  }

  // ---------------------------------------------------------------- the child

  /** parent_call_header */
  method ParentCallHeader(parent: Pipe, routine: nat, argc: int, kind: int, ctx: Option<Bytes>)
    requires IsInt(argc) && IsInt(kind)
    modifies parent
    ensures parent.bytes == old(parent.bytes) + Concat(HeaderChunks(routine, argc, kind, ctx))
  {
    hide Little, IntBytes;
    var have := if ctx.Some? then 1 else 0;
    parent.Write(Little(routine, 8));
    parent.Write(IntBytes(argc));
    parent.Write(IntBytes(kind));
    parent.Write(IntBytes(have));
    if have != 0 {
      parent.Write(ctx.value);
    }
    HeaderConcat(routine, argc, kind, ctx);
  }

  lemma HeaderConcat(routine: nat, argc: int, kind: int, ctx: Option<Bytes>)
    requires IsInt(argc) && IsInt(kind)
    ensures Concat(HeaderChunks(routine, argc, kind, ctx))
         == Little(routine, 8) + IntBytes(argc) + IntBytes(kind) + IntBytes(if ctx.Some? then 1 else 0)
            + if ctx.Some? then ctx.value else []
  {
    hide Little, IntBytes;
    var a, b, c, d := Little(routine, 8), IntBytes(argc), IntBytes(kind), IntBytes(if ctx.Some? then 1 else 0);
    ConcatSplit([a, b, c, d], if ctx.Some? then [ctx.value] else []);
    if ctx.Some? {
      ConcatOne(ctx.value);
    }
    assert [a, b, c, d] == [a] + [b] + [c] + [d];
    ConcatSplit([a] + [b] + [c], [d]);
    ConcatSplit([a] + [b], [c]);
    ConcatSplit([a], [b]);
    ConcatOne(a);
    ConcatOne(b);
    ConcatOne(c);
    ConcatOne(d);
  }

  /** The bytes of the arguments from i on. */
  ghost function ArgBytes(args: seq<Bytes>, i: nat): Bytes
    requires i <= |args| && forall k :: 0 <= k < |args| ==> IsInt(|args[k]|)
  {
    Concat(ArgChunks(args[i..]))
  }

  lemma ArgNext(args: seq<Bytes>, i: nat)
    requires i < |args| && forall k :: 0 <= k < |args| ==> IsInt(|args[k]|)
    ensures ArgBytes(args, i) == IntBytes(|args[i]|) + (args[i] + ArgBytes(args, i + 1))
  {
    hide IntBytes;
    var size := IntBytes(|args[i]|);
    assert args[i..][1..] == args[i + 1..];
    ConcatSplit([size, args[i]], ArgChunks(args[i + 1..]));
    assert [size, args[i]] == [size] + [args[i]];
    ConcatSplit([size], [args[i]]);
    ConcatOne(size);
    ConcatOne(args[i]);
  }

  lemma Regroup(a: Bytes, b: Bytes, c: Bytes, d: Bytes)
    ensures a + (b + (c + d)) == ((a + b) + c) + d
    ensures (b + (c + d)) + a == b + (c + (d + a))
  {}

  /** The writes of parent_va_call and parent_va_call_string. */
  method SendCall(size: nat, parent: Pipe, q: Request)
    requires Proper(size, q)
    modifies parent
    ensures parent.bytes == old(parent.bytes) + Concat(RequestChunks(size, q))
  {
    hide ArgBytes, Concat, IntBytes, ArgChunks;
    ParentCallHeader(parent, q.routine, q.argc, q.kind, q.ctx);
    ghost var header := parent.bytes;
    var i := 0;
    while i < q.argc
      invariant 0 <= i <= q.argc
      invariant parent.bytes + ArgBytes(q.args, i) == header + ArgBytes(q.args, 0)
    {
      ArgNext(q.args, i);
      Regroup(parent.bytes, IntBytes(|q.args[i]|), q.args[i], ArgBytes(q.args, i + 1));
      parent.Write(IntBytes(|q.args[i]|));
      parent.Write(q.args[i]);
      i := i + 1;
    }
    RequestIs(size, q);
    Sequences.Assoc(old(parent.bytes), Concat(HeaderChunks(q.routine, q.argc, q.kind, q.ctx)), ArgBytes(q.args, 0));
    assert parent.bytes + [] == parent.bytes;
  }

  lemma RequestIs(size: nat, q: Request)
    requires Proper(size, q)
    ensures Concat(RequestChunks(size, q))
         == Concat(HeaderChunks(q.routine, q.argc, q.kind, q.ctx)) + ArgBytes(q.args, 0)
    ensures ArgBytes(q.args, |q.args|) == []
  {
    assert q.args[0..] == q.args;
    ConcatSplit(HeaderChunks(q.routine, q.argc, q.kind, q.ctx), ArgChunks(q.args));
  }

  /** The reads of parent_va_call: the result, and the context if one was sent. */
  method ReceiveInteger(size: nat, from: Pipe, ghost q: Request, ghost a: Answer, ctx: Option<Bytes>, ghost rest: Bytes)
    returns (result: int, ctx': Option<Bytes>)
    requires Proper(size, q) && q.kind == RETURN_INTEGER && q.ctx == ctx && Answers(size, q, a)
    requires from.bytes == Concat(ReplyChunks(size, q, a)) + rest
    modifies from
    ensures result == a.result && ctx' == a.ctx && from.bytes == rest
  {
    ReplyConcat(size, q, a);
    ghost var was := from.bytes;
    var s := from.Read(4);
    Split(s, from.bytes, IntBytes(a.result), (if a.ctx.Some? then a.ctx.value else []) + rest);
    IntRoundTrip(a.result);
    result, ctx' := IntValue(s), None;
    if ctx.Some? {
      var t := from.Read(size);
      Split(t, from.bytes, a.ctx.value, rest);
      ctx' := Some(t);
    }
  }

  lemma ReplyConcat(size: nat, q: Request, a: Answer)
    requires Answers(size, q, a)
    ensures a.Number? ==>
      Concat(ReplyChunks(size, q, a)) == IntBytes(a.result) + if a.ctx.Some? then a.ctx.value else []
    ensures a.Text? ==>
      var t := if a.text.Some? then a.text.value else [];
      Concat(ReplyChunks(size, q, a)) == IntBytes(|t|) + t
  {
    hide IntBytes;
    match a
    case Number(result, ctx) =>
      ConcatOne(IntBytes(result));
      if ctx.Some? {
        ConcatSplit([IntBytes(result)], [ctx.value]);
        ConcatOne(ctx.value);
      }
    case Text(text) =>
      if text.None? || text.value == [] {
        ConcatOne(IntBytes(0));
      } else {
        var t := text.value;
        assert [IntBytes(|t|), t] == [IntBytes(|t|)] + [t];
        ConcatSplit([IntBytes(|t|)], [t]);
        ConcatOne(IntBytes(|t|));
        ConcatOne(t);
      }
  }

  /** Where everything is in a reply: an int in 4 bytes, and the context or the characters behind it. */
  lemma ReplyLayout(size: nat, q: Request, a: Answer)
    requires Answers(size, q, a)
    ensures var b := Concat(ReplyChunks(size, q, a));
      var t := match a
               case Number(_, ctx) => (if ctx.Some? then ctx.value else [])
               case Text(text) => (if text.Some? then text.value else []);
      && 4 <= |b| && b[4..] == t && IntValue(b[..4]) == if a.Number? then a.result else |t|
  {
    hide IntBytes, IntValue;
    ReplyConcat(size, q, a);
    var t := match a
             case Number(_, ctx) => (if ctx.Some? then ctx.value else [])
             case Text(text) => (if text.Some? then text.value else []);
    var n := if a.Number? then a.result else |t|;
    IntRoundTrip(n);
    Sequences.Parts(IntBytes(n), t);
  }

  /** The reads of parent_va_call_string: a length, and that many characters; NULL for length 0. */
  method ReceiveString(size: nat, from: Pipe, ghost q: Request, ghost a: Answer, ghost rest: Bytes)
    returns (text: Option<Bytes>)
    requires Proper(size, q) && q.kind == RETURN_STRING && Answers(size, q, a)
    requires from.bytes == Concat(ReplyChunks(size, q, a)) + rest
    modifies from
    ensures text == (if a.text == Some([]) then None else a.text) && from.bytes == rest
  {
    ReplyConcat(size, q, a);
    ghost var t := if a.text.Some? then a.text.value else [];
    var s := from.Read(4);
    Split(s, from.bytes, IntBytes(|t|), t + rest);
    IntRoundTrip(|t|);
    var i := IntValue(s);
    if |s| != 4 || i <= 0 {
      return None;
    }
    var str := from.Read(i);
    Split(str, from.bytes, t, rest);
    if |str| != i {
      return None;
    }
    return Some(str);
  }

  // ---------------------------------------------------------------- the parent

  /** The bytes of a request after the routine. */
  ghost function Remainder(q: Request): Bytes
    requires IsInt(q.argc) && IsInt(q.kind) && forall i :: 0 <= i < |q.args| ==> IsInt(|q.args[i]|)
  {
    IntBytes(q.argc) + (IntBytes(q.kind) + (IntBytes(if q.ctx.Some? then 1 else 0)
    + ((if q.ctx.Some? then q.ctx.value else []) + ArgBytes(q.args, 0))))
  }

  lemma RequestBytes(size: nat, q: Request)
    requires Proper(size, q)
    ensures Concat(RequestChunks(size, q)) == Little(q.routine, 8) + Remainder(q)
  {
    hide IntBytes, Little, ArgBytes;
    RequestIs(size, q);
    HeaderConcat(q.routine, q.argc, q.kind, q.ctx);
  }

  /** Where everything is in a request: the routine in the first 8 bytes, the number of arguments, the return type and
      the context flag in 4 bytes each, the context if there is one, and then the arguments. */
  lemma RequestLayout(size: nat, q: Request)
    requires Proper(size, q)
    ensures var b := Concat(RequestChunks(size, q));
      var at := if q.ctx.Some? then 20 + size else 20;
      && at <= |b|
      && Value(b[..8]) == q.routine && IntValue(b[8..12]) == q.argc == |q.args| && IntValue(b[12..16]) == q.kind
      && IntValue(b[16..20]) == (if q.ctx.Some? then 1 else 0)
      && (q.ctx.Some? ==> b[20..at] == q.ctx.value)
      && b[at..] == ArgBytes(q.args, 0)
  {
    hide IntBytes, Little, ArgBytes, Concat, RequestChunks, IntValue, Value;
    RequestBytes(size, q);
    var flag := if q.ctx.Some? then 1 else 0;
    PointerRoundTrip(q.routine);
    IntRoundTrip(q.argc);
    IntRoundTrip(q.kind);
    IntRoundTrip(flag);
    HeaderSlices(Little(q.routine, 8), IntBytes(q.argc), IntBytes(q.kind), IntBytes(flag),
                 if q.ctx.Some? then q.ctx.value else [], ArgBytes(q.args, 0));
  }

  lemma HeaderSlices(p: Bytes, a: Bytes, k: Bytes, f: Bytes, c: Bytes, rest: Bytes)
    requires |p| == 8 && |a| == |k| == |f| == 4
    ensures var b := p + (a + (k + (f + (c + rest))));
      && b[..8] == p && b[8..12] == a && b[12..16] == k && b[16..20] == f
      && b[20..20 + |c|] == c && b[20 + |c|..] == rest
  {
    Sequences.Parts(p, a + (k + (f + (c + rest))));
    Sequences.Middle(p, a, k + (f + (c + rest)), 8, 12);
    Sequences.Assoc(p, a, k + (f + (c + rest)));
    Sequences.Middle(p + a, k, f + (c + rest), 12, 16);
    Sequences.Assoc(p + a, k, f + (c + rest));
    Sequences.Middle(p + a + k, f, c + rest, 16, 20);
    Sequences.Assoc(p + a + k, f, c + rest);
    Sequences.Middle(p + a + k + f, c, rest, 20, 20 + |c|);
  }

  /** The arguments: each one's length in 4 bytes, and its bytes. */
  lemma ArgumentLayout(args: seq<Bytes>, i: nat)
    requires i < |args| && forall k :: 0 <= k < |args| ==> IsInt(|args[k]|)
    ensures var b := ArgBytes(args, i);
      var n := |args[i]|;
      && 4 + n <= |b| && IntValue(b[..4]) == n && b[4..4 + n] == args[i] && b[4 + n..] == ArgBytes(args, i + 1)
    ensures ArgBytes(args, |args|) == []
  {
    hide IntBytes, IntValue;
    ArgNext(args, i);
    IntRoundTrip(|args[i]|);
    var s := IntBytes(|args[i]|);
    Sequences.Parts(s, args[i] + ArgBytes(args, i + 1));
    Sequences.Middle(s, args[i], ArgBytes(args, i + 1), 4, 4 + |args[i]|);
  }

  /** The reads of background_attention after the routine. None when one of them comes short. */
  method ReadRequest(size: nat, fd: Pipe, routine: nat, ghost q: Request, ghost rest: Bytes)
    returns (r: Option<Request>)
    requires Proper(size, q) && routine == q.routine && fd.bytes == Remainder(q) + rest
    modifies fd
    ensures r == Some(q) && fd.bytes == rest
  {
    hide Concat, IntBytes, IntValue, ArgBytes;
    ghost var have', ctx' := if q.ctx.Some? then 1 else 0, if q.ctx.Some? then q.ctx.value else [];
    ghost var args := ArgBytes(q.args, 0) + rest;
    IntRoundTrip(q.argc);
    IntRoundTrip(q.kind);
    IntRoundTrip(have');
    RestGroups(IntBytes(q.argc), IntBytes(q.kind), IntBytes(have'), ctx', ArgBytes(q.args, 0), rest);
    var b := fd.Read(4);
    Split(b, fd.bytes, IntBytes(q.argc), IntBytes(q.kind) + (IntBytes(have') + (ctx' + args)));
    var c := fd.Read(4);
    Split(c, fd.bytes, IntBytes(q.kind), IntBytes(have') + (ctx' + args));
    var d := fd.Read(4);
    Split(d, fd.bytes, IntBytes(have'), ctx' + args);
    if |b| != 4 || |c| != 4 || |d| != 4 {
      return None;
    }
    var ctx: Option<Bytes> := None;
    if IntValue(d) != 0 {
      var e := fd.Read(size);
      Split(e, fd.bytes, ctx', args);
      if |e| != size {
        return None;
      }
      ctx := Some(e);
    } else {
      assert ctx' + args == args;
    }
    var data := ReadArguments(fd, IntValue(b), q.args, rest);
    if data.None? {
      return None;
    }
    return Some(Request(routine, IntValue(b), IntValue(c), ctx, data.value));
  }

  lemma RestGroups(a: Bytes, b: Bytes, c: Bytes, d: Bytes, e: Bytes, rest: Bytes)
    ensures (a + (b + (c + (d + e)))) + rest == a + (b + (c + (d + (e + rest))))
  {
    assert (d + e) + rest == d + (e + rest);
    Regroup(rest, a, b, c + (d + e));
  }

  /** The loop over the arguments. */
  method ReadArguments(fd: Pipe, argc: int, ghost args: seq<Bytes>, ghost rest: Bytes)
    returns (data: Option<seq<Bytes>>)
    requires argc == |args| && forall i :: 0 <= i < |args| ==> IsInt(|args[i]|)
    requires fd.bytes == ArgBytes(args, 0) + rest
    modifies fd
    ensures data == Some(args) && fd.bytes == rest
  {
    hide IntBytes, IntValue, ArgBytes;
    var read: seq<Bytes> := [];
    while |read| < argc
      invariant |read| <= argc && read == args[..|read|]
      invariant fd.bytes == ArgBytes(args, |read|) + rest
      decreases argc - |read|
    {
      ghost var i := |read|;
      ghost var more := ArgBytes(args, i + 1) + rest;
      ArgNext(args, i);
      Regroup(rest, IntBytes(|args[i]|), args[i], ArgBytes(args, i + 1));
      IntRoundTrip(|args[i]|);
      var s := fd.Read(4);
      Split(s, fd.bytes, IntBytes(|args[i]|), args[i] + more);
      if |s| != 4 || IntValue(s) < 0 {
        return None;
      }
      var block := fd.Read(IntValue(s));
      Split(block, fd.bytes, args[i], more);
      if |block| != IntValue(s) {
        return None;
      }
      read := read + [block];
      PrefixNext(args, i);
    }
    NothingLeft(args);
    assert read == args;
    data := Some(read);
  }

  lemma PrefixNext(args: seq<Bytes>, i: nat)
    requires i < |args|
    ensures args[..i] + [args[i]] == args[..i + 1]
  {}

  lemma NothingLeft(args: seq<Bytes>)
    requires forall i :: 0 <= i < |args| ==> IsInt(|args[i]|)
    ensures ArgBytes(args, |args|) == []
  {}

  /** The writes of background_attention. */
  method SendReply(size: nat, to: Pipe, ghost q: Request, a: Answer)
    requires Answers(size, q, a)
    modifies to
    ensures to.bytes == old(to.bytes) + Concat(ReplyChunks(size, q, a))
  {
    hide Concat, IntBytes;
    ReplyConcat(size, q, a);
    match a
    case Number(result, ctx) =>
      to.Write(IntBytes(result));
      if ctx.Some? {
        to.Write(ctx.value);
      }
    case Text(text) =>
      if text.Some? {
        to.Write(IntBytes(|text.value|));
        if |text.value| != 0 {
          to.Write(text.value);
        }
      } else {
        to.Write(IntBytes(0));
      }
  }

  /** Whether background_attention takes the child of pid off the list: when the child has ended (no request), or
      when the routine it serves is end_bg_process, whose address is end. */
  ghost predicate Leaves(tasks: seq<Task>, fd: int, end: nat, q: Option<Request>) {
    q.None? || (ToChild(tasks, fd) != -1 && q.value.routine == end)
  }

  /** background_attention: when a request q has been written to the descriptor, it takes exactly the request out
      of the pipe, finds the child by the descriptor, calls the routine once, and sends the answer to the child it
      has found, even if the call has taken the child off the list. The list changes only when the child leaves. */
  method BackgroundAttention(size: nat, end: nat, tasks: Tasks, pid: int, fd: int, pipes: map<int, Pipe>,
                             serve: Request -> Answer, ghost q: Option<Request>, ghost rest: Bytes)
    requires tasks.Valid() && fd in pipes
    requires q.Some? ==>
      && Proper(size, q.value) && Answers(size, q.value, serve(q.value))
      && pipes[fd].bytes == Concat(RequestChunks(size, q.value)) + rest
    requires q.None? ==> |pipes[fd].bytes| < 8
    requires var to := ToChild(tasks.Contents(), fd); to != -1 ==> to in pipes && pipes[to] != pipes[fd]
    modifies pipes[fd], tasks, tasks.nodes
    modifies var to := ToChild(tasks.Contents(), fd); if to in pipes then {pipes[to]} else {}
    ensures tasks.Valid()
    ensures var was := old(tasks.Contents());
      tasks.Contents() == if Leaves(was, fd, end, q) then Without(was, pid) else was
    ensures q.Some? ==> pipes[fd].bytes == rest
    ensures var to := old(ToChild(tasks.Contents(), fd)); to != -1 ==>
      pipes[to].bytes == old(pipes[to].bytes)
        + if q.Some? then Concat(ReplyChunks(size, q.value, serve(q.value))) else []
  {
    hide Concat, Little, Remainder, Value, RequestChunks, ReplyChunks, Tasks.Valid, Tasks.Contents;
    if q.Some? {
      RequestBytes(size, q.value);
      PointerRoundTrip(q.value.routine);
      Sequences.Assoc(Little(q.value.routine, 8), Remainder(q.value), rest);
    }
    var routine := pipes[fd].Read(8);
    if |routine| < 8 {
      var _ := tasks.DestroyTask(pid);
      return;
    }
    Split(routine, pipes[fd].bytes, Little(q.value.routine, 8), Remainder(q.value) + rest);
    var r := ReadRequest(size, pipes[fd], Value(routine), q.value, rest);
    if r.Some? {
      var to := tasks.FindToChild(fd);
      if to != -1 {
        var answer := serve(r.value);
        if r.value.routine == end {
          var _ := tasks.DestroyTask(pid);
        }
        SendReply(size, pipes[to], q.value, answer);
      }
    }
  }
}
