/** What goes through the pipes between the parent and its background children (mcsrc/src/background.c): the
    writes that make up a request and a reply, and how the other side reads them back piece by piece. */
module Wire {
  import opened Powers
  import opened Wrappers

  type Byte = b: int | 0 <= b < 256
  type Bytes = seq<Byte>

  const MAXCALLARGS: nat := 4
  const RETURN_STRING: int := 0
  const RETURN_INTEGER: int := 1
  const TWO_TO_THE_31: int := 0x8000_0000
  const TWO_TO_THE_32: int := 0x1_0000_0000
  const TWO_TO_THE_64: int := 0x1_0000_0000_0000_0000

  // ---------------------------------------------------------------- numbers in memory

  /** The k low bytes of n, least significant first. */
  function Little(n: nat, k: nat): (s: Bytes)
    ensures |s| == k
  {
    if k == 0 then [] else [n % 256] + Little(n / 256, k - 1)
  }

  function Value(s: Bytes): nat {
    if s == [] then 0 else s[0] + 256 * Value(s[1..])
  }

  lemma {:induction false} LittleValue(n: nat, k: nat)
    requires n < Power(256, k)
    ensures Value(Little(n, k)) == n
  {
    if k > 0 {
      LittleValue(n / 256, k - 1);
      assert Little(n, k)[1..] == Little(n / 256, k - 1);
    }
  }

  /** Byte i of a number in memory is its digit to the base 256, the lowest one first. */
  lemma {:induction false} LittleAt(n: nat, k: nat, i: nat)
    requires i < k
    ensures Power(256, i) > 0 && Little(n, k)[i] == n / Power(256, i) % 256
  {
    PowerPositive(256, i);
    if i > 0 {
      LittleAt(n / 256, k - 1, i - 1);
      PowerPositive(256, i - 1);
      DivideTwice(n, 256, Power(256, i - 1));
    }
  }

  predicate IsInt(v: int) { -TWO_TO_THE_31 <= v < TWO_TO_THE_31 }

  /** An int, in two's complement. */
  function IntBytes(v: int): (s: Bytes)
    requires IsInt(v)
    ensures |s| == 4
  {
    Little(if v < 0 then v + TWO_TO_THE_32 else v, 4)
  }

  function IntValue(s: Bytes): (v: int) {
    var n := Value(s);
    if n < TWO_TO_THE_31 then n else n - TWO_TO_THE_32
  }

  lemma IntRoundTrip(v: int)
    requires IsInt(v)
    ensures IntValue(IntBytes(v)) == v
  {
    assert Power(256, 4) == TWO_TO_THE_32 by {
      assert Power(256, 2) == 65536;
      assert Power(256, 4) == 65536 * Power(256, 2);
    }
    LittleValue(if v < 0 then v + TWO_TO_THE_32 else v, 4);
  }

  lemma PointerRoundTrip(n: nat)
    requires n < TWO_TO_THE_64
    ensures Value(Little(n, 8)) == n
  {
    assert Power(256, 8) == TWO_TO_THE_64 by {
      assert Power(256, 2) == 65536;
      assert Power(256, 4) == 65536 * Power(256, 2);
      assert Power(256, 6) == 65536 * Power(256, 4);
      assert Power(256, 8) == 65536 * Power(256, 6);
    }
    LittleValue(n, 8);
  }

  function Concat(chunks: seq<Bytes>): Bytes {
    if chunks == [] then [] else chunks[0] + Concat(chunks[1..])
  }

  lemma {:induction false} ConcatSplit(a: seq<Bytes>, b: seq<Bytes>)
    ensures Concat(a + b) == Concat(a) + Concat(b)
  {
    if a == [] {
      assert a + b == b;
    } else {
      assert (a + b)[1..] == a[1..] + b;
      ConcatSplit(a[1..], b);
    }
  }

  lemma ConcatFrom(chunks: seq<Bytes>, j: nat)
    requires j < |chunks|
    ensures Concat(chunks[j..]) == chunks[j] + Concat(chunks[j + 1..])
  {
    assert chunks[j..][1..] == chunks[j + 1..];
  }

  lemma ConcatOne(chunk: Bytes)
    ensures Concat([chunk]) == chunk
  {
    assert [chunk][1..] == [];
  }

  // ---------------------------------------------------------------- requests

  /** A call as the child makes it: the routine, the return type, the context if it sends one, the arguments. */
  datatype Request = Request(routine: nat, argc: int, kind: int, ctx: Option<Bytes>, args: seq<Bytes>)

  /** What the child may send; size is sizeof (*ctx). String calls have no context. */
  ghost predicate Proper(size: nat, q: Request) {
    && q.routine < TWO_TO_THE_64
    && q.argc == |q.args| <= MAXCALLARGS
    && (q.kind == RETURN_INTEGER || (q.kind == RETURN_STRING && q.ctx.None?))
    && (q.ctx.Some? ==> |q.ctx.value| == size)
    && forall i :: 0 <= i < |q.args| ==> IsInt(|q.args[i]|)
  }

  function ArgChunks(args: seq<Bytes>): seq<Bytes>
    requires forall i :: 0 <= i < |args| ==> IsInt(|args[i]|)
  {
    if args == [] then [] else [IntBytes(|args[0]|), args[0]] + ArgChunks(args[1..])
  }

  function HeaderChunks(routine: nat, argc: int, kind: int, ctx: Option<Bytes>): seq<Bytes>
    requires IsInt(argc) && IsInt(kind)
  {
    [Little(routine, 8), IntBytes(argc), IntBytes(kind), IntBytes(if ctx.Some? then 1 else 0)]
    + if ctx.Some? then [ctx.value] else []
  }

  /** The writes of a call, one after the other. */
  ghost function RequestChunks(size: nat, q: Request): seq<Bytes>
    requires Proper(size, q)
  {
    HeaderChunks(q.routine, q.argc, q.kind, q.ctx) + ArgChunks(q.args)
  }

  lemma {:induction false} ArgChunksAt(args: seq<Bytes>, i: nat)
    requires forall i :: 0 <= i < |args| ==> IsInt(|args[i]|)
    ensures |ArgChunks(args)| == 2 * |args|
    ensures i < |args| ==> ArgChunks(args)[2 * i] == IntBytes(|args[i]|) && ArgChunks(args)[2 * i + 1] == args[i]
  {
    hide ArgChunks, IntBytes;
    ArgChunksFirst(args);
    if args != [] {
      var rest := ArgChunks(args[1..]);
      if i == 0 {
        ArgChunksAt(args[1..], 0);
      } else {
        ArgChunksAt(args[1..], i - 1);
        TwoBefore(IntBytes(|args[0]|), args[0], rest, i);
      }
    }
  }

  lemma ArgChunksFirst(args: seq<Bytes>)
    requires forall i :: 0 <= i < |args| ==> IsInt(|args[i]|)
    ensures args == [] ==> ArgChunks(args) == []
    ensures args != [] ==> ArgChunks(args) == [IntBytes(|args[0]|), args[0]] + ArgChunks(args[1..])
  {
  }

  lemma TwoBefore<T>(x: T, y: T, rest: seq<T>, i: nat)
    requires i > 0
    ensures 2 * (i - 1) + 1 < |rest| ==>
      ([x, y] + rest)[2 * i] == rest[2 * (i - 1)] && ([x, y] + rest)[2 * i + 1] == rest[2 * (i - 1) + 1]
  {
  }

  // ---------------------------------------------------------------- how the parent reads a request

  /** Which read comes next. */
  datatype Place = Routine | Argc | Kind | Have | Context | Size | Block(size: nat) | Complete | Failed

  /** What background_attention has read so far. */
  datatype Reader = Reader(place: Place, request: Request)

  const START := Reader(Routine, Request(0, 0, 0, None, []))

  /** How many bytes the next read asks for. */
  function Need(size: nat, r: Reader): nat {
    match r.place
    case Routine => 8
    case Argc => 4
    case Kind => 4
    case Have => 4
    case Context => size
    case Size => 4
    case Block(n) => n
    case Complete => 0
    case Failed => 0
  }

  /** The loop over the arguments, and its end. */
  function NextArgument(q: Request): Reader {
    Reader(if |q.args| < q.argc then Size else Complete, q)
  }

  /** After a read that got s. */
  function Feed(r: Reader, s: Bytes): Reader {
    var q := r.request;
    match r.place
    case Routine => Reader(Argc, q.(routine := Value(s)))
    case Argc => Reader(Kind, q.(argc := IntValue(s)))
    case Kind => Reader(Have, q.(kind := IntValue(s)))
    case Have => if IntValue(s) != 0 then Reader(Context, q) else NextArgument(q)
    case Context => NextArgument(q.(ctx := Some(s)))
    case Size => if IntValue(s) < 0 then Reader(Failed, q) else Reader(Block(IntValue(s)), q)
    case Block(_) => NextArgument(q.(args := q.args + [s]))
    case Complete => r
    case Failed => r
  }

  /** What the reader is like after j reads, if the writes of q are what it reads. */
  ghost function Tracked(size: nat, q: Request, j: nat): Reader
    requires Proper(size, q)
  {
    var header := HeaderLength(q);
    if j == 0 then START
    else if j == 1 then Reader(Argc, Request(q.routine, 0, 0, None, []))
    else if j == 2 then Reader(Kind, Request(q.routine, q.argc, 0, None, []))
    else if j == 3 then Reader(Have, Request(q.routine, q.argc, q.kind, None, []))
    else if j < header then Reader(Context, Request(q.routine, q.argc, q.kind, None, []))
    else
      var i := (j - header) / 2;
      if i >= |q.args| then Reader(Complete, q)
      else
        var sofar := q.(args := q.args[..i]);
        if (j - header) % 2 == 0 then Reader(Size, sofar) else Reader(Block(|q.args[i]|), sofar)
  }

  function HeaderLength(q: Request): nat { if q.ctx.Some? then 5 else 4 }

  /** The read after j reads fits the write it meets. */
  ghost predicate Fits(size: nat, q: Request, j: nat)
    requires Proper(size, q)
  {
    var chunks := RequestChunks(size, q);
    && j < |chunks|
    && Need(size, Tracked(size, q, j)) == |chunks[j]|
    && Feed(Tracked(size, q, j), chunks[j]) == Tracked(size, q, j + 1)
    && Tracked(size, q, j).place != Complete && Tracked(size, q, j).place != Failed
  }

  /** Each read of the parent asks for exactly the bytes of one write of the child, and after the last one it
      holds the request the child made. */
  lemma {:induction false} ReaderTracks(size: nat, q: Request, j: nat)
    requires Proper(size, q)
    ensures j < |RequestChunks(size, q)| ==> Fits(size, q, j)
    ensures Tracked(size, q, |RequestChunks(size, q)|) == Reader(Complete, q)
  {
    hide Fits, Tracked, RequestChunks;
    var header := HeaderLength(q);
    RequestLength(size, q);
    TrackedArgument(size, q, |q.args|);
    if j < header {
      HeaderTracks(size, q, j);
    } else if j < |RequestChunks(size, q)| {
      ArgumentTracks(size, q, (j - header) / 2);
    }
  }

  lemma RequestLength(size: nat, q: Request)
    requires Proper(size, q)
    ensures |RequestChunks(size, q)| == HeaderLength(q) + 2 * |q.args|
  {
    ArgChunksAt(q.args, 0);
  }

  lemma HeaderTracks(size: nat, q: Request, j: nat)
    requires Proper(size, q) && j < HeaderLength(q)
    ensures Fits(size, q, j)
  {
    PointerRoundTrip(q.routine);
    IntRoundTrip(q.argc);
    IntRoundTrip(q.kind);
    IntRoundTrip(0);
    IntRoundTrip(1);
    assert q.args == [] ==> q.(args := []) == q;
    assert q.args[..0] == [];
  }

  lemma TrackedArgument(size: nat, q: Request, i: nat)
    requires Proper(size, q) && i <= |q.args|
    ensures Tracked(size, q, HeaderLength(q) + 2 * i) == NextArgument(q.(args := q.args[..i]))
    ensures i < |q.args| ==>
      Tracked(size, q, HeaderLength(q) + 2 * i + 1) == Reader(Block(|q.args[i]|), q.(args := q.args[..i]))
  {
    assert (2 * i) / 2 == i && (2 * i + 1) / 2 == i && (2 * i) % 2 == 0 && (2 * i + 1) % 2 == 1;
    assert q.args[..|q.args|] == q.args;
  }

  lemma ChunkOfArgument(size: nat, q: Request, i: nat)
    requires Proper(size, q) && i < |q.args|
    ensures var j := HeaderLength(q) + 2 * i;
      var chunks := RequestChunks(size, q);
      j + 1 < |chunks| && chunks[j] == IntBytes(|q.args[i]|) && chunks[j + 1] == q.args[i]
  {
    ArgChunksAt(q.args, i);
    var header := HeaderChunks(q.routine, q.argc, q.kind, q.ctx);
    assert |header| == HeaderLength(q);
    After(header, ArgChunks(q.args), 2 * i);
    After(header, ArgChunks(q.args), 2 * i + 1);
  }

  lemma After<T>(a: seq<T>, b: seq<T>, k: nat)
    requires k < |b|
    ensures (a + b)[|a| + k] == b[k]
  {}

  lemma ArgumentTracks(size: nat, q: Request, i: nat)
    requires Proper(size, q) && i < |q.args|
    ensures Fits(size, q, HeaderLength(q) + 2 * i)
    ensures Fits(size, q, HeaderLength(q) + 2 * i + 1)
  {
    hide Tracked, RequestChunks, HeaderLength;
    ChunkOfArgument(size, q, i);
    TrackedArgument(size, q, i);
    TrackedArgument(size, q, i + 1);
    IntRoundTrip(|q.args[i]|);
    assert q.args[..i] + [q.args[i]] == q.args[..i + 1];
  }

  // ---------------------------------------------------------------- replies

  datatype Answer = Number(result: int, ctx: Option<Bytes>) | Text(text: Option<Bytes>)

  /** An answer to q: the routine's result, and the shared context if the request had one. */
  ghost predicate Answers(size: nat, q: Request, a: Answer) {
    if q.kind == RETURN_INTEGER then
      a.Number? && IsInt(a.result) && (a.ctx.Some? <==> q.ctx.Some?) && (a.ctx.Some? ==> |a.ctx.value| == size)
    else
      a.Text? && (a.text.Some? ==> IsInt(|a.text.value|))
  }

  /** The writes of a reply. NULL and the empty string are both sent as length 0. */
  ghost function ReplyChunks(size: nat, q: Request, a: Answer): seq<Bytes>
    requires Answers(size, q, a)
  {
    match a
    case Number(result, ctx) => [IntBytes(result)] + if ctx.Some? then [ctx.value] else []
    case Text(text) =>
      if text.None? || text.value == [] then [IntBytes(0)] else [IntBytes(|text.value|), text.value]
  }

  /** The answer as the child sees it. */
  function Seen(a: Answer): (r: Answer)
    ensures a == Text(Some([])) ==> r == Text(None)
    ensures a != Text(Some([])) ==> r == a
  {
    if a == Text(Some([])) then Text(None) else a
  }

  /** How far the child is with the reply. */
  datatype Receipt = AtResult | AtShared(result: int) | AtText(length: nat) | Got(answer: Answer)

  function ReplyNeed(size: nat, c: Receipt): nat {
    match c
    case AtResult => 4
    case AtShared(_) => size
    case AtText(n) => n
    case Got(_) => 0
  }

  function ReplyFeed(q: Request, c: Receipt, s: Bytes): Receipt {
    match c
    case AtResult =>
      var v := IntValue(s);
      if q.kind == RETURN_INTEGER then
        if q.ctx.Some? then AtShared(v) else Got(Number(v, None))
      else if v <= 0 then Got(Text(None)) else AtText(v)
    case AtShared(v) => Got(Number(v, Some(s)))
    case AtText(_) => Got(Text(Some(s)))
    case Got(_) => c
  }

  /** What the child is like after m reads, if the reply a to q is what it reads. */
  ghost function ReplyTracked(size: nat, q: Request, a: Answer, m: nat): Receipt
    requires Answers(size, q, a)
  {
    if m == 0 then AtResult
    else if m >= |ReplyChunks(size, q, a)| then Got(Seen(a))
    else if a.Number? then AtShared(a.result) else AtText(|a.text.value|)
  }

  /** The child reads a reply to its end, no more and no less, and has the answer then. */
  lemma ReplyTracks(size: nat, q: Request, a: Answer, m: nat)
    requires Answers(size, q, a)
    ensures var chunks := ReplyChunks(size, q, a);
      && 1 <= |chunks| <= 2
      && (m < |chunks| ==>
            && ReplyNeed(size, ReplyTracked(size, q, a, m)) == |chunks[m]|
            && ReplyFeed(q, ReplyTracked(size, q, a, m), chunks[m]) == ReplyTracked(size, q, a, m + 1)
            && !ReplyTracked(size, q, a, m).Got?)
      && ReplyTracked(size, q, a, |chunks|) == Got(if a == Text(Some([])) then Text(None) else a)
  {
    IntRoundTrip(0);
    match a
    case Number(result, _) => IntRoundTrip(result);
    case Text(text) => IntRoundTrip(if text.Some? then |text.value| else 0);
  }
}
