/**
 The block iterator: blocks of a height range, fetched in batches of fifty, with Go's wrapping uint64 arithmetic.
 `Advance` is one call of Next as a function of the iterator's fields and of the node's reply.
 */
module BlockIteration {
  import opened Common

  const U64 := 0x1_0000_0000_0000_0000
  const BATCH_SIZE: u64 := 50

  type u64 = n: int | 0 <= n < 0x1_0000_0000_0000_0000

  /** Unsigned 64-bit wrap-around of a sum or difference of two uint64 values. */
  function Wrap(n: int): u64
    requires -U64 <= n < 2 * U64
  {
    if n < 0 then n + U64 else if n >= U64 then n - U64 else n
  }

  datatype Block = Block(hash: string, height: u64)

  datatype Reply = Blocks(blocks: seq<Block>) | Failed(error: string)

  /** A node: its reply to the k-th range request, for the blocks from `start` to `end`. */
  type Node = (int, int, int) -> Reply

  datatype Iter = Iter(cur: u64, end: u64, buf: seq<Block>, bufIdx: nat, block: Option<Block>, err: Option<string>)

  function New(start: u64, end: u64): Iter {
    Iter(start, end, [], 0, None, None)
  }

  /** Whether the next call of Next sends a request. */
  predicate Asks(it: Iter) {
    it.err.None? && it.bufIdx >= |it.buf| && it.cur <= it.end
  }

  function BatchEnd(it: Iter): u64 {
    var batchEnd := Wrap(Wrap(it.cur + BATCH_SIZE) - 1);
    if batchEnd > it.end then it.end else batchEnd
  }

  function Advance(it: Iter, reply: Reply): (Iter, bool) {
    if it.err.Some? then (it, false)
    else if it.bufIdx < |it.buf| then (it.(block := Some(it.buf[it.bufIdx]), bufIdx := it.bufIdx + 1), true)
    else if it.cur > it.end then (it, false)
    else match reply
      case Failed(e) => (it.(err := Some(e)), false)
      case Blocks(blocks) =>
        if blocks == [] then (Iter(Wrap(BatchEnd(it) + 1), it.end, [], 0, it.block, None), false)
        else (Iter(Wrap(BatchEnd(it) + 1), it.end, blocks, 1, Some(blocks[0]), None), true)
  }

  /** A client of a node; `requests` records the ranges it asked for. */
  class NodeClient {
    const node: Node
    var requests: seq<(u64, u64)>

    constructor (node: Node)
      ensures this.node == node && requests == []
    {
      this.node := node;
      requests := [];
    }

    method GetBlockRange(start: u64, end: u64) returns (reply: Reply)
      modifies this
      ensures reply == node(|old(requests)|, start, end) && requests == old(requests) + [(start, end)]
    {
      reply := node(|requests|, start, end);
      requests := requests + [(start, end)];
    }
  }

  class BlockIterator {
    const client: NodeClient
    const end: u64
    const batchSize: u64
    var cur: u64
    var buf: seq<Block>
    var bufIdx: nat
    var block: Option<Block>
    var err: Option<string>

    constructor (client: NodeClient, start: u64, end: u64)
      ensures this.client == client && State() == New(start, end) && batchSize == BATCH_SIZE
    {
      this.client := client;
      this.end := end;
      batchSize := BATCH_SIZE;
      cur := start;
      buf := [];
      bufIdx := 0;
      block := None;
      err := None;
    }

    ghost function State(): Iter
      reads this
    {
      Iter(cur, end, buf, bufIdx, block, err)
    }

    method Next() returns (more: bool)
      requires batchSize == BATCH_SIZE
      modifies this, client
      ensures var it := old(State());
        && (State(), more) == Advance(it, client.node(|old(client.requests)|, it.cur, BatchEnd(it)))
        && client.requests == old(client.requests) + Sent(it)
    {
      if err.Some? {
        return false;
      }
      if bufIdx < |buf| {
        block := Some(buf[bufIdx]);
        bufIdx := bufIdx + 1;
        return true;
      }
      if cur > end {
        return false;
      }
      var batchEnd := Wrap(Wrap(cur + batchSize) - 1);
      if batchEnd > end {
        batchEnd := end;
      }
      var reply := client.GetBlockRange(cur, batchEnd);
      if reply.Failed? {
        err := Some(reply.error);
        return false;
      }
      cur := Wrap(batchEnd + 1);
      buf := reply.blocks;
      bufIdx := 0;
      if |buf| == 0 {
        return false;
      }
      block := Some(buf[bufIdx]);
      bufIdx := bufIdx + 1;
      more := true;
    }
  }

  // ---- runs

  /** The iterator between two calls of Next, and the number of requests sent so far. */
  datatype Moment = Moment(it: Iter, asked: nat)

  function Begin(start: u64, end: u64): Moment {
    Moment(New(start, end), 0)
  }

  /** The node's reply if the next call asks for one. */
  function NextReply(node: Node, p: Moment): Reply {
    node(p.asked, p.it.cur, BatchEnd(p.it))
  }

  function NextMoment(node: Node, p: Moment): Moment {
    Moment(Advance(p.it, NextReply(node, p)).0, p.asked + |Sent(p.it)|)
  }

  /** The request, the received blocks and the yielded block of one call. */
  function Sent(it: Iter): seq<(u64, u64)> {
    if Asks(it) then [(it.cur, BatchEnd(it))] else []
  }

  function Got(it: Iter, reply: Reply): seq<Block> {
    if Asks(it) && reply.Blocks? then reply.blocks else []
  }

  function Given(it: Iter, reply: Reply): seq<Block> {
    var (it', more) := Advance(it, reply);
    if more && it'.block.Some? then [it'.block.value] else []
  }

  /** After `n` calls of Next from `p`. */
  function After(node: Node, p: Moment, n: nat): Moment
    decreases n
  {
    if n == 0 then p else After(node, NextMoment(node, p), n - 1)
  }

  /** The result of the call after the first `n`. */
  predicate Result(node: Node, p: Moment, n: nat)
    decreases n
  {
    if n == 0 then Advance(p.it, NextReply(node, p)).1 else Result(node, NextMoment(node, p), n - 1)
  }

  /** The ranges requested, the blocks received and the blocks yielded by `n` calls. */
  function Requests(node: Node, p: Moment, n: nat): seq<(u64, u64)>
    decreases n
  {
    if n == 0 then [] else Sent(p.it) + Requests(node, NextMoment(node, p), n - 1)
  }

  function Received(node: Node, p: Moment, n: nat): seq<Block>
    decreases n
  {
    if n == 0 then [] else Got(p.it, NextReply(node, p)) + Received(node, NextMoment(node, p), n - 1)
  }

  function Yielded(node: Node, p: Moment, n: nat): seq<Block>
    decreases n
  {
    if n == 0 then [] else Given(p.it, NextReply(node, p)) + Yielded(node, NextMoment(node, p), n - 1)
  }

  // ---- any node

  function Unread(it: Iter): seq<Block> {
    if it.bufIdx <= |it.buf| then it.buf[it.bufIdx..] else []
  }

  lemma AdvanceLosesNothing(it: Iter, reply: Reply)
    ensures var it' := Advance(it, reply).0;
      Unread(it) + Got(it, reply) == Given(it, reply) + Unread(it')
  {
    if it.err.None? && it.bufIdx < |it.buf| {
      assert it.buf[it.bufIdx..] == [it.buf[it.bufIdx]] + it.buf[it.bufIdx + 1..];
    } else if Asks(it) && reply.Blocks? && reply.blocks != [] {
      assert reply.blocks == [reply.blocks[0]] + reply.blocks[1..];
    }
  }

  /**
   Whatever the node answers, what the calls yield, followed by what is left in the buffer, is what was in the buffer
   before, followed by the batches received: no block is lost, repeated or reordered.
   */
  lemma {:induction false} YieldsReceivedBlocks(node: Node, p: Moment, n: nat)
    ensures Unread(p.it) + Received(node, p, n) == Yielded(node, p, n) + Unread(After(node, p, n).it)
    decreases n
  {
    if n > 0 {
      var q := NextMoment(node, p);
      var got, given := Got(p.it, NextReply(node, p)), Given(p.it, NextReply(node, p));
      YieldsReceivedBlocks(node, q, n - 1);
      AdvanceLosesNothing(p.it, NextReply(node, p));
      Regroup(Unread(p.it), got, given, Unread(q.it), Received(node, q, n - 1), Yielded(node, q, n - 1),
              Unread(After(node, q, n - 1).it));
    }
  }

  lemma Regroup<T>(a: seq<T>, got: seq<T>, given: seq<T>, b: seq<T>, received: seq<T>, yielded: seq<T>, c: seq<T>)
    requires a + got == given + b && b + received == yielded + c
    ensures a + (got + received) == (given + yielded) + c
  {
    assert a + (got + received) == a + got + received;
    assert given + b + received == given + (b + received);
    assert given + (yielded + c) == given + yielded + c;
  }

  /** The blocks a fresh iterator yields are a prefix of the batches received, put end to end. */
  lemma YieldsPrefixOfBatches(node: Node, start: u64, end: u64, n: nat)
    ensures Yielded(node, Begin(start, end), n) <= Received(node, Begin(start, end), n)
  {
    var p := Begin(start, end);
    YieldsReceivedBlocks(node, p, n);
    assert Unread(p.it) + Received(node, p, n) == Received(node, p, n);
  }

  /** A failed fetch happened, or nothing is left to read. */
  predicate AtRest(it: Iter) {
    it.err.Some? || (it.bufIdx >= |it.buf| && it.cur > it.end)
  }

  /** After a failed fetch, or past the range, Next is false for ever, asks for nothing and changes nothing. */
  lemma {:induction false} RestIsSilent(node: Node, p: Moment, n: nat)
    requires AtRest(p.it)
    ensures !Result(node, p, n) && After(node, p, n) == p && Requests(node, p, n) == [] && Yielded(node, p, n) == []
    decreases n
  {
    if n > 0 {
      RestIsSilent(node, p, n - 1);
      assert NextMoment(node, p) == p;
    }
  }

  /** A fetch that fails is the last request: from then on Next is false and nothing but the error ever changes. */
  lemma FailureIsFinal(node: Node, p: Moment, n: nat)
    requires Asks(p.it) && NextReply(node, p).Failed?
    ensures !Result(node, p, n) && Requests(node, p, n + 1) == [(p.it.cur, BatchEnd(p.it))] && Yielded(node, p, n) == []
    ensures After(node, p, n + 1).it == p.it.(err := Some(NextReply(node, p).error))
  {
    RestIsSilent(node, NextMoment(node, p), n);
    if n > 0 {
      RestIsSilent(node, NextMoment(node, p), n - 1);
    }
  }

  // ---- when the arithmetic does not wrap

  /** Every batch that starts below `limit` could be fifty blocks long without its end reaching 2^64. */
  predicate Roomy(start: u64, limit: int) {
    limit <= start || start + (limit - 1 - start) / 50 * 50 + 49 < 0x1_0000_0000_0000_0000
  }

  /** Neither the end of a full-length last batch nor the height after the range overflows. */
  predicate Fits(start: u64, end: u64) {
    start > end || (end < 0xFFFF_FFFF_FFFF_FFFF && Roomy(start, end + 1))
  }

  /** The q-th batch, if it starts below `limit`. */
  predicate Room(start: u64, limit: int, q: nat) {
    start + 50 * q < limit ==> start + 50 * q + 49 < U64
  }

  lemma RoomAt(start: u64, limit: int, q: nat)
    requires Roomy(start, limit)
    ensures Room(start, limit, q)
  {
    if start + 50 * q < limit {
      var k := (limit - 1 - start) / 50;
      assert q <= k && 50 * q <= k * 50;
    }
  }

  /** The number of batches that hold the first `m` blocks of a range. */
  function BatchCount(m: nat): nat {
    (m + 49) / 50
  }

  function Min(a: int, b: int): int {
    if a <= b then a else b
  }

  function Size(start: u64, end: u64): nat {
    if start <= end then end - start + 1 else 0
  }

  /** The consecutive pieces of fifty of a range from the q-th on; the last of the range may be shorter. */
  ghost predicate Pieces(start: u64, end: u64, q: nat, requests: seq<(u64, u64)>) {
    forall j :: 0 <= j < |requests| ==>
      requests[j].0 == start + 50 * (q + j) <= end && requests[j].1 == Min(start + 50 * (q + j) + 49, end)
  }

  lemma BatchEndExact(it: Iter)
    requires it.cur <= it.end && it.cur + 49 < U64
    ensures BatchEnd(it) == Min(it.cur + 49, it.end)
  {
    if it.cur + BATCH_SIZE == U64 {
      assert Wrap(it.cur + BATCH_SIZE) == 0;
    }
  }

  /** The cursor is where the q-th piece starts, or past the range, unless a fetch failed. */
  ghost predicate OnTrack(start: u64, end: u64, q: nat, it: Iter) {
    it.end == end && (it.err.None? ==> it.cur == if start <= end then Min(start + 50 * q, end + 1) else start)
  }

  lemma AdvanceStaysOnTrack(start: u64, end: u64, q: nat, it: Iter, reply: Reply)
    requires Fits(start, end) && OnTrack(start, end, q, it)
    ensures OnTrack(start, end, q + |Sent(it)|, Advance(it, reply).0) && Pieces(start, end, q, Sent(it))
  {
    if Asks(it) {
      RoomAt(start, end + 1, q);
      BatchEndExact(it);
    }
  }

  lemma PiecesJoin(start: u64, end: u64, q: nat, a: seq<(u64, u64)>, b: seq<(u64, u64)>)
    requires Pieces(start, end, q, a) && Pieces(start, end, q + |a|, b)
    ensures Pieces(start, end, q, a + b)
  {
    forall j | 0 <= j < |a + b|
      ensures (a + b)[j].0 == start + 50 * (q + j) <= end
      ensures (a + b)[j].1 == Min(start + 50 * (q + j) + 49, end)
    {
      if j >= |a| {
        var k := j - |a|;
        assert (a + b)[j] == b[k] && q + |a| + k == q + j;
      }
    }
  }

  lemma {:induction false} RequestsArePieces(node: Node, start: u64, end: u64, q: nat, p: Moment, n: nat)
    requires Fits(start, end) && OnTrack(start, end, q, p.it)
    ensures Pieces(start, end, q, Requests(node, p, n))
    decreases n
  {
    if n > 0 {
      AdvanceStaysOnTrack(start, end, q, p.it, NextReply(node, p));
      RequestsArePieces(node, start, end, q + |Sent(p.it)|, NextMoment(node, p), n - 1);
      PiecesJoin(start, end, q, Sent(p.it), Requests(node, NextMoment(node, p), n - 1));
    }
  }

  /** Whatever the node answers, the requested batches are the consecutive pieces of the range, at most all of them. */
  lemma RequestsPartitionRange(node: Node, start: u64, end: u64, n: nat)
    requires Fits(start, end)
    ensures var requests := Requests(node, Begin(start, end), n);
      Pieces(start, end, 0, requests) && |requests| <= BatchCount(Size(start, end))
  {
    RequestsArePieces(node, start, end, 0, Begin(start, end), n);
    PiecesAreFew(start, end, Requests(node, Begin(start, end), n));
  }

  lemma PiecesAreFew(start: u64, end: u64, requests: seq<(u64, u64)>)
    requires Pieces(start, end, 0, requests)
    ensures |requests| <= BatchCount(Size(start, end))
  {
    if requests != [] {
      assert requests[|requests| - 1].0 <= end;
    }
  }

  function Remaining(it: Iter): nat {
    if it.cur <= it.end then it.end - it.cur + 1 else 0
  }

  /** Every call fails for good, finds the range exhausted, or lowers the pair (remaining range, unread buffer). */
  lemma NextMakesProgress(it: Iter, reply: Reply)
    requires it.end <= U64 - 50 && it.bufIdx <= |it.buf|
    ensures var (it', more) := Advance(it, reply);
      || it'.err.Some?
      || (it' == it && !more && AtRest(it))
      || Remaining(it') < Remaining(it)
      || (Remaining(it') == Remaining(it) && |it'.buf| - it'.bufIdx < |it.buf| - it.bufIdx)
  {
    if Asks(it) {
      BatchEndExact(it);
    }
  }

  lemma ProgressOnTrack(start: u64, end: u64, q: nat, it: Iter, reply: Reply)
    requires Fits(start, end) && OnTrack(start, end, q, it) && it.bufIdx <= |it.buf| && !AtRest(it)
    ensures var it' := Advance(it, reply).0;
      && it'.bufIdx <= |it'.buf|
      && (it'.err.Some? || Remaining(it') < Remaining(it)
          || (Remaining(it') == Remaining(it) && |it'.buf| - it'.bufIdx < |it.buf| - it.bufIdx))
  {
    if Asks(it) {
      RoomAt(start, end + 1, q);
      BatchEndExact(it);
    }
  }

  /** Whatever the node answers, however much or little, an iterator that does not overflow comes to rest. */
  lemma {:induction false} ComesToRest(node: Node, start: u64, end: u64, q: nat, p: Moment) returns (n: nat)
    requires Fits(start, end) && OnTrack(start, end, q, p.it) && p.it.bufIdx <= |p.it.buf|
    ensures AtRest(After(node, p, n).it)
    decreases Remaining(p.it), |p.it.buf| - p.it.bufIdx
  {
    if AtRest(p.it) {
      n := 0;
    } else {
      AdvanceStaysOnTrack(start, end, q, p.it, NextReply(node, p));
      ProgressOnTrack(start, end, q, p.it, NextReply(node, p));
      var next := NextMoment(node, p);
      if AtRest(next.it) {
        assert After(node, p, 1) == After(node, next, 0) == next;
        n := 1;
      } else {
        n := ComesToRest(node, start, end, q + |Sent(p.it)|, next);
        n := n + 1;
      }
    }
  }

  /** In particular every fresh iterator with end <= 2^64-50. */
  lemma SmallEndComesToRest(node: Node, start: u64, end: u64) returns (n: nat)
    requires end <= U64 - 50
    ensures AtRest(After(node, Begin(start, end), n).it)
  {
    SmallEndFits(start, end);
    n := ComesToRest(node, start, end, 0, Begin(start, end));
  }

  /**
   An empty batch makes one call false but is not remembered: the next call asks for the following range, and only if
   there is none is the iterator at rest.
   */
  lemma EmptyBatchNotSticky(node: Node, p: Moment, n: nat)
    requires Asks(p.it) && Fits(p.it.cur, p.it.end) && NextReply(node, p) == Blocks([])
    ensures !Result(node, p, 0) && After(node, p, 1).it.err.None? && After(node, p, 1).it.block == p.it.block
    ensures BatchEnd(p.it) < p.it.end ==>
      Requests(node, p, 2) == [(p.it.cur, BatchEnd(p.it)), (BatchEnd(p.it) + 1, Min(BatchEnd(p.it) + 50, p.it.end))]
    ensures BatchEnd(p.it) == p.it.end ==> !Result(node, p, n) && Requests(node, p, n + 1) == [(p.it.cur, p.it.end)]
  {
    var q := NextMoment(node, p);
    BatchEndExact(p.it);
    assert After(node, p, 1) == After(node, q, 0) == q;
    assert Requests(node, p, 2) == Sent(p.it) + (Sent(q.it) + []);
    if BatchEnd(p.it) < p.it.end {
      BatchEndExact(q.it);
    } else {
      RestIsSilent(node, q, n);
      if n > 0 {
        RestIsSilent(node, q, n - 1);
      }
    }
  }

  lemma SmallEndFits(start: u64, end: u64)
    requires end <= U64 - 50
    ensures Fits(start, end)
  {
  }

  // ---- a node that returns exactly the requested heights

  /** The blocks of `count` heights from `start` on. */
  function Heights(chain: int -> Block, start: int, count: nat): seq<Block>
    decreases count
  {
    if count == 0 then [] else [chain(start)] + Heights(chain, start + 1, count - 1)
  }

  lemma {:induction false} HeightsAt(chain: int -> Block, start: int, count: nat)
    ensures |Heights(chain, start, count)| == count
    ensures forall i :: 0 <= i < count ==> Heights(chain, start, count)[i] == chain(start + i)
    decreases count
  {
    if count > 0 {
      HeightsAt(chain, start + 1, count - 1);
    }
  }

  predicate ExactReplyTo(node: Node, chain: int -> Block, k: int, start: int, end: int) {
    if start <= end then node(k, start, end) == Blocks(Heights(chain, start, end - start + 1))
    else node(k, start, end).Failed? || node(k, start, end) == Blocks([])
  }

  /** A node that returns exactly the blocks of the requested range; a reversed range it may also refuse. */
  ghost predicate Exact(node: Node, chain: int -> Block) {
    forall k, start, end :: ExactReplyTo(node, chain, k, start, end)
  }

  /** One-by-one reading: Next is true exactly while blocks are left, and yields them in order, each once. */
  ghost predicate IteratesRange(node: Node, chain: int -> Block, start: u64, end: u64) {
    var p := Begin(start, end);
    && (forall n: nat :: Result(node, p, n) <==> n < Size(start, end))
    && (forall n: nat :: Yielded(node, p, n) == Heights(chain, start, Min(n, Size(start, end))))
  }

  /** The height after the first `q` pieces of a range. */
  function Upto(start: int, end: int, q: nat): int {
    Min(start + 50 * q, end + 1)
  }

  /** The unread part of the buffer holds the blocks from height `next` up to `upto`. */
  ghost predicate Holds(chain: int -> Block, next: int, upto: int, it: Iter) {
    && it.bufIdx <= |it.buf| && |it.buf| - it.bufIdx == upto - next
    && forall i :: it.bufIdx <= i < |it.buf| ==> it.buf[i] == chain(next + (i - it.bufIdx))
  }

  /** `next` is the height to yield next; `q` pieces were received and at least one block of the last was yielded. */
  ghost predicate InBatch(chain: int -> Block, start: u64, end: u64, q: nat, next: int, it: Iter) {
    && start <= next && start + 50 * (q - 1) < next <= Upto(start, end, q)
    && it.err.None? && it.end == end && it.cur == Wrap(Upto(start, end, q))
    && Holds(chain, next, Upto(start, end, q), it)
  }

  lemma ServeInBatch(chain: int -> Block, start: u64, end: u64, q: nat, next: int, it: Iter, reply: Reply)
    requires InBatch(chain, start, end, q, next, it) && it.bufIdx < |it.buf|
    ensures InBatch(chain, start, end, q, next + 1, Advance(it, reply).0)
    ensures Advance(it, reply).1 && Given(it, reply) == [chain(next)]
  {
  }

  lemma AskInBatch(chain: int -> Block, start: u64, end: u64, q: nat, next: int, it: Iter)
    requires InBatch(chain, start, end, q, next, it) && next <= end && Room(start, next + 1, q) && it.bufIdx == |it.buf|
    ensures it.cur == next == start + 50 * q && BatchEnd(it) == Min(next + 49, end)
  {
    assert it.cur == next == start + 50 * q;
    BatchEndExact(it);
  }

  lemma ReceiveBatch(chain: int -> Block, start: u64, end: u64, q: nat, next: int, it: Iter, blocks: seq<Block>)
    requires InBatch(chain, start, end, q, next, it) && next <= end && it.bufIdx == |it.buf|
    requires it.cur == next == start + 50 * q && BatchEnd(it) == Min(next + 49, end)
    requires |blocks| == BatchEnd(it) - next + 1 && forall i :: 0 <= i < |blocks| ==> blocks[i] == chain(next + i)
    ensures InBatch(chain, start, end, q + 1, next + 1, Advance(it, Blocks(blocks)).0)
    ensures Advance(it, Blocks(blocks)).1 && Given(it, Blocks(blocks)) == [chain(next)]
  {
  }

  lemma ExactReply(node: Node, chain: int -> Block, p: Moment)
    requires Exact(node, chain) && p.it.cur <= BatchEnd(p.it)
    ensures var reply := NextReply(node, p);
      && reply.Blocks? && |reply.blocks| == BatchEnd(p.it) - p.it.cur + 1
      && forall i :: 0 <= i < |reply.blocks| ==> reply.blocks[i] == chain(p.it.cur + i)
  {
    assert ExactReplyTo(node, chain, p.asked, p.it.cur, BatchEnd(p.it));
    HeightsAt(chain, p.it.cur, BatchEnd(p.it) - p.it.cur + 1);
  }

  /** The next call yields the block of height `next` and leaves the iterator in batch `q`. */
  ghost predicate CallYields(node: Node, chain: int -> Block, start: u64, end: u64, q: nat, next: int, p: Moment) {
    && q >= |Sent(p.it)| && InBatch(chain, start, end, q, next + 1, NextMoment(node, p).it)
    && Advance(p.it, NextReply(node, p)).1 && Given(p.it, NextReply(node, p)) == [chain(next)]
  }

  lemma ServingCall(node: Node, chain: int -> Block, start: u64, end: u64, q: nat, next: int, p: Moment)
    requires InBatch(chain, start, end, q, next, p.it) && p.it.bufIdx < |p.it.buf|
    ensures CallYields(node, chain, start, end, q, next, p)
  {
    ServeInBatch(chain, start, end, q, next, p.it, NextReply(node, p));
  }

  lemma AskingCall(node: Node, chain: int -> Block, start: u64, end: u64, q: nat, next: int, p: Moment)
    requires Exact(node, chain) && InBatch(chain, start, end, q, next, p.it) && next <= end && Room(start, next + 1, q)
    requires p.it.bufIdx == |p.it.buf|
    ensures CallYields(node, chain, start, end, q + 1, next, p)
  {
    AskInBatch(chain, start, end, q, next, p.it);
    ExactReply(node, chain, p);
    ReceiveBatch(chain, start, end, q, next, p.it, NextReply(node, p).blocks);
  }

  /** One exact call yields the next height. */
  lemma CallInBatch(node: Node, chain: int -> Block, start: u64, end: u64, q: nat, next: int, p: Moment)
    returns (q': nat)
    requires Exact(node, chain) && InBatch(chain, start, end, q, next, p.it) && next <= end && Room(start, next + 1, q)
    ensures CallYields(node, chain, start, end, q', next, p) && q' == q + |Sent(p.it)|
  {
    if p.it.bufIdx < |p.it.buf| {
      q' := q;
      ServingCall(node, chain, start, end, q, next, p);
    } else {
      q' := q + 1;
      AskingCall(node, chain, start, end, q, next, p);
    }
  }

  /** One exact call, where no batch that starts below `limit` overflows. */
  lemma NextCall(node: Node, chain: int -> Block, start: u64, end: u64, limit: int, q: nat, next: int, p: Moment)
    returns (q': nat)
    requires Exact(node, chain) && InBatch(chain, start, end, q, next, p.it) && next < limit <= end + 1
    requires Roomy(start, limit)
    ensures InBatch(chain, start, end, q', next + 1, NextMoment(node, p).it) && q' == q + |Sent(p.it)|
    ensures Advance(p.it, NextReply(node, p)).1 && Given(p.it, NextReply(node, p)) == [chain(next)]
  {
    RoomAt(start, limit, q);
    q' := CallInBatch(node, chain, start, end, q, next, p);
  }

  lemma EndOfRange(chain: int -> Block, start: u64, end: u64, q: nat, it: Iter)
    requires InBatch(chain, start, end, q, end + 1, it) && end < U64 - 1
    ensures AtRest(it)
  {
  }

  /** Past the range nothing more is yielded. */
  lemma NothingLeft(node: Node, chain: int -> Block, start: u64, end: u64, q: nat, p: Moment, n: nat)
    requires InBatch(chain, start, end, q, end + 1, p.it) && end < U64 - 1
    ensures Yielded(node, p, n) == [] && !Result(node, p, n)
  {
    EndOfRange(chain, start, end, q, p.it);
    RestIsSilent(node, p, n);
  }

  lemma YieldOne(node: Node, chain: int -> Block, p: Moment, n: nat, height: int, count: nat)
    requires n > 0 && count > 0 && Given(p.it, NextReply(node, p)) == [chain(height)]
    requires Yielded(node, NextMoment(node, p), n - 1) == Heights(chain, height + 1, count - 1)
    ensures Yielded(node, p, n) == Heights(chain, height, count)
  {
  }

  lemma InBatchBound(chain: int -> Block, start: u64, end: u64, q: nat, next: int, it: Iter)
    requires InBatch(chain, start, end, q, next, it)
    ensures next <= end + 1
  {
  }

  /** With the arithmetic exact, `n` more calls yield the next `n` blocks, as far as there are any. */
  lemma {:induction false} YieldsOnward(node: Node, chain: int -> Block, start: u64, end: u64, q: nat, next: int,
                                        p: Moment, n: nat, count: nat)
    requires Exact(node, chain) && end < U64 - 1 && InBatch(chain, start, end, q, next, p.it)
    requires Roomy(start, end + 1) && count == Min(n, end + 1 - next)
    ensures Yielded(node, p, n) == Heights(chain, next, count)
    decreases n
  {
    hide Advance, Given, BatchEnd, Roomy, Wrap;
    InBatchBound(chain, start, end, q, next, p.it);
    if next == end + 1 {
      NothingLeft(node, chain, start, end, q, p, n);
    } else if n > 0 {
      var q' := NextCall(node, chain, start, end, end + 1, q, next, p);
      YieldsOnward(node, chain, start, end, q', next + 1, NextMoment(node, p), n - 1, count - 1);
      YieldOne(node, chain, p, n, next, count);
    }
  }

  lemma {:induction false} TrueWhileBlocksLeft(node: Node, chain: int -> Block, start: u64, end: u64, q: nat, next: int,
                                               p: Moment, n: nat)
    requires Exact(node, chain) && end < U64 - 1 && InBatch(chain, start, end, q, next, p.it)
    requires Roomy(start, end + 1)
    ensures Result(node, p, n) <==> next + n <= end
    decreases n
  {
    hide Advance, BatchEnd, Given, Wrap;
    if next == end + 1 {
      NothingLeft(node, chain, start, end, q, p, n);
    } else {
      var q' := NextCall(node, chain, start, end, end + 1, q, next, p);
      if n > 0 {
        TrueWhileBlocksLeft(node, chain, start, end, q', next + 1, NextMoment(node, p), n - 1);
      }
    }
  }

  lemma RequestCount(node: Node, p: Moment, n: nat)
    requires n > 0
    ensures |Requests(node, p, n)| == |Sent(p.it)| + |Requests(node, NextMoment(node, p), n - 1)|
  {
  }

  /** The blocks up to a height `to`, one a call, if no batch end needed for them overflows. */
  lemma {:induction false} StepsThrough(node: Node, chain: int -> Block, start: u64, end: u64, to: int, q: nat,
                                        next: int, p: Moment, n: nat) returns (q': nat)
    requires Exact(node, chain) && InBatch(chain, start, end, q, next, p.it) && next + n == to <= end + 1
    requires Roomy(start, to)
    ensures InBatch(chain, start, end, q', to, After(node, p, n).it) && q' == q + |Requests(node, p, n)|
    decreases n
  {
    hide Advance, Given, BatchEnd, Roomy, Wrap;
    q' := q;
    if n > 0 {
      q' := NextCall(node, chain, start, end, to, q, next, p);
      RequestCount(node, p, n);
      q' := StepsThrough(node, chain, start, end, to, q', next + 1, NextMoment(node, p), n - 1);
    }
  }

  lemma {:induction false} ResultAfter(node: Node, p: Moment, n: nat)
    ensures var q := After(node, p, n); Result(node, p, n) == Advance(q.it, NextReply(node, q)).1
    decreases n
  {
    if n > 0 {
      ResultAfter(node, NextMoment(node, p), n - 1);
    }
  }

  /** At the start of a piece everything received so far has been yielded. */
  lemma PieceBoundary(chain: int -> Block, start: u64, end: u64, q: nat, k: nat, it: Iter)
    requires InBatch(chain, start, end, q, start + 50 * k, it) && start + 50 * k <= end
    ensures it.bufIdx == |it.buf| && it.cur == start + 50 * k
  {
    assert k == q;
  }

  lemma OverflowedBatchEnd(it: Iter)
    requires it.cur <= it.end && it.cur + 49 >= U64
    ensures BatchEnd(it) == it.cur + 49 - U64 < it.cur
  {
  }

  lemma EmptyRangeIsFalse(node: Node, chain: int -> Block, p: Moment)
    requires Exact(node, chain) && Asks(p.it) && BatchEnd(p.it) < p.it.cur
    ensures !Advance(p.it, NextReply(node, p)).1 && (NextReply(node, p).Failed? || NextReply(node, p) == Blocks([]))
  {
    assert ExactReplyTo(node, chain, p.asked, p.it.cur, BatchEnd(p.it));
  }

  lemma OverflowedBatchIsEmpty(node: Node, chain: int -> Block, start: u64, end: u64, q: nat, k: nat, p: Moment)
    requires Exact(node, chain) && InBatch(chain, start, end, q, start + 50 * k, p.it)
    requires start + 50 * k <= end && start + 50 * k + 49 >= U64
    ensures var (it', more) := Advance(p.it, NextReply(node, p));
      !more && (it'.err.Some? || it'.cur == start + 50 * k + 50 - U64)
  {
    PieceBoundary(chain, start, end, q, k, p.it);
    OverflowedBatchEnd(p.it);
    EmptyRangeIsFalse(node, chain, p);
  }

  lemma WholeBatchesHaveRoom(start: u64, end: u64, k: nat)
    requires start + 50 * k <= end
    ensures Roomy(start, start + 50 * k)
  {
    if k > 0 {
      assert 50 * k - 1 == 50 * (k - 1) + 49;
    }
  }

  lemma {:induction false} AfterNext(node: Node, p: Moment, n: nat)
    ensures After(node, p, n + 1) == NextMoment(node, After(node, p, n))
    decreases n
  {
    if n > 0 {
      AfterNext(node, NextMoment(node, p), n - 1);
    } else {
      assert After(node, p, 1) == After(node, NextMoment(node, p), 0);
    }
  }

  /**
   An overflowing batch end turns the last batch into a reversed range: Next is false where its first block is due, and
   unless the node refuses the range no error is recorded and the cursor is at a height below fifty.
   */
  lemma OverflowSkipsLastBatch(node: Node, chain: int -> Block, start: u64, end: u64, k: nat)
    requires Exact(node, chain) && start + 50 * k <= end && start + 50 * k + 49 >= U64
    ensures !Result(node, Begin(start, end), 50 * k)
    ensures var it := After(node, Begin(start, end), 50 * k + 1).it;
      it.err.Some? || it.cur == start + 50 * k + 50 - U64
  {
    hide Advance, BatchEnd, Exact;
    var p := Begin(start, end);
    WholeBatchesHaveRoom(start, end, k);
    var q := StepsThrough(node, chain, start, end, start + 50 * k, 0, start, p, 50 * k);
    ResultAfter(node, p, 50 * k);
    AfterNext(node, p, 50 * k);
    OverflowedBatchIsEmpty(node, chain, start, end, q, k, After(node, p, 50 * k));
  }

  /** At end = 2^64-1 the cursor wraps to zero: past the range the iterator starts over with the block of height 0. */
  lemma OverflowRestarts(node: Node, chain: int -> Block, start: u64, end: u64)
    requires Exact(node, chain) && start <= end && Roomy(start, end + 1) && end == 0xFFFF_FFFF_FFFF_FFFF
    ensures Result(node, Begin(start, end), Size(start, end))
    ensures After(node, Begin(start, end), Size(start, end) + 1).it.block == Some(chain(0))
  {
    var m := Size(start, end);
    var p := Begin(start, end);
    var q := StepsThrough(node, chain, start, end, end + 1, 0, start, p, m);
    ResultAfter(node, p, m);
    AfterNext(node, p, m);
    var it := After(node, p, m).it;
    assert it.cur == 0 && BatchEnd(it) == 49;
    ExactReply(node, chain, After(node, p, m));
  }

  lemma FittingRangeIsRead(node: Node, chain: int -> Block, start: u64, end: u64, n: nat)
    requires Exact(node, chain) && Fits(start, end)
    ensures Result(node, Begin(start, end), n) <==> n < Size(start, end)
    ensures Yielded(node, Begin(start, end), n) == Heights(chain, start, Min(n, Size(start, end)))
  {
    var p := Begin(start, end);
    if start > end {
      RestIsSilent(node, p, n);
    } else {
      TrueWhileBlocksLeft(node, chain, start, end, 0, start, p, n);
      YieldsOnward(node, chain, start, end, 0, start, p, n, Min(n, Size(start, end)));
    }
  }

  /** Reading a whole range takes as many requests as it has pieces of fifty, the last one shorter if need be. */
  lemma WholeRangeRequested(node: Node, chain: int -> Block, start: u64, end: u64, n: nat)
    requires Exact(node, chain) && Fits(start, end) && n >= Size(start, end)
    ensures |Requests(node, Begin(start, end), n)| == BatchCount(Size(start, end))
  {
    hide Advance, BatchEnd;
    var p := Begin(start, end);
    if start > end {
      RestIsSilent(node, p, n);
    } else {
      var size := Size(start, end);
      var q := StepsThrough(node, chain, start, end, end + 1, 0, start, p, size);
      EndOfRange(chain, start, end, q, After(node, p, size).it);
      RestIsSilent(node, After(node, p, size), n - size);
      RequestsSplit(node, p, size, n - size);
    }
  }

  lemma {:induction false} RequestsSplit(node: Node, p: Moment, m: nat, k: nat)
    ensures Requests(node, p, m + k) == Requests(node, p, m) + Requests(node, After(node, p, m), k)
    decreases m
  {
    if m > 0 {
      var q := NextMoment(node, p);
      RequestsSplit(node, q, m - 1, k);
      Prepend(Sent(p.it), Requests(node, q, m - 1 + k), Requests(node, q, m - 1), Requests(node, After(node, p, m), k));
    }
  }

  lemma UnfitRangeIsMisread(node: Node, chain: int -> Block, start: u64, end: u64)
    requires Exact(node, chain) && !Fits(start, end)
    ensures exists n: nat :: !(Result(node, Begin(start, end), n) <==> n < Size(start, end))
  {
    if !Roomy(start, end + 1) {
      var k: nat := (end - start) / 50;
      OverflowSkipsLastBatch(node, chain, start, end, k);
      assert 50 * k < Size(start, end);
    } else {
      OverflowRestarts(node, chain, start, end);
    }
  }

  /** With an exact node, the iterator is the loop over [start, end] exactly when no batch end or cursor overflows. */
  lemma IteratesRangeIff(node: Node, chain: int -> Block, start: u64, end: u64)
    requires Exact(node, chain)
    ensures IteratesRange(node, chain, start, end) <==> Fits(start, end)
  {
    if Fits(start, end) {
      forall n: nat
        ensures Result(node, Begin(start, end), n) <==> n < Size(start, end)
        ensures Yielded(node, Begin(start, end), n) == Heights(chain, start, Min(n, Size(start, end)))
      {
        FittingRangeIsRead(node, chain, start, end, n);
      }
    } else {
      UnfitRangeIsMisread(node, chain, start, end);
    }
  }
}
