/**
 The data-level stream of a multipath connection and the segments that carry pieces of it.
 */
module DataStream {
  import opened Common

  /** One data sequence number's worth of the stream: a byte, or the DATA_FIN that closes it. */
  datatype Cell = Octet(value: bv8) | DataFin

  /**
   A socket buffer on a data-level queue.  `id` stands for its address.  The end number is not stored:
   it is always the start plus the payload, plus one if the buffer closes the stream.
   */
  datatype Skb = Skb(id: nat, start: int, cells: seq<Cell>) {
    function End(): int {
      start + |cells|
    }
  }

  /** `tcp_try_coalesce(to, from)` when it succeeds. */
  function Merge(to: Skb, from: Skb): Skb {
    to.(cells := to.cells + from.cells)
  }

  /** What the sender has written so far, from its initial data sequence number on. */
  datatype Stream = Stream(base: int, cells: seq<Cell>) {
    function End(): int {
      base + |cells|
    }

    /** The cells numbered `from`, ..., `to - 1`. */
    function Slice(from: int, to: int): seq<Cell>
      requires base <= from <= to <= End()
    {
      cells[from - base..to - base]
    }
  }

  /** A non-empty segment that holds exactly the sender's cells at its own numbers. */
  ghost predicate Honest(s: Stream, k: Skb) {
    && s.base <= k.start < k.End() <= s.End()
    && k.cells == s.Slice(k.start, k.End())
  }

  ghost predicate AllHonest(s: Stream, q: seq<Skb>) {
    forall i :: 0 <= i < |q| ==> Honest(s, q[i])
  }

  lemma MergeHonest(s: Stream, a: Skb, b: Skb)
    requires Honest(s, a) && Honest(s, b) && a.End() == b.start
    ensures Honest(s, Merge(a, b)) && Merge(a, b).End() == b.End()
  {
    assert s.Slice(a.start, b.End()) == s.Slice(a.start, a.End()) + s.Slice(b.start, b.End());
  }

  /** More written by the sender leaves every honest segment honest. */
  lemma HonestAfterWrite(s: Stream, more: seq<Cell>, k: Skb)
    requires Honest(s, k)
    ensures Honest(Stream(s.base, s.cells + more), k)
  {
    var t := Stream(s.base, s.cells + more);
    assert t.Slice(k.start, k.End()) == s.Slice(k.start, k.End());
  }

  /** The number reached after the first `n` segments of a receive queue that starts at `base`. */
  function Reached(base: int, q: seq<Skb>): int {
    if q == [] then base else q[|q| - 1].End()
  }

  /** Every segment starts at or before the number reached so far and ends after it. */
  ghost predicate Chained(base: int, q: seq<Skb>) {
    q != [] ==>
      var init, last := q[..|q| - 1], q[|q| - 1];
      Chained(base, init) && last.start <= Reached(base, init) < last.End()
  }

  /**
   What a reader gets from the receive queue: of each segment, the part beyond what was already read
   (`tcp_recvmsg` skips the overlap).
   */
  function Delivered(base: int, q: seq<Skb>): seq<Cell>
    requires Chained(base, q)
  {
    if q == [] then []
    else
      var init, last := q[..|q| - 1], q[|q| - 1];
      Delivered(base, init) + last.cells[Reached(base, init) - last.start..]
  }

  lemma ChainedSnoc(base: int, q: seq<Skb>, k: Skb)
    requires Chained(base, q) && k.start <= Reached(base, q) < k.End()
    ensures Chained(base, q + [k]) && Reached(base, q + [k]) == k.End()
  {
    assert (q + [k])[..|q|] == q;
  }

  /**
   Extending the last segment by one that continues it keeps the chain: coalescing at the tail of the
   receive queue.
   */
  lemma ChainedMergeLast(base: int, q: seq<Skb>, k: Skb)
    requires Chained(base, q) && q != [] && k.start == Reached(base, q) && k.cells != []
    ensures var r := q[|q| - 1 := Merge(q[|q| - 1], k)];
            Chained(base, r) && Reached(base, r) == k.End()
  {
    var n := |q| - 1;
    var init := q[..n];
    ChainedSnoc(base, init, Merge(q[n], k));
    assert init + [Merge(q[n], k)] == q[n := Merge(q[n], k)];
  }

  lemma PrefixSplit<T>(c: seq<T>, i: nat, j: nat)
    requires i <= j <= |c|
    ensures c[..i] + c[i..j] == c[..j]
  {
  }

  lemma TailOfHonest(s: Stream, k: Skb, from: int)
    requires Honest(s, k) && k.start <= from <= k.End()
    ensures k.cells[from - k.start..] == s.Slice(from, k.End())
  {
  }

  lemma JoinSlices(s: Stream, last: Skb, r: int)
    requires Honest(s, last) && s.base <= r && last.start <= r < last.End()
    ensures s.cells[..r - s.base] + last.cells[r - last.start..] == s.cells[..last.End() - s.base]
  {
    TailOfHonest(s, last, r);
    PrefixSplit(s.cells, r - s.base, last.End() - s.base);
  }

  /**
   The stream read off a chained queue of honest segments is exactly the sender's stream up to the number
   reached: no gap, no reordering, no foreign cell.
   */
  lemma {:induction false} DeliveredIsStream(s: Stream, q: seq<Skb>)
    requires Chained(s.base, q) && AllHonest(s, q)
    ensures s.base <= Reached(s.base, q) <= s.End()
    ensures Delivered(s.base, q) == s.cells[..Reached(s.base, q) - s.base]
  {
    if q != [] {
      var init := q[..|q| - 1];
      DeliveredIsStream(s, init);
      assert Honest(s, q[|q| - 1]);
      JoinSlices(s, q[|q| - 1], Reached(s.base, init));
    }
  }
}
