/**
  The buffer cache's list: NBUF buffers and a head on one doubly linked ring kept in
  order of last release, and the two scans bget makes of it.
 */
module BufferRing {

  /** The fields of a buffer that bget and brelse look at or change. */
  datatype Buf<T> = Buf(dev: nat, blockno: nat, valid: bool, refcnt: nat, data: T)

  predicate Matches<T>(b: Buf<T>, dev: nat, blockno: nat) {
    b.dev == dev && b.blockno == blockno
  }

  /** No buffer holds the block. */
  predicate Uncached<T>(bufs: seq<Buf<T>>, dev: nat, blockno: nat) {
    forall k :: 0 <= k < |bufs| ==> !Matches(bufs[k], dev, blockno)
  }

  /** What bget's critical section does to the table when it yields buffer b. */
  predicate Got<T(==)>(bufs: seq<Buf<T>>, dev: nat, blockno: nat, b: nat, bufs': seq<Buf<T>>) {
    b < |bufs| &&
    if Matches(bufs[b], dev, blockno)
    then bufs' == bufs[b := bufs[b].(refcnt := bufs[b].refcnt + 1)]
    else
      && Uncached(bufs, dev, blockno) && bufs[b].refcnt == 0
      && bufs' == bufs[b := bufs[b].(dev := dev, blockno := blockno, valid := false, refcnt := 1)]
  }

  predicate NoDuplicates(order: seq<nat>) {
    forall i, j :: 0 <= i < j < |order| ==> order[i] != order[j]
  }

  /** next and prev run through exactly the nodes of `order`, forwards and backwards, and close up. */
  ghost predicate IsRing(next: seq<nat>, prev: seq<nat>, order: seq<nat>) {
    && |next| == |prev| && order != [] && NoDuplicates(order)
    && (forall i :: 0 <= i < |order| ==> order[i] < |next|)
    && (forall i :: 0 <= i < |order| - 1 ==> next[order[i]] == order[i + 1])
    && (forall i :: 0 < i < |order| ==> prev[order[i]] == order[i - 1])
    && next[order[|order| - 1]] == order[0] && prev[order[0]] == order[|order| - 1]
  }

  function Without(order: seq<nat>, k: nat): seq<nat>
    requires k < |order|
  {
    order[..k] + order[k + 1..]
  }

  /** A node other than the head has a neighbour on either side. */
  lemma Neighbours(next: seq<nat>, prev: seq<nat>, order: seq<nat>, k: nat)
    requires IsRing(next, prev, order) && 0 < k < |order|
    ensures prev[order[k]] == order[k - 1] != order[k]
    ensures next[order[k]] == (if k + 1 < |order| then order[k + 1] else order[0]) != order[k]
  {
    assert order[0] != order[k];
  }

  lemma UnlinkRing(next: seq<nat>, prev: seq<nat>, order: seq<nat>, k: nat)
    requires IsRing(next, prev, order) && 0 < k < |order|
    ensures var b := order[k];
            && next[b] < |next| && prev[b] < |next|
            && IsRing(next[prev[b] := next[b]], prev[next[b] := prev[b]], Without(order, k))
  {
    var b, rest := order[k], Without(order, k);
    Neighbours(next, prev, order, k);
    var next', prev' := next[prev[b] := next[b]], prev[next[b] := prev[b]];
    forall i | 0 <= i < |rest| - 1 ensures next'[rest[i]] == rest[i + 1] {
      if i < k - 1 {
        assert next[order[i]] == order[i + 1];
      } else if i > k - 1 {
        assert next[order[i + 1]] == order[i + 2];
      }
    }
    forall i | 0 < i < |rest| ensures prev'[rest[i]] == rest[i - 1] {
      if i < k {
        assert prev[order[i]] == order[i - 1];
      } else if i > k {
        assert prev[order[i + 1]] == order[i];
      }
    }
  }

  lemma InsertRing(next: seq<nat>, prev: seq<nat>, order: seq<nat>, b: nat)
    requires IsRing(next, prev, order) && b < |next| && b !in order
    ensures var head := order[0];
            var next1, prev1 := next[b := next[head]], prev[b := head];
            && next[head] < |next|
            && IsRing(next1[head := b], prev1[next[head] := b], [head, b] + order[1..])
  {
    var head := order[0];
    var order' := [head, b] + order[1..];
    assert next[head] == if |order| > 1 then order[1] else head;
    var next', prev' := next[b := next[head]][head := b], prev[b := head][next[head] := b];
    forall i | 0 <= i < |order'| - 1 ensures next'[order'[i]] == order'[i + 1] {
      if i >= 2 {
        assert next[order[i - 1]] == order[i];
      }
    }
    forall i | 0 < i < |order'| ensures prev'[order'[i]] == order'[i - 1] {
      if i > 2 {
        assert prev[order[i - 1]] == order[i - 2];
      }
    }
  }

  datatype Outcome = Found(b: nat) | NoBuffers

  class Bcache<T(0)> {
    const buf: array<Buf<T>>
    const next: array<nat>
    const prev: array<nat>
    ghost var order: seq<nat>

    /** The index that stands for bcache.head. */
    function Head(): nat
      reads this
    {
      buf.Length
    }

    ghost predicate Valid()
      reads this, buf, next, prev
    {
      && next != prev && next.Length == buf.Length + 1 == prev.Length
      && IsRing(next[..], prev[..], order) && order[0] == Head()
      && |order| == buf.Length + 1
      && forall b :: 0 <= b <= buf.Length ==> b in order
    }

    /** binit: zeroed buffers, each pushed in front of the ones before it. */
    constructor (nbuf: nat, zero: T)
      ensures Valid() && buf.Length == nbuf && fresh(buf) && fresh(next) && fresh(prev)
      ensures forall b :: 0 <= b < nbuf ==> buf[b] == Buf(0, 0, false, 0, zero)
      ensures order == [nbuf] + seq(nbuf, i requires 0 <= i < nbuf => nbuf - 1 - i)
    {
      buf := new Buf<T>[nbuf](_ => Buf(0, 0, false, 0, zero));
      next := new nat[nbuf + 1](_ => 0);
      prev := new nat[nbuf + 1](_ => 0);
      order := [nbuf];
      new;
      next[nbuf], prev[nbuf] := nbuf, nbuf;
      var b := 0;
      while b < nbuf
        invariant 0 <= b <= nbuf && buf.Length == nbuf && next != prev
        invariant next.Length == nbuf + 1 == prev.Length
        invariant order == [nbuf] + seq(b, i requires 0 <= i < b => b - 1 - i)
        invariant IsRing(next[..], prev[..], order)
        invariant forall k :: 0 <= k < nbuf ==> buf[k] == Buf(0, 0, false, 0, zero)
      {
        PushFront(b);
        b := b + 1;
      }
      forall k | 0 <= k <= nbuf ensures k in order {
        assert k == nbuf || order[nbuf - k] == k;
      }
    }

    /** The four link updates that binit and brelse share. */
    method PushFront(b: nat)
      requires next != prev && next.Length == buf.Length + 1 == prev.Length && b < next.Length
      requires IsRing(next[..], prev[..], order) && order[0] == Head() && b !in order
      modifies next, prev, this`order
      ensures IsRing(next[..], prev[..], order)
      ensures order == [Head(), b] + old(order)[1..]
    {
      InsertRing(next[..], prev[..], order, b);
      ghost var n0: seq<nat>, p0: seq<nat> := next[..], prev[..];
      next[b] := next[Head()];
      prev[b] := Head();
      prev[next[Head()]] := b;
      next[Head()] := b;
      order := [Head(), b] + order[1..];
      assert next[..] == n0[b := n0[Head()]][Head() := b];
      assert prev[..] == p0[b := Head()][n0[Head()] := b];
    }

    /** brelse's first two link updates. */
    method Unlink(b: nat, ghost k: nat)
      requires next != prev && next.Length == buf.Length + 1 == prev.Length
      requires IsRing(next[..], prev[..], order) && 0 < k < |order| && order[k] == b
      modifies next, prev, this`order
      ensures IsRing(next[..], prev[..], order) && order == Without(old(order), k)
    {
      ghost var n0: seq<nat>, p0: seq<nat> := next[..], prev[..];
      UnlinkRing(n0, p0, order, k);
      Neighbours(n0, p0, order, k);
      prev[next[b]] := prev[b];
      next[prev[b]] := next[b];
      assert next[..] == n0[p0[b] := n0[b]] && prev[..] == p0[n0[b] := p0[b]];
      order := Without(order, k);
    }

    /**
      bget's critical section. A cached block is found wherever it is on the ring; otherwise the least
      recently released buffer without references is taken over; it fails only when there is neither.
     */
    method Bget(dev: nat, blockno: nat) returns (r: Outcome)
      requires Valid()
      modifies buf
      ensures Valid()
      ensures r.Found? ==> Got(old(buf[..]), dev, blockno, r.b, buf[..])
      ensures r.Found? && !Matches(old(buf[..])[r.b], dev, blockno) ==>
                forall i, j :: 0 <= i < j < |order| && order[i] == r.b ==> old(buf[..])[order[j]].refcnt > 0
      ensures r.NoBuffers? <==>
                Uncached(old(buf[..]), dev, blockno) && forall k :: 0 <= k < buf.Length ==> old(buf[..])[k].refcnt > 0
      ensures r.NoBuffers? ==> buf[..] == old(buf[..])
    {
      ghost var bufs := buf[..];
      var b := next[Head()];
      ghost var i := 1;
      while b != Head()
        invariant 1 <= i <= |order| && b == (if i < |order| then order[i] else order[0])
        invariant buf[..] == bufs && Valid()
        invariant forall j :: 1 <= j < i ==> order[j] < |bufs| && !Matches(bufs[order[j]], dev, blockno)
        decreases |order| - i
      {
        assert order[i] != order[0];
        if buf[b].dev == dev && buf[b].blockno == blockno {
          buf[b] := buf[b].(refcnt := buf[b].refcnt + 1);
          assert buf[..] == bufs[b := bufs[b].(refcnt := bufs[b].refcnt + 1)];
          return Found(b);
        }
        b := next[b];
        i := i + 1;
      }
      assert i == |order|;
      AllOnRing(order, bufs, dev, blockno);
      b := prev[Head()];
      i := |order| - 1;
      while b != Head()
        invariant 0 <= i < |order| && b == order[i]
        invariant buf[..] == bufs && Valid()
        invariant forall j :: i < j < |order| ==> order[j] < |bufs| && bufs[order[j]].refcnt > 0
        decreases i
      {
        assert order[i] != order[0];
        if buf[b].refcnt == 0 {
          buf[b] := buf[b].(dev := dev, blockno := blockno, valid := false, refcnt := 1);
          assert buf[..] == bufs[b := bufs[b].(dev := dev, blockno := blockno, valid := false, refcnt := 1)];
          return Found(b);
        }
        b := prev[b];
        i := i - 1;
      }
      assert i == 0;
      forall k | 0 <= k < |bufs| ensures bufs[k].refcnt > 0 {
        assert k in order;
      }
      return NoBuffers;
    }

    /** brelse after the sleep-lock is released: the last reference moves the buffer to the front. */
    method Brelse(b: nat)
      requires Valid() && b < buf.Length && buf[b].refcnt > 0
      modifies buf, next, prev, this`order
      ensures Valid()
      ensures buf[..] == old(buf[..])[b := old(buf[..])[b].(refcnt := old(buf[b].refcnt) - 1)]
      ensures old(buf[b].refcnt) > 1 ==> order == old(order)
      ensures old(buf[b].refcnt) == 1 ==>
                MovedUp(old(order), b, order)
    {
      buf[b] := buf[b].(refcnt := buf[b].refcnt - 1);
      if buf[b].refcnt == 0 {
        MoveToFront(b);
      }
    }

    /** b, wherever it was, comes right after the head; the others keep their order. */
    ghost predicate MovedUp(o: seq<nat>, b: nat, o': seq<nat>)
      reads this
    {
      exists k :: 0 < k < |o| && o[k] == b && o' == [Head(), b] + Without(o, k)[1..]
    }

    /** The six link assignments of brelse. */
    method MoveToFront(b: nat)
      requires Valid() && b < buf.Length
      modifies next, prev, this`order
      ensures Valid() && buf[..] == old(buf[..])
      ensures MovedUp(old(order), b, order)
    {
      ghost var o0 := order;
      assert b in order;
      ghost var k :| 0 <= k < |order| && order[k] == b;
      Unlink(b, k);
      assert b !in order;
      PushFront(b);
      MovedToFront(o0, k);
    }
  }

  lemma MovedToFront(order: seq<nat>, k: nat)
    requires 0 < k < |order|
    ensures var order' := [order[0], order[k]] + Without(order, k)[1..];
            |order'| == |order| && forall c :: c in order ==> c in order'
  {
    var order' := [order[0], order[k]] + Without(order, k)[1..];
    forall c | c in order ensures c in order' {
      var i :| 0 <= i < |order| && order[i] == c;
      assert i == 0 || i == k || (i < k && order'[i + 1] == c) || (i > k && order'[i] == c);
    }
  }

  lemma AllOnRing<T>(order: seq<nat>, bufs: seq<Buf<T>>, dev: nat, blockno: nat)
    requires order != [] && order[0] == |bufs|
    requires forall b :: 0 <= b <= |bufs| ==> b in order
    requires forall j :: 1 <= j < |order| ==> order[j] < |bufs| && !Matches(bufs[order[j]], dev, blockno)
    ensures Uncached(bufs, dev, blockno)
  {
    forall k | 0 <= k < |bufs| ensures !Matches(bufs[k], dev, blockno) {
      assert k in order;
    }
  }
}
