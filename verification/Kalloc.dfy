/**
  The physical page allocator: a linked list threaded through the free pages themselves.
  The first word of a free page holds the address of the next one; 0 ends the list.
 */
module Kalloc {

  const PGSIZE := 4096

  predicate IsPage(p: nat, lo: nat, hi: nat) {
    p % PGSIZE == 0 && lo <= p < hi
  }

  class Kmem {
    const end: nat
    const phystop: nat
    var freelist: nat
    var next: map<nat, nat>
    ghost var chain: seq<nat>   // the list in order
    ghost var pages: set<nat>   // the pages on it

    /** What freelist or the i-th page of the list holds: the address of the next one. */
    ghost function Place(i: nat): nat
      reads this
    {
      if i < |chain| then chain[i] else 0
    }

    ghost predicate Link(i: nat)
      reads this
    {
      i < |chain| ==>
        && chain[i] != 0 && chain[i] in next && next[chain[i]] == Place(i + 1)
        && chain[i] in pages && IsPage(chain[i], end, phystop)
    }

    ghost predicate Differ(i: nat, j: nat)
      reads this
    {
      i < j < |chain| ==> chain[i] != chain[j]
    }

    ghost predicate Listed(p: nat)
      reads this
    {
      p in pages ==> p in chain
    }

    /** Following the links from freelist visits every free page once and ends in 0. */
    ghost predicate Valid()
      reads this
    {
      && 0 < end && freelist == Place(0)
      && (forall i: nat {:trigger Link(i)} :: Link(i))
      && (forall i: nat, j: nat {:trigger Differ(i, j)} :: Differ(i, j))
      && (forall p: nat {:trigger Listed(p)} :: Listed(p))
    }

    constructor (end: nat, phystop: nat)
      requires 0 < end
      ensures Valid() && chain == [] && pages == {} && this.end == end && this.phystop == phystop
    {
      this.end, this.phystop := end, phystop;
      freelist, next, chain, pages := 0, map[], [], {};
    }

    /** Pushes a page; the two panics are the preconditions on it, and no page may be freed twice. */
    method Kfree(pa: nat)
      requires Valid() && IsPage(pa, end, phystop) && pa !in pages
      modifies this`freelist, this`next, this`chain, this`pages
      ensures Valid() && chain == [pa] + old(chain) && pages == old(pages) + {pa}
    {
      next := next[pa := freelist];
      freelist := pa;
      chain, pages := [pa] + chain, pages + {pa};
      forall i: nat ensures Link(i) {
        assert i > 0 ==> old(Link(i - 1));
      }
      forall i: nat, j: nat ensures Differ(i, j) {
        assert 0 < i < j ==> old(Differ(i - 1, j - 1));
        assert j > 0 ==> old(Link(j - 1));
      }
      forall p: nat ensures Listed(p) {
        assert old(Listed(p));
      }
    }

    method Kalloc() returns (r: nat)
      requires Valid()
      modifies this`freelist, this`chain, this`pages
      ensures Valid()
      ensures r == 0 <==> old(pages) == {}
      ensures r == 0 ==> chain == old(chain) == [] && pages == {}
      ensures r != 0 ==> old(chain) == [r] + chain && r in old(pages) && pages == old(pages) - {r}
    {
      r := freelist;
      assert Link(0);
      if r != 0 {
        freelist := next[r];
        chain, pages := chain[1..], pages - {r};
        forall i: nat ensures Link(i) {
          assert old(Link(i + 1)) && old(Differ(0, i + 1));
        }
        forall i: nat, j: nat ensures Differ(i, j) {
          assert old(Differ(i + 1, j + 1));
        }
        forall p: nat ensures Listed(p) {
          assert old(Listed(p));
        }
      } else {
        forall p: nat ensures p !in pages {
          assert Listed(p);
        }
      }
    }

    /** Frees exactly the whole pages between the two addresses, none of which may be free already. */
    method FreeRange(start: nat, stop: nat)
      requires Valid() && end <= start && stop <= phystop
      requires forall p :: p in pages ==> p < start || stop < p + PGSIZE
      modifies this`freelist, this`next, this`chain, this`pages
      ensures Valid()
      ensures forall p :: p in pages <==> p in old(pages) || (p % PGSIZE == 0 && start <= p && p + PGSIZE <= stop)
    {
      var p := (start + PGSIZE - 1) / PGSIZE * PGSIZE;
      ghost var first := p;
      while p + PGSIZE <= stop
        invariant Valid() && first <= p && p % PGSIZE == 0
        invariant forall q :: q in pages <==> q in old(pages) || (q % PGSIZE == 0 && first <= q < p)
        invariant p == first || p <= stop
        decreases stop - p
      {
        assert p !in old(pages);
        Kfree(p);
        assert forall q :: q % PGSIZE == 0 && p < q < p + PGSIZE ==> false;
        p := p + PGSIZE;
      }
    }
  }
}
