/**
 * The user-level allocator: a circular list of free blocks in address order, with neighbours joined on free.
 * Addresses count header-sized units; the list's static first header lies below all memory obtained from sbrk.
 */
module Umalloc {

  const HEADER := 16
  const MIN_CORE := 4096

  // n units starting at address at, the first of them the header.
  datatype Blk = Blk(at: nat, n: nat)

  predicate InBlk(u: nat, b: Blk) { b.at <= u < b.at + b.n }

  function UnitsOf(b: Blk): set<nat> { set u: nat | u < b.at + b.n && InBlk(u, b) }

  function Units(fl: seq<Blk>): set<nat>
  {
    if fl == [] then {} else UnitsOf(fl[0]) + Units(fl[1..])
  }

  /** In address order, and never adjacent: between two free blocks there is at least one unit. */
  ghost predicate Apart(fl: seq<Blk>) {
    forall i, j :: 0 <= i < j < |fl| ==> fl[i].at + fl[i].n < fl[j].at
  }

  function After(fl: seq<Blk>, i: nat): nat
    requires i < |fl|
  {
    if i + 1 < |fl| then i + 1 else 0
  }

  ghost predicate Header(ptr: map<nat, nat>, size: map<nat, nat>, fl: seq<Blk>, i: nat)
    requires i < |fl|
  {
    && fl[i].at in ptr && ptr[fl[i].at] == fl[After(fl, i)].at
    && fl[i].at in size && size[fl[i].at] == fl[i].n
  }

  /** The headers in memory link the blocks of fl into a ring, starting from the static header, whose size is 0. */
  ghost predicate Ring(ptr: map<nat, nat>, size: map<nat, nat>, fl: seq<Blk>, base: nat) {
    && Apart(fl) && 0 < |fl| && fl[0] == Blk(base, 0)
    && (forall i :: 1 <= i < |fl| ==> 0 < fl[i].n)
    && (forall i: nat {:trigger Header(ptr, size, fl, i)} :: i < |fl| ==> Header(ptr, size, fl, i))
  }

  // ---------------------------------------------------------------- putting a block back

  predicate JoinsUp(fl: seq<Blk>, t: nat, b: Blk) { t + 1 < |fl| && b.at + b.n == fl[t + 1].at }

  predicate JoinsDown(fl: seq<Blk>, t: nat, b: Blk) { t < |fl| && fl[t].at + fl[t].n == b.at }

  /** Block b belongs directly after position t. */
  ghost predicate Slot(fl: seq<Blk>, t: nat, b: Blk) {
    && t < |fl| && fl[t].at < b.at && fl[t].at + fl[t].n <= b.at
    && (t + 1 < |fl| ==> b.at + b.n <= fl[t + 1].at)
  }

  /** The block after joining upwards, and the list beyond it. */
  function Upper(fl: seq<Blk>, t: nat, b: Blk): Blk
    requires t < |fl|
  {
    if JoinsUp(fl, t, b) then Blk(b.at, b.n + fl[t + 1].n) else b
  }

  function Rest(fl: seq<Blk>, t: nat, b: Blk): seq<Blk>
    requires t < |fl|
  {
    if JoinsUp(fl, t, b) then fl[t + 2..] else fl[t + 1..]
  }

  /** The list with b put back after position t, joined with whichever neighbours it touches. */
  function Merge(fl: seq<Blk>, t: nat, b: Blk): seq<Blk>
    requires t < |fl|
  {
    if JoinsDown(fl, t, b) then fl[..t] + [Blk(fl[t].at, fl[t].n + Upper(fl, t, b).n)] + Rest(fl, t, b)
    else fl[..t + 1] + [Upper(fl, t, b)] + Rest(fl, t, b)
  }

  lemma {:induction false} UnitsAppend(a: seq<Blk>, b: seq<Blk>)
    ensures Units(a + b) == Units(a) + Units(b)
  {
    if a == [] {
      assert a + b == b;
    } else {
      UnitsAppend(a[1..], b);
      assert (a + b)[1..] == a[1..] + b;
    }
  }

  lemma UnitsOne(b: Blk)
    ensures Units([b]) == UnitsOf(b)
  {
    assert [b][1..] == [];
  }

  lemma {:induction false} UnitsIn(fl: seq<Blk>, i: nat)
    requires i < |fl|
    ensures UnitsOf(fl[i]) <= Units(fl)
  {
    if i > 0 {
      UnitsIn(fl[1..], i - 1);
    }
  }

  lemma UnitsSplit(fl: seq<Blk>, i: nat)
    requires i < |fl|
    ensures Units(fl) == Units(fl[..i]) + UnitsOf(fl[i]) + Units(fl[i + 1..])
  {
    assert fl == fl[..i] + ([fl[i]] + fl[i + 1..]);
    UnitsAppend(fl[..i], [fl[i]] + fl[i + 1..]);
    UnitsAppend([fl[i]], fl[i + 1..]);
    UnitsOne(fl[i]);
  }

  lemma UnitsThree(a: seq<Blk>, b: Blk, c: seq<Blk>)
    ensures Units(a + [b] + c) == Units(a) + UnitsOf(b) + Units(c)
  {
    UnitsAppend(a + [b], c);
    UnitsAppend(a, [b]);
    UnitsOne(b);
  }

  lemma UnitsJoin(a: Blk, b: Blk)
    requires a.at + a.n == b.at
    ensures UnitsOf(Blk(a.at, a.n + b.n)) == UnitsOf(a) + UnitsOf(b)
  {}

  lemma UpperUnits(fl: seq<Blk>, t: nat, b: Blk)
    requires t < |fl|
    ensures UnitsOf(Upper(fl, t, b)) + Units(Rest(fl, t, b)) == UnitsOf(b) + Units(fl[t + 1..])
  {
    if JoinsUp(fl, t, b) {
      UnitsJoin(b, fl[t + 1]);
      assert fl[t + 1..][1..] == fl[t + 2..];
    }
  }

  lemma MergeUnitsDown(fl: seq<Blk>, t: nat, b: Blk)
    requires t < |fl| && JoinsDown(fl, t, b)
    ensures Units(Merge(fl, t, b)) == Units(fl[..t]) + UnitsOf(fl[t]) + UnitsOf(Upper(fl, t, b)) + Units(Rest(fl, t, b))
  {
    var up, rest := Upper(fl, t, b), Rest(fl, t, b);
    UnitsJoin(fl[t], up);
    UnitsThree(fl[..t], Blk(fl[t].at, fl[t].n + up.n), rest);
  }

  lemma MergeUnitsApart(fl: seq<Blk>, t: nat, b: Blk)
    requires t < |fl| && !JoinsDown(fl, t, b)
    ensures Units(Merge(fl, t, b)) == Units(fl[..t]) + UnitsOf(fl[t]) + UnitsOf(Upper(fl, t, b)) + Units(Rest(fl, t, b))
  {
    var a, x := fl[..t], fl[t];
    UnitsThree(fl[..t + 1], Upper(fl, t, b), Rest(fl, t, b));
    assert fl[..t + 1] == a + [x];
    UnitsAppend(a, [x]);
    UnitsOne(x);
  }

  /** Putting a block back adds exactly its units. */
  lemma MergeUnits(fl: seq<Blk>, t: nat, b: Blk)
    requires t < |fl|
    ensures Units(Merge(fl, t, b)) == Units(fl) + UnitsOf(b)
  {
    UnitsSplit(fl, t);
    UpperUnits(fl, t, b);
    if JoinsDown(fl, t, b) {
      MergeUnitsDown(fl, t, b);
    } else {
      MergeUnitsApart(fl, t, b);
    }
  }

  lemma ApartThree(a: seq<Blk>, x: Blk, c: seq<Blk>)
    requires Apart(a) && Apart(c)
    requires forall i :: 0 <= i < |a| ==> a[i].at + a[i].n < x.at
    requires forall j :: 0 <= j < |c| ==> x.at + x.n < c[j].at
    ensures Apart(a + [x] + c)
  {
    var m := a + [x] + c;
    forall i, j | 0 <= i < j < |m|
      ensures m[i].at + m[i].n < m[j].at
    {
      assert m[i] == if i < |a| then a[i] else if i == |a| then x else c[i - |a| - 1];
      assert m[j] == if j < |a| then a[j] else if j == |a| then x else c[j - |a| - 1];
    }
  }

  lemma RestBeyond(fl: seq<Blk>, t: nat, b: Blk)
    requires Slot(fl, t, b) && Apart(fl)
    ensures var up, rest := Upper(fl, t, b), Rest(fl, t, b);
            Apart(rest) && forall j :: 0 <= j < |rest| ==> up.at + up.n < rest[j].at
  {}

  /** The joined list is again in address order with no two blocks adjacent. */
  lemma MergeApart(fl: seq<Blk>, t: nat, b: Blk)
    requires Slot(fl, t, b) && Apart(fl)
    ensures Apart(Merge(fl, t, b))
  {
    var up, rest := Upper(fl, t, b), Rest(fl, t, b);
    RestBeyond(fl, t, b);
    if JoinsDown(fl, t, b) {
      ApartThree(fl[..t], Blk(fl[t].at, fl[t].n + up.n), rest);
    } else {
      ApartThree(fl[..t + 1], up, rest);
    }
  }

  // ---------------------------------------------------------------- the state

  /** Which live block, if any, a unit belongs to. */
  ghost predicate Live(size: map<nat, nat>, live: set<Blk>, owner: map<nat, Blk>, b: Blk) {
    b in live ==>
      && 0 < b.n && b.at in size && size[b.at] == b.n
      && forall u: nat {:trigger InBlk(u, b)} :: InBlk(u, b) ==> u in owner && owner[u] == b
  }

  ghost predicate Owned(live: set<Blk>, owner: map<nat, Blk>, u: nat) {
    u in owner ==> owner[u] in live && InBlk(u, owner[u])
  }

  /**
   * The memory obtained from sbrk, core, is divided between the free list and the live blocks: every unit is in the one
   * or the other, and in one live block only.
   */
  ghost predicate Divided(size: map<nat, nat>, fl: seq<Blk>, live: set<Blk>, owner: map<nat, Blk>, core: set<nat>) {
    && Units(fl) !! owner.Keys && Units(fl) + owner.Keys == core
    && (forall b {:trigger Live(size, live, owner, b)} :: Live(size, live, owner, b))
    && (forall u: nat {:trigger Owned(live, owner, u)} :: Owned(live, owner, u))
  }

  /** The last position whose block starts below address a. */
  lemma {:induction false} Place(fl: seq<Blk>, a: nat) returns (t: nat)
    requires Apart(fl) && 0 < |fl| && fl[0].at < a
    ensures t < |fl| && fl[t].at < a && (t + 1 < |fl| ==> a <= fl[t + 1].at)
  {
    t := 0;
    while t + 1 < |fl| && fl[t + 1].at < a
      invariant t < |fl| && fl[t].at < a
    {
      t := t + 1;
    }
  }

  lemma DisjointBlocks(a: Blk, b: Blk)
    requires UnitsOf(a) !! UnitsOf(b) && 0 < a.n && 0 < b.n
    ensures a.at + a.n <= b.at || b.at + b.n <= a.at
  {
    var u := if a.at <= b.at then b.at else a.at;
    assert u in UnitsOf(a) <==> InBlk(u, a);
    assert u in UnitsOf(b) <==> InBlk(u, b);
  }

  /** A block disjoint from the free list fits between the neighbours that its address puts it between. */
  lemma FitsThere(fl: seq<Blk>, t: nat, b: Blk)
    requires t < |fl| && fl[t].at < b.at && (t + 1 < |fl| ==> b.at <= fl[t + 1].at)
    requires 0 < b.n && Units(fl) !! UnitsOf(b) && (forall i :: 1 <= i < |fl| ==> 0 < fl[i].n)
    ensures Slot(fl, t, b)
  {
    UnitsIn(fl, t);
    if 0 < fl[t].n {
      DisjointBlocks(fl[t], b);
    }
    if t + 1 < |fl| {
      UnitsIn(fl, t + 1);
      DisjointBlocks(b, fl[t + 1]);
    }
  }

  function Joins(fl: seq<Blk>, t: nat, b: Blk): nat
  {
    (if JoinsDown(fl, t, b) then 1 else 0) + (if JoinsUp(fl, t, b) then 1 else 0)
  }

  /** What stands at position i of the merged list m. */
  ghost predicate Shaped(m: seq<Blk>, fl: seq<Blk>, t: nat, b: Blk, i: nat)
    requires t < |fl|
  {
    && |m| == |fl| + 1 - Joins(fl, t, b) && i < |m|
    && (i < t ==> m[i] == fl[i])
    && (i == t ==> m[i] == Blk(fl[t].at, if JoinsDown(fl, t, b) then fl[t].n + Upper(fl, t, b).n else fl[t].n))
    && (i == t + 1 && !JoinsDown(fl, t, b) ==> m[i] == Upper(fl, t, b))
    && (i > t + (if JoinsDown(fl, t, b) then 0 else 1) ==> m[i] == fl[i - 1 + Joins(fl, t, b)])
  }

  lemma MergeShape(fl: seq<Blk>, t: nat, b: Blk, i: nat)
    requires t < |fl| && i < |Merge(fl, t, b)|
    ensures Shaped(Merge(fl, t, b), fl, t, b, i)
  {}

  // The two maps after the assignments of free, block b going after the header at p.
  function PutPtr(ptr: map<nat, nat>, size: map<nat, nat>, p: nat, b: Blk): map<nat, nat>
    requires p in ptr && p in size && (b.at + b.n == ptr[p] ==> ptr[p] in ptr)
  {
    var up := if b.at + b.n == ptr[p] then ptr[ptr[p]] else ptr[p];
    if p + size[p] == b.at then ptr[b.at := up][p := up] else ptr[b.at := up][p := b.at]
  }

  function PutSize(ptr: map<nat, nat>, size: map<nat, nat>, p: nat, b: Blk): map<nat, nat>
    requires p in ptr && p in size && (b.at + b.n == ptr[p] ==> ptr[p] in size)
  {
    var up := if b.at + b.n == ptr[p] then b.n + size[ptr[p]] else b.n;
    if p + size[p] == b.at then size[b.at := up][p := size[p] + up] else size[b.at := up]
  }

  ghost predicate CanPut(ptr: map<nat, nat>, size: map<nat, nat>, fl: seq<Blk>, t: nat, b: Blk)
    requires t < |fl|
  {
    Header(ptr, size, fl, t) && (b.at + b.n == ptr[fl[t].at] ==> ptr[fl[t].at] in ptr && ptr[fl[t].at] in size)
  }

  lemma NextHeader(ptr: map<nat, nat>, size: map<nat, nat>, fl: seq<Blk>, base: nat, t: nat, b: Blk)
    requires Ring(ptr, size, fl, base) && Slot(fl, t, b) && 0 < b.n
    ensures Header(ptr, size, fl, t) && var p := fl[t].at;
      && (b.at + b.n == ptr[p] <==> JoinsUp(fl, t, b))
      && (JoinsUp(fl, t, b) ==> Header(ptr, size, fl, t + 1))
  {
    assert Header(ptr, size, fl, t);
    if t + 1 < |fl| {
      assert Header(ptr, size, fl, t + 1);
    }
  }

  lemma HeaderBelow(ptr: map<nat, nat>, size: map<nat, nat>, fl: seq<Blk>, base: nat, t: nat, b: Blk, i: nat,
                    m: seq<Blk>)
    requires Ring(ptr, size, fl, base) && Slot(fl, t, b) && 0 < b.n && CanPut(ptr, size, fl, t, b)
    requires i < t && Shaped(m, fl, t, b, i) && Shaped(m, fl, t, b, After(m, i))
    ensures Header(PutPtr(ptr, size, fl[t].at, b), PutSize(ptr, size, fl[t].at, b), m, i)
  {
    assert Header(ptr, size, fl, i);
  }

  lemma HeaderAt(ptr: map<nat, nat>, size: map<nat, nat>, fl: seq<Blk>, base: nat, t: nat, b: Blk, i: nat, m: seq<Blk>)
    requires Ring(ptr, size, fl, base) && Slot(fl, t, b) && 0 < b.n && CanPut(ptr, size, fl, t, b)
    requires t <= i <= t + (if JoinsDown(fl, t, b) then 0 else 1) && Shaped(m, fl, t, b, i)
    requires Shaped(m, fl, t, b, After(m, i))
    ensures Header(PutPtr(ptr, size, fl[t].at, b), PutSize(ptr, size, fl[t].at, b), m, i)
  {
    NextHeader(ptr, size, fl, base, t, b);
  }

  lemma HeaderAbove(ptr: map<nat, nat>, size: map<nat, nat>, fl: seq<Blk>, base: nat, t: nat, b: Blk, i: nat,
                    m: seq<Blk>)
    requires Ring(ptr, size, fl, base) && Slot(fl, t, b) && 0 < b.n && CanPut(ptr, size, fl, t, b)
    requires i > t + (if JoinsDown(fl, t, b) then 0 else 1) && Shaped(m, fl, t, b, i)
    requires Shaped(m, fl, t, b, After(m, i))
    ensures Header(PutPtr(ptr, size, fl[t].at, b), PutSize(ptr, size, fl[t].at, b), m, i)
  {
    assert Header(ptr, size, fl, i - 1 + Joins(fl, t, b));
  }

  /** After those assignments the headers in memory link exactly the merged list. */
  lemma MergeRing(ptr: map<nat, nat>, size: map<nat, nat>, fl: seq<Blk>, base: nat, t: nat, b: Blk)
    requires Ring(ptr, size, fl, base) && Slot(fl, t, b) && 0 < b.n && base < b.at
    ensures CanPut(ptr, size, fl, t, b)
    ensures Ring(PutPtr(ptr, size, fl[t].at, b), PutSize(ptr, size, fl[t].at, b), Merge(fl, t, b), base)
  {
    var m := Merge(fl, t, b);
    NextHeader(ptr, size, fl, base, t, b);
    MergeApart(fl, t, b);
    forall i: nat | i < |m|
      ensures Header(PutPtr(ptr, size, fl[t].at, b), PutSize(ptr, size, fl[t].at, b), m, i)
    {
      MergeShape(fl, t, b, i);
      MergeShape(fl, t, b, After(m, i));
      if i < t {
        HeaderBelow(ptr, size, fl, base, t, b, i, m);
      } else if i <= t + (if JoinsDown(fl, t, b) then 0 else 1) {
        HeaderAt(ptr, size, fl, base, t, b, i, m);
      } else {
        HeaderAbove(ptr, size, fl, base, t, b, i, m);
      }
    }
    forall i: nat | i < |m|
      ensures (1 <= i ==> 0 < m[i].n) && (i == 0 ==> m[i] == Blk(base, 0))
    {
      MergeShape(fl, t, b, i);
    }
  }

  /** A live block returned to the list leaves the division of core. */
  lemma DividedAfterFree(size: map<nat, nat>, fl: seq<Blk>, live: set<Blk>, owner: map<nat, Blk>, core: set<nat>,
                         b: Blk, size': map<nat, nat>, fl': seq<Blk>)
    requires Divided(size, fl, live, owner, core) && b in live
    requires Units(fl') == Units(fl) + UnitsOf(b)
    requires forall x :: x in live && x != b ==> x.at in size' && size'[x.at] == x.n
    ensures UnitsOf(b) <= owner.Keys
    ensures Divided(size', fl', live - {b}, owner - UnitsOf(b), core)
  {
    assert Live(size, live, owner, b);
    forall u | u in UnitsOf(b)
      ensures u in owner && owner[u] == b
    {
      assert InBlk(u, b);
    }
    var live', owner' := live - {b}, owner - UnitsOf(b);
    forall x
      ensures Live(size', live', owner', x)
    {
      assert Live(size, live, owner, x);
    }
    forall u: nat
      ensures Owned(live', owner', u)
    {
      assert Owned(live, owner, u);
      assert u in UnitsOf(b) <==> InBlk(u, b);
    }
  }

  /** A live block's header is none of the free list's headers. */
  lemma LiveApart(ptr: map<nat, nat>, size: map<nat, nat>, fl: seq<Blk>, live: set<Blk>, owner: map<nat, Blk>,
                  core: set<nat>, base: nat, x: Blk, t: nat)
    requires Divided(size, fl, live, owner, core) && Ring(ptr, size, fl, base) && x in live && t < |fl|
    requires forall u :: u in core ==> base < u
    ensures x.at != fl[t].at && base < x.at && UnitsOf(x) !! Units(fl)
  {
    assert Live(size, live, owner, x);
    assert InBlk(x.at, x);
    UnitsIn(fl, t);
    assert x.at in UnitsOf(fl[t]) <==> InBlk(x.at, fl[t]);
    forall u | u in UnitsOf(x)
      ensures u in owner
    {
      assert InBlk(u, x);
    }
  }

  /** So writing the header of block b and one header of the list leaves every other live block's header alone. */
  lemma HeadersKept(ptr: map<nat, nat>, size: map<nat, nat>, fl: seq<Blk>, live: set<Blk>, owner: map<nat, Blk>,
                    core: set<nat>, base: nat, b: Blk, t: nat)
    requires Divided(size, fl, live, owner, core) && Ring(ptr, size, fl, base) && t < |fl|
    requires (b in live || b.at !in core)
    requires forall u :: u in core ==> base < u
    ensures forall x :: x in live && x != b ==> x.at != b.at && x.at != fl[t].at && x.at in size && size[x.at] == x.n
  {
    forall x | x in live && x != b
      ensures x.at != b.at && x.at != fl[t].at && x.at in size && size[x.at] == x.n
    {
      LiveApart(ptr, size, fl, live, owner, core, base, x, t);
      assert Live(size, live, owner, x) && Live(size, live, owner, b);
      assert InBlk(x.at, x);
      assert b in live ==> InBlk(b.at, b);
    }
  }

  /** Where free puts block b, and all that follows from putting it there. */
  lemma Putting(ptr: map<nat, nat>, size: map<nat, nat>, fl: seq<Blk>, base: nat, b: Blk) returns (t: nat)
    requires 0 < base && Ring(ptr, size, fl, base)
    requires base < b.at && 0 < b.n && Units(fl) !! UnitsOf(b)
    ensures Slot(fl, t, b) && (t + 1 < |fl| ==> b.at < fl[t + 1].at) && CanPut(ptr, size, fl, t, b) && 0 < fl[t].at
    ensures Ring(PutPtr(ptr, size, fl[t].at, b), PutSize(ptr, size, fl[t].at, b), Merge(fl, t, b), base)
    ensures Units(Merge(fl, t, b)) == Units(fl) + UnitsOf(b)
    ensures t < |Merge(fl, t, b)| && Merge(fl, t, b)[t].at == fl[t].at
    ensures b.at + b.n == ptr[fl[t].at] ==> ptr[fl[t].at] != b.at
  {
    t := Place(fl, b.at);
    assert t > 0 ==> fl[0].at + fl[0].n < fl[t].at;
    FitsThere(fl, t, b);
    MergeRing(ptr, size, fl, base, t, b);
    MergeUnits(fl, t, b);
    MergeShape(fl, t, b, t);
    NextHeader(ptr, size, fl, base, t, b);
  }

  // ---------------------------------------------------------------- taking a block

  lemma {:induction false} UnitsWhere(fl: seq<Blk>, u: nat) returns (i: nat)
    requires u in Units(fl)
    ensures i < |fl| && InBlk(u, fl[i])
  {
    if u in UnitsOf(fl[0]) {
      i := 0;
    } else {
      i := UnitsWhere(fl[1..], u);
      i := i + 1;
    }
  }

  /** Taking nunits from the upper end of block k, or all of it. */
  function Taken(fl: seq<Blk>, k: nat, nunits: nat): seq<Blk>
    requires k < |fl| && nunits <= fl[k].n
  {
    if fl[k].n == nunits then fl[..k] + fl[k + 1..] else fl[k := Blk(fl[k].at, fl[k].n - nunits)]
  }

  function Piece(fl: seq<Blk>, k: nat, nunits: nat): Blk
    requires k < |fl| && nunits <= fl[k].n
  {
    Blk(fl[k].at + (fl[k].n - nunits), nunits)
  }

  lemma OthersDisjoint(fl: seq<Blk>, k: nat)
    requires k < |fl| && Apart(fl)
    ensures UnitsOf(fl[k]) !! Units(fl[..k]) && UnitsOf(fl[k]) !! Units(fl[k + 1..])
  {
    forall u | u in UnitsOf(fl[k])
      ensures u !in Units(fl[..k]) && u !in Units(fl[k + 1..])
    {
      assert InBlk(u, fl[k]);
      if u in Units(fl[..k]) {
        var i := UnitsWhere(fl[..k], u);
      }
      if u in Units(fl[k + 1..]) {
        var i := UnitsWhere(fl[k + 1..], u);
      }
    }
  }

  lemma WithoutUnits(fl: seq<Blk>, k: nat)
    requires k < |fl| && Apart(fl)
    ensures Units(fl[..k] + fl[k + 1..]) + UnitsOf(fl[k]) == Units(fl) && Units(fl[..k] + fl[k + 1..]) !! UnitsOf(fl[k])
  {
    UnitsSplit(fl, k);
    OthersDisjoint(fl, k);
    UnitsAppend(fl[..k], fl[k + 1..]);
  }

  lemma ShrunkUnits(fl: seq<Blk>, k: nat, low: Blk)
    requires k < |fl|
    ensures Units(fl[k := low]) == Units(fl[..k] + fl[k + 1..]) + UnitsOf(low)
  {
    assert fl[k := low] == fl[..k] + [low] + fl[k + 1..];
    UnitsThree(fl[..k], low, fl[k + 1..]);
    UnitsAppend(fl[..k], fl[k + 1..]);
  }

  lemma PieceUnits(b: Blk, low: Blk, piece: Blk)
    requires low.at == b.at && low.at + low.n == piece.at && piece.at + piece.n == b.at + b.n
    ensures UnitsOf(b) == UnitsOf(low) + UnitsOf(piece) && UnitsOf(low) !! UnitsOf(piece)
  {
    UnitsJoin(low, piece);
  }

  lemma SplitSets(all: set<nat>, rest: set<nat>, whole: set<nat>, low: set<nat>, piece: set<nat>)
    requires rest + whole == all && rest !! whole && whole == low + piece && low !! piece
    ensures (rest + low) + piece == all && (rest + low) !! piece
  {}

  /** malloc takes the upper part of a larger block. */
  lemma PartTakenUnits(fl: seq<Blk>, k: nat, low: Blk, piece: Blk)
    requires k < |fl| && Apart(fl)
    requires low.at == fl[k].at && low.at + low.n == piece.at && piece.at + piece.n == fl[k].at + fl[k].n
    ensures Units(fl[k := low]) + UnitsOf(piece) == Units(fl) && Units(fl[k := low]) !! UnitsOf(piece)
  {
    WithoutUnits(fl, k);
    ShrunkUnits(fl, k, low);
    PieceUnits(fl[k], low, piece);
    SplitSets(Units(fl), Units(fl[..k] + fl[k + 1..]), UnitsOf(fl[k]), UnitsOf(low), UnitsOf(piece));
  }

  lemma TakenUnits(fl: seq<Blk>, k: nat, nunits: nat)
    requires k < |fl| && nunits <= fl[k].n && Apart(fl)
    ensures Units(Taken(fl, k, nunits)) + UnitsOf(Piece(fl, k, nunits)) == Units(fl)
    ensures Units(Taken(fl, k, nunits)) !! UnitsOf(Piece(fl, k, nunits))
  {
    if fl[k].n == nunits {
      assert Piece(fl, k, nunits) == fl[k];
      WithoutUnits(fl, k);
    } else {
      PartTakenUnits(fl, k, Blk(fl[k].at, fl[k].n - nunits), Piece(fl, k, nunits));
    }
  }

  // The two maps after the assignments of malloc.
  function TakePtr(ptr: map<nat, nat>, fl: seq<Blk>, k: nat, nunits: nat): map<nat, nat>
    requires 0 < k < |fl| && fl[k].at in ptr
  {
    if fl[k].n == nunits then ptr[fl[k - 1].at := ptr[fl[k].at]] else ptr
  }

  function TakeSize(size: map<nat, nat>, fl: seq<Blk>, k: nat, nunits: nat): map<nat, nat>
    requires k < |fl| && nunits <= fl[k].n
  {
    if fl[k].n == nunits then size
    else size[fl[k].at := fl[k].n - nunits][Piece(fl, k, nunits).at := nunits]
  }

  lemma RemovedHeader(ptr: map<nat, nat>, size: map<nat, nat>, fl: seq<Blk>, base: nat, k: nat, i: nat, m: seq<Blk>)
    requires Ring(ptr, size, fl, base) && 0 < k < |fl| && m == fl[..k] + fl[k + 1..] && i < |m| && fl[k].at in ptr
    ensures Header(ptr[fl[k - 1].at := ptr[fl[k].at]], size, m, i)
  {
    var j := if i >= k then i + 1 else i;
    assert Header(ptr, size, fl, j) && Header(ptr, size, fl, k);
    assert m[i] == fl[j];
    assert m[After(m, i)] == if i == k - 1 then fl[After(fl, k)] else fl[After(fl, j)];
  }

  lemma ShrunkHeader(ptr: map<nat, nat>, size: map<nat, nat>, fl: seq<Blk>, base: nat, k: nat, n: nat, a: nat, v: nat,
                     i: nat)
    requires Ring(ptr, size, fl, base) && 0 < k < |fl| && 0 < n < fl[k].n && fl[k].at < a < fl[k].at + fl[k].n
    requires i < |fl|
    ensures Header(ptr, size[fl[k].at := n][a := v], fl[k := Blk(fl[k].at, n)], i)
  {
    assert Header(ptr, size, fl, i);
  }

  lemma RemovedRing(ptr: map<nat, nat>, size: map<nat, nat>, fl: seq<Blk>, base: nat, k: nat)
    requires Ring(ptr, size, fl, base) && 0 < k < |fl|
    ensures Header(ptr, size, fl, k) && Ring(ptr[fl[k - 1].at := ptr[fl[k].at]], size, fl[..k] + fl[k + 1..], base)
  {
    assert Header(ptr, size, fl, k);
    var m, ptr' := fl[..k] + fl[k + 1..], ptr[fl[k - 1].at := ptr[fl[k].at]];
    forall i: nat | i < |m|
      ensures Header(ptr', size, m, i)
    {
      RemovedHeader(ptr, size, fl, base, k, i, m);
    }
    assert forall i :: 0 <= i < |m| ==> m[i] == fl[if i >= k then i + 1 else i];
  }

  lemma ShrunkRing(ptr: map<nat, nat>, size: map<nat, nat>, fl: seq<Blk>, base: nat, k: nat, n: nat, a: nat, v: nat)
    requires Ring(ptr, size, fl, base) && 0 < k < |fl| && 0 < n < fl[k].n && fl[k].at < a < fl[k].at + fl[k].n
    ensures Ring(ptr, size[fl[k].at := n][a := v], fl[k := Blk(fl[k].at, n)], base)
  {
    var m, size' := fl[k := Blk(fl[k].at, n)], size[fl[k].at := n][a := v];
    forall i: nat | i < |m|
      ensures Header(ptr, size', m, i)
    {
      ShrunkHeader(ptr, size, fl, base, k, n, a, v, i);
    }
  }

  /** After the assignments the headers in memory link exactly what is left. */
  lemma TakenRing(ptr: map<nat, nat>, size: map<nat, nat>, fl: seq<Blk>, base: nat, k: nat, nunits: nat)
    requires Ring(ptr, size, fl, base) && 0 < k < |fl| && 0 < nunits <= fl[k].n
    ensures Header(ptr, size, fl, k)
    ensures Ring(TakePtr(ptr, fl, k, nunits), TakeSize(size, fl, k, nunits), Taken(fl, k, nunits), base)
  {
    if fl[k].n == nunits {
      RemovedRing(ptr, size, fl, base, k);
    } else {
      assert Header(ptr, size, fl, k);
      ShrunkRing(ptr, size, fl, base, k, fl[k].n - nunits, Piece(fl, k, nunits).at, nunits);
    }
  }

  /** The piece taken joins the live blocks. */
  lemma DividedAfterTake(size: map<nat, nat>, fl: seq<Blk>, live: set<Blk>, owner: map<nat, Blk>, core: set<nat>,
                         b: Blk, size': map<nat, nat>, fl': seq<Blk>)
    requires Divided(size, fl, live, owner, core) && 0 < b.n
    requires Units(fl') + UnitsOf(b) == Units(fl) && Units(fl') !! UnitsOf(b)
    requires b.at in size' && size'[b.at] == b.n
    requires forall x :: x in live ==> x.at in size' && size'[x.at] == x.n
    ensures b !in live
    ensures Divided(size', fl', live + {b}, owner + map u | u in UnitsOf(b) :: b, core)
  {
    var live', owner' := live + {b}, owner + map u | u in UnitsOf(b) :: b;
    assert Live(size, live, owner, b);
    assert InBlk(b.at, b) && b.at in UnitsOf(b);
    assert owner'.Keys == owner.Keys + UnitsOf(b);
    forall x
      ensures Live(size', live', owner', x)
    {
      assert Live(size, live, owner, x);
      forall u: nat | InBlk(u, x) && x in live'
        ensures u in owner' && owner'[u] == x
      {
        assert u in UnitsOf(b) <==> InBlk(u, b);
      }
    }
    forall u: nat
      ensures Owned(live', owner', u)
    {
      assert Owned(live, owner, u);
      assert u in UnitsOf(b) <==> InBlk(u, b);
    }
  }

  /** Memory at or above the break is nobody's yet. */
  lemma FreshBlock(ptr: map<nat, nat>, size: map<nat, nat>, fl: seq<Blk>, live: set<Blk>, owner: map<nat, Blk>,
                   core: set<nat>, base: nat, b: Blk)
    requires Divided(size, fl, live, owner, core) && Ring(ptr, size, fl, base) && 0 < b.n
    requires base < b.at && forall u :: u in core ==> base < u < b.at
    ensures UnitsOf(b) !! core
    ensures Ring(ptr, size[b.at := b.n], fl, base)
    ensures forall x :: x in live ==> x.at != b.at && x.at in size && size[x.at] == x.n
  {
    forall u | u in UnitsOf(b)
      ensures u !in core
    {
      assert InBlk(u, b);
    }
    var size' := size[b.at := b.n];
    forall i: nat | i < |fl|
      ensures Header(ptr, size', fl, i)
    {
      assert Header(ptr, size, fl, i);
      UnitsIn(fl, i);
      assert fl[i].at in UnitsOf(fl[i]) <==> InBlk(fl[i].at, fl[i]);
    }
    assert b !in live by {
      assert Live(size, live, owner, b);
      assert InBlk(b.at, b);
    }
    HeadersKept(ptr, size, fl, live, owner, core, base, b, 0);
  }

  /** New memory widens core. */
  lemma DividedAfterGrow(size: map<nat, nat>, fl: seq<Blk>, live: set<Blk>, owner: map<nat, Blk>, core: set<nat>,
                         b: Blk, size': map<nat, nat>, fl': seq<Blk>)
    requires Divided(size, fl, live, owner, core) && UnitsOf(b) !! core && Units(fl') == Units(fl) + UnitsOf(b)
    requires forall x :: x in live ==> x.at in size' && size'[x.at] == x.n
    ensures Divided(size', fl', live, owner, core + UnitsOf(b))
  {
    forall x
      ensures Live(size', live, owner, x)
    {
      assert Live(size, live, owner, x);
    }
    forall u: nat
      ensures Owned(live, owner, u)
    {
    }
  }

  /** The merged block holds at least the new units, at freep or right after it. */
  lemma MergedFits(fl: seq<Blk>, t: nat, b: Blk)
    requires t < |fl|
    ensures var m, g := Merge(fl, t, b), if JoinsDown(fl, t, b) then t else t + 1; t <= g < |m| && b.n <= m[g].n
  {
    var g := if JoinsDown(fl, t, b) then t else t + 1;
    MergeShape(fl, t, b, g);
  }

  /** The positions a walk from just after f has visited when it stands at k. */
  predicate Passed(f: nat, k: nat, i: nat) { if f < k then f < i < k else f < i || i < k }

  /** Whether some free block is large enough. */
  ghost predicate Fits(fl: seq<Blk>, nunits: nat) { exists i :: 0 <= i < |fl| && nunits <= fl[i].n }

  /** Every block the walk has visited is too small. */
  ghost predicate TooSmall(fl: seq<Blk>, f: nat, k: nat, nunits: nat) {
    forall i: nat {:trigger Passed(f, k, i)} :: i < |fl| && Passed(f, k, i) ==> fl[i].n < nunits
  }

  lemma PassedNext(fl: seq<Blk>, f: nat, k: nat, i: nat)
    requires f < |fl| && k < |fl| && i < |fl| && k != f
    ensures Passed(f, After(fl, k), i) <==> Passed(f, k, i) || i == k
  {}

  function Left(fl: seq<Blk>, f: nat, k: nat): int { if k <= f then f - k else |fl| - k + f }

  /** One step of the walk from k, where the block was too small. */
  lemma WalkOn(ptr: map<nat, nat>, size: map<nat, nat>, fl: seq<Blk>, base: nat, f: nat, k: nat, nunits: nat)
    requires Ring(ptr, size, fl, base) && f < |fl| && k < |fl| && k != f && fl[k].n < nunits
    ensures TooSmall(fl, f, k, nunits) ==> TooSmall(fl, f, After(fl, k), nunits)
    ensures forall g: nat :: g < |fl| && nunits <= fl[g].n && !Passed(f, k, g) ==> !Passed(f, After(fl, k), g)
    ensures fl[k].at != fl[f].at && Header(ptr, size, fl, k)
    ensures 0 <= Left(fl, f, After(fl, k)) < Left(fl, f, k)
  {
    forall i: nat | i < |fl|
      ensures Passed(f, After(fl, k), i) <==> Passed(f, k, i) || i == k
    {
      PassedNext(fl, f, k, i);
    }
    assert Header(ptr, size, fl, k);
  }

  /** A whole lap without a fit means that there is none. */
  lemma NoFit(fl: seq<Blk>, f: nat, nunits: nat)
    requires f < |fl| && fl[f].n < nunits && TooSmall(fl, f, f, nunits)
    ensures !Fits(fl, nunits)
  {
    forall i | 0 <= i < |fl|
      ensures fl[i].n < nunits
    {
      assert Passed(f, f, i) <==> i != f;
    }
  }

  /** sbrk gave a block of at least MIN_CORE units at the break. */
  ghost predicate Grew(brk: nat, brk': nat, core: set<nat>, core': set<nat>, nu: nat) {
    var n := if nu < MIN_CORE then MIN_CORE else nu;
    brk' == brk + n && core' == core + UnitsOf(Blk(brk, n))
  }

  // Units to serve a request of nbytes: the bytes rounded up, and one header.
  function Needed(nbytes: nat): (n: nat)
    ensures (n - 1) * HEADER >= nbytes && (n - 1) * HEADER < nbytes + HEADER && n >= 1
  {
    (nbytes + HEADER - 1) / HEADER + 1
  }

  /** The live blocks' headers survive the writes of malloc, which fall in the free list. */
  lemma TakenHeaders(ptr: map<nat, nat>, size: map<nat, nat>, fl: seq<Blk>, live: set<Blk>, owner: map<nat, Blk>,
                     core: set<nat>, base: nat, k: nat, nunits: nat)
    requires Divided(size, fl, live, owner, core) && Ring(ptr, size, fl, base) && 0 < k < |fl| && 0 < nunits <= fl[k].n
    requires forall u :: u in core ==> base < u
    ensures forall x :: x in live ==>
                x.at in TakeSize(size, fl, k, nunits) && TakeSize(size, fl, k, nunits)[x.at] == x.n
  {
    var piece := Piece(fl, k, nunits);
    TakenUnits(fl, k, nunits);
    assert InBlk(piece.at, piece) && piece.at in UnitsOf(piece);
    forall x | x in live
      ensures x.at in TakeSize(size, fl, k, nunits) && TakeSize(size, fl, k, nunits)[x.at] == x.n
    {
      LiveApart(ptr, size, fl, live, owner, core, base, x, k);
      assert Live(size, live, owner, x);
      assert InBlk(x.at, x) && x.at in UnitsOf(x);
    }
  }

  lemma Taking(ptr: map<nat, nat>, size: map<nat, nat>, fl: seq<Blk>, live: set<Blk>, owner: map<nat, Blk>,
               core: set<nat>, base: nat, k: nat, nunits: nat)
    requires Divided(size, fl, live, owner, core) && Ring(ptr, size, fl, base) && 0 < k < |fl| && 0 < nunits <= fl[k].n
    requires forall u :: u in core ==> base < u
    ensures Header(ptr, size, fl, k) && base <= fl[k - 1].at
    ensures var b, fl' := Piece(fl, k, nunits), Taken(fl, k, nunits);
      && Ring(TakePtr(ptr, fl, k, nunits), TakeSize(size, fl, k, nunits), fl', base)
      && Divided(TakeSize(size, fl, k, nunits), fl', live + {b}, owner + map u | u in UnitsOf(b) :: b, core)
      && b !in live && UnitsOf(b) <= Units(fl) && Units(fl') == Units(fl) - UnitsOf(b)
      && k <= |fl'| && fl'[k - 1] == fl[k - 1]
  {
    TakenRing(ptr, size, fl, base, k, nunits);
    TakenUnits(fl, k, nunits);
    TakenHeaders(ptr, size, fl, live, owner, core, base, k, nunits);
    assert k > 1 ==> fl[0].at + fl[0].n < fl[k - 1].at;
    DividedAfterTake(size, fl, live, owner, core, Piece(fl, k, nunits),
                     TakeSize(size, fl, k, nunits), Taken(fl, k, nunits));
  }

  // ---------------------------------------------------------------- what the division means

  /**
    Live blocks overlap neither each other nor the free list, and free and live units together are the memory
    from sbrk.
   */
  lemma LiveBlocksDisjoint(size: map<nat, nat>, fl: seq<Blk>, live: set<Blk>, owner: map<nat, Blk>, core: set<nat>,
                           x: Blk, y: Blk)
    requires Divided(size, fl, live, owner, core) && x in live && y in live
    ensures UnitsOf(x) !! Units(fl) && UnitsOf(x) <= core && (x != y ==> UnitsOf(x) !! UnitsOf(y))
    ensures forall u :: u in core ==> u in Units(fl) || exists z :: z in live && u in UnitsOf(z)
  {
    forall z, u | z in live && u in UnitsOf(z)
      ensures u in owner && owner[u] == z
    {
      assert Live(size, live, owner, z);
      assert InBlk(u, z);
    }
    forall u | u in core && u !in Units(fl)
      ensures exists z :: z in live && u in UnitsOf(z)
    {
      assert Owned(live, owner, u);
      assert owner[u] in live && u in UnitsOf(owner[u]);
    }
  }

  ghost predicate Positive(fl: seq<Blk>) { forall i :: 0 <= i < |fl| ==> 0 < fl[i].n }

  lemma NoUnits(a: seq<Blk>)
    requires Positive(a)
    ensures Units(a) == {} <==> a == []
  {
    if a != [] {
      assert InBlk(a[0].at, a[0]) && a[0].at in Units(a);
    }
  }

  lemma LowestFirst(a: seq<Blk>, u: nat)
    requires Apart(a) && Positive(a) && u in Units(a)
    ensures a[0].at <= u && (a[0].at + a[0].n <= u ==> a[0].at + a[0].n < u)
  {
    var i := UnitsWhere(a, u);
  }

  lemma SameHead(a: seq<Blk>, b: seq<Blk>)
    requires Apart(a) && Positive(a) && Apart(b) && Positive(b) && a != [] && b != [] && Units(a) == Units(b)
    ensures a[0].at == b[0].at && a[0].n <= b[0].n
  {
    assert InBlk(a[0].at, a[0]) && InBlk(b[0].at, b[0]);
    assert a[0].at in Units(a) && b[0].at in Units(b);
    LowestFirst(a, b[0].at);
    LowestFirst(b, a[0].at);
    var u := b[0].at + b[0].n;
    assert u in UnitsOf(a[0]) <==> InBlk(u, a[0]);
    if u in Units(b) {
      LowestFirst(b, u);
    }
  }

  /**
   * Freed memory is always fully joined: the list is determined by which units are free, whatever the order of the
   * calls that freed them.
   */
  lemma {:induction false} ListDetermined(a: seq<Blk>, b: seq<Blk>)
    requires Apart(a) && Positive(a) && Apart(b) && Positive(b) && Units(a) == Units(b)
    ensures a == b
  {
    if a == [] || b == [] {
      NoUnits(a);
      NoUnits(b);
    } else {
      SameHead(a, b);
      SameHead(b, a);
      OthersDisjoint(a, 0);
      OthersDisjoint(b, 0);
      assert Units(a[1..]) == Units(a) - UnitsOf(a[0]) && Units(b[1..]) == Units(b) - UnitsOf(b[0]);
      ListDetermined(a[1..], b[1..]);
      assert a == [a[0]] + a[1..] && b == [b[0]] + b[1..];
    }
  }

  class Heap {
    const base: nat
    const lo: nat
    var ptr: map<nat, nat>
    var size: map<nat, nat>
    var freep: nat
    var brk: nat
    ghost var fl: seq<Blk>
    ghost var live: set<Blk>
    ghost var owner: map<nat, Blk>
    ghost var core: set<nat>

    ghost predicate Valid()
      reads this
    {
      && 0 < base < lo <= brk
      && Divided(size, fl, live, owner, core)
      && (forall u :: u in core ==> lo <= u < brk)
      && (freep == 0 ==> fl == [] && live == {} && core == {})
      && (freep != 0 ==> Ring(ptr, size, fl, base) && exists f :: 0 <= f < |fl| && fl[f].at == freep)
    }

    constructor (base: nat, lo: nat)
      requires 0 < base < lo
      ensures Valid() && fl == [] && live == {} && core == {} && freep == 0 && this.base == base && this.lo == lo
    {
      this.base, this.lo, this.brk := base, lo, lo;
      ptr, size, freep := map[], map[], 0;
      fl, live, owner, core := [], {}, map[], {};
    }

    /** The first call of malloc makes the static header a ring of its own. */
    method Initialise()
      requires Valid() && freep == 0
      modifies `ptr, `size, `freep, `fl
      ensures Valid() && freep == base && fl == [Blk(base, 0)] && Units(fl) == old(Units(fl))
    {
      ptr, size, freep := ptr[base := base], size[base := 0], base;
      fl := [Blk(base, 0)];
      UnitsOne(fl[0]);
      assert fl[0].at == freep;
      assert Divided(size, fl, live, owner, core) by {
        assert UnitsOf(fl[0]) == {};
        assert forall b :: Live(old(size), live, owner, b) ==> Live(size, live, owner, b);
      }
    }

    /** The loop of free: walks the ring from freep to the header after which block bp belongs. */
    method FindPlace(bp: nat, ghost t: nat) returns (p: nat)
      requires Ring(ptr, size, fl, base) && exists f :: 0 <= f < |fl| && fl[f].at == freep
      requires t < |fl| && fl[t].at < bp && (t + 1 < |fl| ==> bp < fl[t + 1].at) && base < bp
      ensures p == fl[t].at
    {
      p := freep;
      ghost var k :| 0 <= k < |fl| && fl[k].at == p;
      assert Header(ptr, size, fl, k);
      while !(bp > p && bp < ptr[p])
        invariant 0 <= k < |fl| && fl[k].at == p && Header(ptr, size, fl, k)
        decreases if k <= t then t - k else |fl| - k + t
      {
        if p >= ptr[p] && (bp > p || bp < ptr[p]) {
          break;
        }
        p := ptr[p];
        k := After(fl, k);
        assert Header(ptr, size, fl, k);
      }
    }

    /** The assignments of free, once the place is found. */
    method Splice(p: nat, bp: nat)
      requires p in ptr && p in size && bp in size && p != bp
      requires bp + size[bp] == ptr[p] ==> ptr[p] in ptr && ptr[p] in size && ptr[p] != bp
      modifies `ptr, `size, `freep
      ensures ptr == old(PutPtr(ptr, size, p, Blk(bp, size[bp])))
      ensures size == old(PutSize(ptr, size, p, Blk(bp, size[bp])))
      ensures freep == p
    {
      if bp + size[bp] == ptr[p] {
        size := size[bp := size[bp] + size[ptr[p]]];
        ptr := ptr[bp := ptr[ptr[p]]];
      } else {
        ptr := ptr[bp := ptr[p]];
      }
      if p + size[p] == bp {
        size := size[p := size[p] + size[bp]];
        ptr := ptr[p := ptr[bp]];
      } else {
        ptr := ptr[p := bp];
      }
      freep := p;
    }

    /**
      The body of free for a block that is not on the list: it joins the list after the header freep then points
      at.
     */
    method PutBack(bp: nat) returns (ghost t: nat, ghost g: nat)
      requires 0 < base && Ring(ptr, size, fl, base) && exists f :: 0 <= f < |fl| && fl[f].at == freep
      requires base < bp && bp in size && 0 < size[bp] && Units(fl) !! UnitsOf(Blk(bp, size[bp]))
      modifies `ptr, `size, `freep, `fl
      ensures Ring(ptr, size, fl, base) && Units(fl) == old(Units(fl) + UnitsOf(Blk(bp, size[bp])))
      ensures t < |fl| && t < |old(fl)| && freep == fl[t].at == old(fl)[t].at && freep != 0
      ensures (g == t || g == t + 1) && g < |fl| && old(size)[bp] <= fl[g].n
      ensures forall a :: a in old(size) && a != bp && a != freep ==> a in size && size[a] == old(size)[a]
    {
      ghost var b := Blk(bp, size[bp]);
      t := Putting(ptr, size, fl, base, b);
      MergedFits(fl, t, b);
      g := if JoinsDown(fl, t, b) then t else t + 1;
      var p := FindPlace(bp, t);
      Splice(p, bp);
      fl := Merge(fl, t, b);
    }

    /** free: the block leaves the live set, its units join the list, and nothing else changes hands. */
    method Free(ap: nat)
      requires Valid() && 0 < ap && ap - 1 in size && Blk(ap - 1, size[ap - 1]) in live
      modifies this
      ensures Valid() && brk == old(brk) && core == old(core)
      ensures live == old(live) - {Blk(ap - 1, old(size)[ap - 1])}
      ensures Units(fl) == old(Units(fl)) + UnitsOf(Blk(ap - 1, old(size)[ap - 1]))
    {
      var bp := ap - 1;
      ghost var b := Blk(bp, size[bp]);
      LiveApart(ptr, size, fl, live, owner, core, base, b, 0);
      assert Live(size, live, owner, b);
      ghost var size0, fl0, ptr0 := size, fl, ptr;
      ghost var t, g := PutBack(bp);
      HeadersKept(ptr0, size0, fl0, live, owner, core, base, b, t);
      DividedAfterFree(size0, fl0, live, owner, core, b, size, fl);
      live, owner := live - {b}, owner - UnitsOf(b);
    }

    /**
     * morecore: at least MIN_CORE units from sbrk join the list, unless sbrk refuses. The block that now holds them is
     * the one at freep or the one after it.
     */
    method Morecore(nu: nat, granted: bool) returns (ok: bool, p: nat, ghost f: nat, ghost g: nat)
      requires Valid() && freep != 0
      modifies this
      ensures ok == granted && Valid() && freep != 0 && live == old(live)
      ensures !ok ==> unchanged(this)
      ensures ok ==> Grew(old(brk), brk, old(core), core, nu)
      ensures ok ==> f < |fl| && p == freep == fl[f].at && g < |fl| && nu <= fl[g].n && (g == f || g == f + 1)
    {
      p, f, g := 0, 0, 0;
      var n := if nu < MIN_CORE then MIN_CORE else nu;
      ok := granted;
      if !ok {
        return;
      }
      var hp := brk;
      ghost var b := Blk(hp, n);
      ghost var ptr0, size0, fl0 := ptr, size, fl;
      FreshBlock(ptr, size, fl, live, owner, core, base, b);
      brk := brk + n;
      size := size[hp := n];
      f, g := PutBack(hp);
      p := freep;
      HeadersKept(ptr0, size0, fl0, live, owner, core, base, b, f);
      DividedAfterGrow(size0, fl0, live, owner, core, b, size, fl);
      core := core + UnitsOf(b);
    }

    /** The assignments of malloc once block k is found large enough. */
    method Cut(prevp: nat, p: nat, nunits: nat, ghost k: nat) returns (q: nat)
      requires Ring(ptr, size, fl, base) && 0 < k < |fl| && p == fl[k].at && prevp == fl[k - 1].at
      requires 0 < nunits <= fl[k].n
      modifies `ptr, `size, `freep
      ensures Header(old(ptr), old(size), fl, k)
      ensures ptr == TakePtr(old(ptr), fl, k, nunits) && size == TakeSize(old(size), fl, k, nunits)
      ensures q == Piece(fl, k, nunits).at && freep == prevp
    {
      assert Header(ptr, size, fl, k);
      q := p;
      if size[p] == nunits {
        ptr := ptr[prevp := ptr[p]];
      } else {
        size := size[p := size[p] - nunits];
        q := p + size[p];
        size := size[q := nunits];
      }
      freep := prevp;
    }

    /** Serves a request from block k: the whole block, or its upper end. */
    method Take(prevp: nat, p: nat, nunits: nat, ghost k: nat) returns (ap: nat)
      requires Valid() && freep != 0 && 0 < k < |fl| && p == fl[k].at && prevp == fl[k - 1].at && 0 < nunits <= fl[k].n
      modifies `ptr, `size, `freep, `fl, `live, `owner
      ensures Valid() && freep != 0 && 0 < ap
      ensures Blk(ap - 1, nunits) !in old(live) && live == old(live) + {Blk(ap - 1, nunits)}
      ensures UnitsOf(Blk(ap - 1, nunits)) <= old(Units(fl))
      ensures Units(fl) == old(Units(fl)) - UnitsOf(Blk(ap - 1, nunits))
    {
      Taking(ptr, size, fl, live, owner, core, base, k, nunits);
      var q := Cut(prevp, p, nunits, k);
      ap := q + 1;
      ghost var b := Piece(fl, k, nunits);
      fl, live, owner := Taken(fl, k, nunits), live + {b}, owner + map u | u in UnitsOf(b) :: b;
      assert fl[k - 1].at == freep;
    }

    /** One lap of malloc's loop: from the block after freep up to the one at freep, for the first of nunits or more. */
    method Lap(nunits: nat) returns (found: bool, prevp: nat, p: nat, ghost k: nat)
      requires Ring(ptr, size, fl, base) && (exists f :: 0 <= f < |fl| && fl[f].at == freep) && 0 < nunits
      ensures found <==> Fits(fl, nunits)
      ensures found ==> 0 < k < |fl| && p == fl[k].at && prevp == fl[k - 1].at && nunits <= fl[k].n
    {
      prevp := freep;
      ghost var f: nat :| 0 <= f < |fl| && fl[f].at == freep;
      ghost var pk: nat := f;
      k := After(fl, f);
      assert Header(ptr, size, fl, f);
      p := ptr[prevp];
      while true
        invariant k < |fl| && fl[k].at == p && pk < |fl| && fl[pk].at == prevp && k == After(fl, pk)
        invariant TooSmall(fl, f, k, nunits)
        decreases Left(fl, f, k)
      {
        assert Header(ptr, size, fl, k);
        if size[p] >= nunits {
          return true, prevp, p, k;
        }
        if k != f {
          WalkOn(ptr, size, fl, base, f, k, nunits);
        }
        if p == freep {
          NoFit(fl, f, nunits);
          return false, 0, 0, 0;
        }
        prevp, p := p, ptr[p];
        pk, k := k, After(fl, k);
      }
    }

    /**
     * malloc's loop, lap by lap: a lap in vain asks for more memory and starts again from where the memory joined the
     * list, and the lap after that always ends at a fit.
     */
    method Search(nunits: nat, granted: bool) returns (ok: bool, prevp: nat, p: nat, ghost k: nat)
      requires Valid() && freep != 0 && 0 < nunits
      modifies this
      ensures Valid() && freep != 0 && live == old(live)
      ensures ok <==> granted || old(Fits(fl, nunits))
      ensures ok ==> 0 < k < |fl| && p == fl[k].at && prevp == fl[k - 1].at && nunits <= fl[k].n
      ensures old(Fits(fl, nunits)) || !ok ==> unchanged(this)
      ensures ok && !old(Fits(fl, nunits)) ==> Grew(old(brk), brk, old(core), core, nunits)
    {
      ghost var grown := false;
      while true
        invariant Valid() && freep != 0 && live == old(live)
        invariant !grown ==> unchanged(this)
        invariant grown ==>
                  granted && !old(Fits(fl, nunits)) && Fits(fl, nunits) && Grew(old(brk), brk, old(core), core, nunits)
        decreases !grown
      {
        ok, prevp, p, k := Lap(nunits);
        if ok {
          return;
        }
        ghost var f, g;
        ok, p, f, g := Morecore(nunits, granted);
        if !ok {
          return;
        }
        grown := true;
      }
    }

    /**
     * malloc: a block of the right number of units that was free, or new memory, becomes live. Memory is asked of sbrk
     * once at most, and only when no free block is large enough; the request fails only if sbrk then refuses.
     */
    method Malloc(nbytes: nat, granted: bool) returns (ok: bool, ap: nat)
      requires Valid() && Needed(nbytes) * HEADER < 0x8000_0000
      modifies this
      ensures Valid()
      ensures ok <==> granted || old(Fits(fl, Needed(nbytes)))
      ensures !ok ==> live == old(live) && core == old(core) && brk == old(brk) && Units(fl) == old(Units(fl))
      ensures ok ==>
                0 < ap && Blk(ap - 1, Needed(nbytes)) !in old(live) && live == old(live) + {Blk(ap - 1, Needed(nbytes))}
      ensures ok && old(Fits(fl, Needed(nbytes))) ==> brk == old(brk) && core == old(core)
      ensures ok && !old(Fits(fl, Needed(nbytes))) ==> Grew(old(brk), brk, old(core), core, Needed(nbytes))
    {
      var nunits := Needed(nbytes);
      ap := 0;
      if freep == 0 {
        Initialise();
      }
      var prevp, p;
      ghost var k;
      ok, prevp, p, k := Search(nunits, granted);
      if ok {
        ap := Take(prevp, p, nunits, k);
      }
    }
  }
}
