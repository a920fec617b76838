/**
  How many pages a page table takes. A tree has one table for each place, so its tables are counted by their places:
  those on the paths of the pages that were ever mapped in it.
 */
module TableCount {
  import opened PageTable

  /** The places below the root that walk passes on its way to page v. */
  function Path(v: nat): set<Pos> { {PlaceAt(1, v), PlaceAt(0, v)} }

  /** The same for the n pages from v on. */
  function Span(v: nat, n: nat): set<Pos> {
    if n == 0 then {} else Span(v, n - 1) + Path(v + n - 1)
  }

  /** The places in the page table of a process with n user pages: the root, and the paths of all its pages. */
  function Places(n: nat): set<Pos> { {Root} + Path(MAXVPN - 1) + Path(MAXVPN - 2) + Span(0, n) }

  function PlaceSet(pos: map<nat, Pos>): set<Pos> { set t | t in pos :: pos[t] }

  lemma {:induction false} SpanSize(v: nat, n: nat)
    ensures |Span(v, n)| <= 2 * n
  {
    if n > 0 {
      SpanSize(v, n - 1);
      assert |Span(v, n - 1) + Path(v + n - 1)| <= |Span(v, n - 1)| + |Path(v + n - 1)|;
    }
  }

  lemma {:induction false} PathInSpan(v: nat, n: nat, k: nat)
    requires k < n
    ensures Path(v + k) <= Span(v, n)
  {
    if k + 1 < n {
      PathInSpan(v, n - 1, k);
    }
  }

  lemma {:induction false} SpanInSpan(v: nat, n: nat, w: nat, k: nat)
    requires v <= w && w + k <= v + n
    ensures Span(w, k) <= Span(v, n)
  {
    if k > 0 {
      SpanInSpan(v, n, w, k - 1);
      PathInSpan(v, n, w + k - 1 - v);
    }
  }

  lemma TopPath(v: nat)
    requires MAXVPN - 2 <= v < MAXVPN
    ensures PlaceAt(1, v) == Mid(255) && PlaceAt(0, v) == Low(255, 511)
  {
    IndicesSpellPage(v);
    assert v / 0x4_0000 == 255;
    assert v / 512 == 0x1_ffff;
  }

  /** Trampoline and trapframe share their path: with the root three tables, and at most two more per user page. */
  lemma PlacesSize(n: nat)
    ensures Places(n) == {Root, Mid(255), Low(255, 511)} + Span(0, n)
    ensures |Places(0)| == 3 && |Places(n)| <= 3 + 2 * n
  {
    TopPath(MAXVPN - 1);
    TopPath(MAXVPN - 2);
    SpanSize(0, n);
    var top := {Root, Mid(255), Low(255, 511)};
    assert |top| == 3;
    assert Places(n) == top + Span(0, n);
    assert Places(0) == top + {};
  }

  // ----- labels of a growing tree -----

  ghost predicate PlaceOk(pos: map<nat, Pos>, pos': map<nat, Pos>, v: nat, n: nat, t: nat) {
    (t in pos ==> t in pos' && pos'[t] == pos[t]) && (t in pos' && t !in pos ==> pos'[t] in Span(v, n))
  }

  /** pos' has the tables of pos and others on the paths of the n pages from v on. */
  ghost predicate Labels(pos: map<nat, Pos>, pos': map<nat, Pos>, v: nat, n: nat) {
    forall t {:trigger PlaceOk(pos, pos', v, n, t)} :: PlaceOk(pos, pos', v, n, t)
  }

  lemma LabelsSame(pos: map<nat, Pos>, v: nat, n: nat)
    ensures Labels(pos, pos, v, n)
  {
    forall t
      ensures PlaceOk(pos, pos, v, n, t)
    {}
  }

  /** A new table on the path of page w, one of those pages. */
  lemma LabelsAdd(pos0: map<nat, Pos>, pos: map<nat, Pos>, t: nat, level: nat, w: nat, v: nat, n: nat)
    requires Labels(pos0, pos, v, n) && level < 2 && v <= w < v + n && t !in pos
    ensures Labels(pos0, pos[t := PlaceAt(level, w)], v, n)
  {
    var pos' := pos[t := PlaceAt(level, w)];
    PathInSpan(v, n, w - v);
    forall u
      ensures PlaceOk(pos0, pos', v, n, u)
    {
      assert PlaceOk(pos0, pos, v, n, u);
    }
  }

  /** One page after another. */
  lemma LabelsTrans(pos: map<nat, Pos>, pos1: map<nat, Pos>, pos2: map<nat, Pos>, v: nat, n: nat, w: nat, k: nat)
    requires Labels(pos, pos1, v, n) && Labels(pos1, pos2, w, k) && v <= w && w + k <= v + n
    ensures Labels(pos, pos2, v, n)
  {
    SpanInSpan(v, n, w, k);
    forall t
      ensures PlaceOk(pos, pos2, v, n, t)
    {
      assert PlaceOk(pos, pos1, v, n, t) && PlaceOk(pos1, pos2, w, k, t);
    }
  }

  lemma LabelsWider(pos: map<nat, Pos>, pos': map<nat, Pos>, v: nat, n: nat, w: nat, k: nat)
    requires Labels(pos, pos', w, k) && v <= w && w + k <= v + n
    ensures Labels(pos, pos', v, n)
  {
    LabelsSame(pos, v, n);
    LabelsTrans(pos, pos, pos', v, n, w, k);
  }

  lemma LabelsPlaces(pos: map<nat, Pos>, pos': map<nat, Pos>, v: nat, n: nat)
    requires Labels(pos, pos', v, n)
    ensures PlaceSet(pos) <= PlaceSet(pos') <= PlaceSet(pos) + Span(v, n)
  {
    forall t | t in pos'
      ensures pos'[t] in PlaceSet(pos) + Span(v, n)
    {
      assert PlaceOk(pos, pos', v, n, t);
    }
    forall t | t in pos
      ensures pos[t] in PlaceSet(pos')
    {
      assert PlaceOk(pos, pos', v, n, t);
    }
  }

  ghost predicate LowAt(pos: map<nat, Pos>, v: nat, t: nat) { t in pos && pos[t] == PlaceAt(0, v) }

  /** The table that would hold the leaf entry of page v is missing. */
  ghost predicate NoTable(pos: map<nat, Pos>, v: nat) { forall t {:trigger LowAt(pos, v, t)} :: !LowAt(pos, v, t) }

  // ----- counting -----

  ghost predicate OneToOne(pos: map<nat, Pos>) { forall t, u :: t in pos && u in pos && pos[t] == pos[u] ==> t == u }

  lemma TreeOneToOne(m: Memory, root: nat, pos: map<nat, Pos>)
    requires IsTree(m, root, pos)
    ensures OneToOne(pos)
  {
    forall t, u | t in pos && u in pos && pos[t] == pos[u]
      ensures t == u
    {
      assert Linked(m, root, pos, t) && Linked(m, root, pos, u);
    }
  }

  lemma {:induction false} PlaceCount(pos: map<nat, Pos>)
    requires OneToOne(pos)
    ensures |PlaceSet(pos)| == |pos.Keys|
    decreases |pos.Keys|
  {
    if pos.Keys == {} {
      assert PlaceSet(pos) == {};
    } else {
      var t :| t in pos.Keys;
      var rest := pos - {t};
      assert rest.Keys == pos.Keys - {t};
      PlaceCount(rest);
      assert pos[t] !in PlaceSet(rest);
      forall p
        ensures p in PlaceSet(pos) <==> p in PlaceSet(rest) + {pos[t]}
      {
        if p in PlaceSet(pos) {
          var u :| u in pos && pos[u] == p;
          assert u == t || u in rest;
        }
      }
      assert PlaceSet(pos) == PlaceSet(rest) + {pos[t]};
    }
  }

  lemma {:induction false} FewerPlaces(a: set<Pos>, b: set<Pos>)
    requires a <= b
    ensures |a| <= |b| && (a != b ==> |a| < |b|)
  {
    if a != {} {
      var x :| x in a;
      FewerPlaces(a - {x}, b - {x});
      assert a != b ==> a - {x} != b - {x};
    } else if b != {} {
      assert |b| > 0;
    }
  }

  lemma MissingPlace(pos: map<nat, Pos>, w: nat)
    requires NoTable(pos, w)
    ensures PlaceAt(0, w) !in PlaceSet(pos)
  {
    forall t | t in pos
      ensures pos[t] != PlaceAt(0, w)
    {
      assert !LowAt(pos, w, t);
    }
  }

  /** A tree that may still grow on the paths of some pages: no larger than it would be then. */
  lemma TreeNoLarger(m: Memory, root: nat, pos0: map<nat, Pos>, pos: map<nat, Pos>, v: nat, n: nat)
    requires IsTree(m, root, pos) && Labels(pos0, pos, v, n)
    ensures |pos.Keys| <= |PlaceSet(pos0) + Span(v, n)|
  {
    TreeOneToOne(m, root, pos);
    PlaceCount(pos);
    LabelsPlaces(pos0, pos, v, n);
    FewerPlaces(PlaceSet(pos), PlaceSet(pos0) + Span(v, n));
  }

  /** Where a table is still missing, it is smaller. */
  lemma TreeSmaller(m: Memory, root: nat, pos0: map<nat, Pos>, pos: map<nat, Pos>, v: nat, n: nat, w: nat)
    requires IsTree(m, root, pos) && Labels(pos0, pos, v, n) && v <= w < v + n && NoTable(pos, w)
    ensures |pos.Keys| < |PlaceSet(pos0) + Span(v, n)|
  {
    TreeOneToOne(m, root, pos);
    PlaceCount(pos);
    LabelsPlaces(pos0, pos, v, n);
    MissingPlace(pos, w);
    LowInSpan(v, n, w);
    FewerPlaces(PlaceSet(pos), PlaceSet(pos0) + Span(v, n));
  }

  lemma LowInSpan(v: nat, n: nat, w: nat)
    requires v <= w < v + n
    ensures PlaceAt(0, w) in Span(v, n)
  {
    PathInSpan(v, n, w - v);
    assert PlaceAt(0, w) in Path(v + (w - v));
  }

  /** A page that is mapped has its whole path in the tree. */
  lemma PathThere(m: Memory, root: nat, pos: map<nat, Pos>, v: nat)
    requires IsTree(m, root, pos) && v < MAXVPN && IsValid(Lookup(m, root, v))
    ensures Path(v) <= PlaceSet(pos)
  {
    IndicesSpellPage(v);
    ChildExists(m, root, pos, root, Index(2, v));
    var mid := Pte2Pa(Entry(m, root, Index(2, v)));
    ChildExists(m, root, pos, mid, Index(1, v));
  }

  lemma {:induction false} SpanThere(m: Memory, root: nat, pos: map<nat, Pos>, v: nat, n: nat)
    requires IsTree(m, root, pos) && v + n <= MAXVPN && forall w :: v <= w < v + n ==> IsValid(Lookup(m, root, w))
    ensures Span(v, n) <= PlaceSet(pos)
  {
    if n > 0 {
      SpanThere(m, root, pos, v, n - 1);
      PathThere(m, root, pos, v + n - 1);
    }
  }

  /** Once all the pages are mapped, it is exactly that large. */
  lemma TreeExactly(m: Memory, root: nat, pos0: map<nat, Pos>, pos: map<nat, Pos>, v: nat, n: nat)
    requires IsTree(m, root, pos) && Labels(pos0, pos, v, n) && v + n <= MAXVPN
    requires forall w :: v <= w < v + n ==> IsValid(Lookup(m, root, w))
    ensures PlaceSet(pos) == PlaceSet(pos0) + Span(v, n) && |pos.Keys| == |PlaceSet(pos0) + Span(v, n)|
  {
    TreeOneToOne(m, root, pos);
    PlaceCount(pos);
    LabelsPlaces(pos0, pos, v, n);
    SpanThere(m, root, pos, v, n);
  }

  /** The root alone and the paths of trampoline and trapframe. */
  lemma KernelTables(root: nat)
    ensures PlaceSet(map[root := Root]) + Span(MAXVPN - 2, 2) == Places(0)
    ensures |Places(0)| == 3
  {
    var pos := map[root := Root];
    PlacesSize(0);
    assert pos[root] in PlaceSet(pos);
    assert PlaceSet(pos) == {Root};
    assert Span(MAXVPN - 2, 2) == Span(MAXVPN - 2, 1) + Path(MAXVPN - 1);
    assert Span(MAXVPN - 2, 1) == Span(MAXVPN - 2, 0) + Path(MAXVPN - 2);
  }

  lemma PlacesMore(n: nat)
    ensures Places(0) + Span(0, n) == Places(n) && 3 <= |Places(n)|
  {
    PlacesSize(0);
    PlacesSize(n);
    FewerPlaces(Places(0), Places(n));
  }

  /** While one of the two mappings lacks a table, the tree has fewer than three. */
  lemma TablesShort(m: Memory, root: nat, pos0: map<nat, Pos>, pos: map<nat, Pos>, v: nat)
    requires IsTree(m, root, pos) && pos0 == map[root := Root] && Labels(pos0, pos, MAXVPN - 2, 2)
    requires MAXVPN - 2 <= v < MAXVPN && NoTable(pos, v)
    ensures |pos.Keys| < 3
  {
    TreeSmaller(m, root, pos0, pos, MAXVPN - 2, 2, v);
    KernelTables(root);
  }

  /** With both it has three. */
  lemma TablesThree(m: Memory, root: nat, pos0: map<nat, Pos>, pos: map<nat, Pos>)
    requires IsTree(m, root, pos) && pos0 == map[root := Root] && Labels(pos0, pos, MAXVPN - 2, 2)
    requires IsValid(Lookup(m, root, MAXVPN - 1)) && IsValid(Lookup(m, root, MAXVPN - 2))
    ensures PlaceSet(pos) == Places(0) && |pos.Keys| == 3
  {
    TreeExactly(m, root, pos0, pos, MAXVPN - 2, 2);
    KernelTables(root);
  }

  // ----- the number of places -----

  function CeilDiv(a: nat, b: nat): nat
    requires b > 0
  {
    (a + b - 1) / b
  }

  /**
    The tables of a process with n user pages: the root, one of the next level for each 2^18 pages and one of the last
    level for each 512; and one each for trampoline and trapframe, unless the user pages reach as far.
   */
  function Tables(n: nat): nat {
    1 + CeilDiv(n, 0x4_0000) + CeilDiv(n, 512)
    + (if n <= MAXVPN - 0x4_0000 then 1 else 0) + (if n <= MAXVPN - 512 then 1 else 0)
  }

  lemma PlaceIs(n: nat, i: nat, j: nat)
    requires n < MAXVPN && i < 256 && j < ENTRIES
    ensures PlaceAt(1, n) == Mid(n / 0x4_0000) && n / 0x4_0000 < 256
    ensures PlaceAt(0, n) == Low(i, j) <==> i * 0x4_0000 + j * 512 <= n < i * 0x4_0000 + j * 512 + 512
  {
    IndicesSpellPage(n);
    assert n / 0x4_0000 < 256;
    if i * 0x4_0000 + j * 512 <= n < i * 0x4_0000 + j * 512 + 512 {
      IndexOfParts(i, j, n - i * 0x4_0000 - j * 512);
    }
  }

  lemma {:induction false} MidInSpan(n: nat, i: nat)
    requires n <= MAXVPN && i < 256
    ensures Mid(i) in Span(0, n) <==> i * 0x4_0000 < n
  {
    if n > 0 {
      MidInSpan(n - 1, i);
      PlaceIs(n - 1, i, 0);
    }
  }

  lemma {:induction false} LowInFirst(n: nat, i: nat, j: nat)
    requires n <= MAXVPN && i < 256 && j < ENTRIES
    ensures Low(i, j) in Span(0, n) <==> i * 0x4_0000 + j * 512 < n
  {
    if n > 0 {
      LowInFirst(n - 1, i, j);
      PlaceIs(n - 1, i, j);
    }
  }

  /** Whether page n, after those below it, needs a new table of the level above the last, and of the last. */
  predicate NewMid(n: nat) { n % 0x4_0000 == 0 && n != MAXVPN - 0x4_0000 }

  predicate NewLow(n: nat) { n % 512 == 0 && n != MAXVPN - 512 }

  lemma Remainders(i: nat, j: nat, k: nat)
    requires j < 512 && k < 512
    ensures var n := i * 0x4_0000 + j * 512 + k; n % 512 == k && n % 0x4_0000 == j * 512 + k
  {
    var n := i * 0x4_0000 + j * 512 + k;
    assert n == (i * 512 + j) * 512 + k;
  }

  lemma PathNew(n: nat)
    requires n < MAXVPN
    ensures PlaceAt(1, n) in Places(n) <==> !NewMid(n)
    ensures PlaceAt(0, n) in Places(n) <==> !NewLow(n)
  {
    var i, j, k := Index(2, n), Index(1, n), Index(0, n);
    IndicesSpellPage(n);
    Remainders(i, j, k);
    PathNewAt(n, i, j, k);
  }

  lemma PathNewAt(n: nat, i: nat, j: nat, k: nat)
    requires i < 256 && j < 512 && k < 512 && n == i * 0x4_0000 + j * 512 + k
    requires n % 512 == k && n % 0x4_0000 == j * 512 + k
    ensures Mid(i) in Places(n) <==> !NewMid(n)
    ensures Low(i, j) in Places(n) <==> !NewLow(n)
  {
    PlacesSize(n);
    MidInSpan(n, i);
    LowInFirst(n, i, j);
  }

  lemma TwoMore(a: set<Pos>, x: Pos, y: Pos)
    requires x != y
    ensures |a + {x, y}| == |a| + (if x in a then 0 else 1) + (if y in a then 0 else 1)
  {
    var b := a + {x};
    assert a + {x, y} == b + {y};
    assert x in a ==> b == a;
    assert y in b <==> y in a;
    assert y in b ==> b + {y} == b;
  }

  lemma PlacesStep(n: nat)
    ensures Places(n + 1) == Places(n) + Path(n)
  {
    assert Span(0, n + 1) == Span(0, n) + Path(0 + n);
  }

  lemma PlacesNext(n: nat)
    requires n < MAXVPN
    ensures |Places(n + 1)| == |Places(n)| + (if NewMid(n) then 1 else 0) + (if NewLow(n) then 1 else 0)
  {
    PathNew(n);
    PlacesStep(n);
    TwoMore(Places(n), PlaceAt(1, n), PlaceAt(0, n));
  }

  lemma CeilSmall(n: nat)
    ensures CeilDiv(n + 1, 512) == CeilDiv(n, 512) + if n % 512 == 0 then 1 else 0
  {
    var q, r := n / 512, n % 512;
    assert n == q * 512 + r;
  }

  lemma CeilLarge(n: nat)
    ensures CeilDiv(n + 1, 0x4_0000) == CeilDiv(n, 0x4_0000) + if n % 0x4_0000 == 0 then 1 else 0
  {
    var q, r := n / 0x4_0000, n % 0x4_0000;
    assert n == q * 0x4_0000 + r;
  }

  lemma TablesNext(n: nat)
    requires n < MAXVPN
    ensures Tables(n + 1) == Tables(n) + (if NewMid(n) then 1 else 0) + (if NewLow(n) then 1 else 0)
  {
    CeilSmall(n);
    CeilLarge(n);
    var q, r := n / 512, n % 512;
    assert n == q * 512 + r;
    var q2, r2 := n / 0x4_0000, n % 0x4_0000;
    assert n == q2 * 0x4_0000 + r2;
  }

  lemma {:induction false} PlacesExactly(n: nat)
    requires n <= MAXVPN
    ensures |Places(n)| == Tables(n)
  {
    if n == 0 {
      PlacesSize(0);
    } else {
      PlacesExactly(n - 1);
      PlacesNext(n - 1);
      TablesNext(n - 1);
    }
  }
}
