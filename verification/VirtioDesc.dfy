/** The driver's descriptor table: allocation of three descriptors per request, and the release of a chain. */
module VirtioDesc {

  const NUM := 8
  const F_NEXT := 1
  const F_WRITE := 2

  // What a descriptor's address can name: a request header, a buffer's data, or a status byte.
  datatype Addr = Null | Header(op: nat) | Data(buf: nat) | Status(info: nat)

  datatype Desc = Desc(addr: Addr, len: nat, flags: nat, next: nat)

  predicate HasNext(d: Desc) { d.flags % 2 == 1 }

  predicate DeviceWrites(d: Desc) { d.flags / 2 % 2 == 1 }

  /** Exactly the three distinct descriptors i0, i1, i2 were taken. */
  predicate Took3(free: seq<bool>, i0: nat, i1: nat, i2: nat, free': seq<bool>) {
    && i0 < |free| && i1 < |free| && i2 < |free| && i0 != i1 && i0 != i2 && i1 != i2
    && free[i0] && free[i1] && free[i2] && free' == free[i0 := false][i1 := false][i2 := false]
  }

  /** Following the NEXT flags from i0 visits i0, i1, i2 and stops; the three are distinct and in use. */
  predicate ChainOf3(free: seq<bool>, desc: seq<Desc>, i0: nat, i1: nat, i2: nat) {
    && |desc| == |free| && i0 < |free| && i1 < |free| && i2 < |free| && i0 != i1 && i0 != i2 && i1 != i2
    && !free[i0] && !free[i1] && !free[i2]
    && HasNext(desc[i0]) && desc[i0].next == i1 && HasNext(desc[i1]) && desc[i1].next == i2 && !HasNext(desc[i2])
  }

  const CLEAR := Desc(Null, 0, 0, 0)

  class DescTable {
    const free: array<bool>
    const desc: array<Desc>

    predicate Valid()
      reads this
    {
      free.Length == NUM && desc.Length == NUM
    }

    /** The lowest free descriptor, or none when all are in use. */
    method AllocDesc() returns (ok: bool, i: nat)
      requires Valid()
      modifies free
      ensures Valid()
      ensures ok ==> i < NUM && old(free[i]) && free[..] == old(free[..])[i := false] && forall j :: 0 <= j < i ==>
                  !old(free[j])
      ensures !ok ==> free[..] == old(free[..]) && forall j :: 0 <= j < NUM ==> !free[j]
    {
      i := 0;
      while i < NUM
        invariant 0 <= i <= NUM && free[..] == old(free[..]) && forall j :: 0 <= j < i ==> !free[j]
      {
        if free[i] {
          free[i] := false;
          return true, i;
        }
        i := i + 1;
      }
      return false, 0;
    }

    /** Both panics of free_desc are preconditions. */
    method FreeDesc(i: nat)
      requires Valid() && i < NUM && !free[i]
      modifies free, desc
      ensures Valid() && free[..] == old(free[..])[i := true] && desc[..] == old(desc[..])[i := CLEAR]
    {
      desc[i] := CLEAR;
      free[i] := true;
    }

    method FreeChain(i: nat, ghost i1: nat, ghost i2: nat)
      requires Valid() && ChainOf3(free[..], desc[..], i, i1, i2)
      modifies free, desc
      ensures Valid() && free[..] == old(free[..])[i := true][i1 := true][i2 := true]
      ensures desc[..] == old(desc[..])[i := CLEAR][i1 := CLEAR][i2 := CLEAR]
    {
      ghost var f, d := free[..], desc[..];
      var j := i;
      ghost var n := 0;
      while true
        invariant 0 <= n < 3 && j == (if n == 0 then i else if n == 1 then i1 else i2)
        invariant n == 0 ==> free[..] == f && desc[..] == d
        invariant n == 1 ==> free[..] == f[i := true] && desc[..] == d[i := CLEAR]
        invariant n == 2 ==> free[..] == f[i := true][i1 := true] && desc[..] == d[i := CLEAR][i1 := CLEAR]
        decreases 3 - n
      {
        assert free[j] == free[..][j] && desc[j] == desc[..][j];
        var flag, nxt := desc[j].flags, desc[j].next;
        FreeDesc(j);
        if flag % 2 == 1 {
          j := nxt;
        } else {
          break;
        }
        n := n + 1;
      }
    }

    /** All three or none: a failed attempt leaves the table of free descriptors as it was. */
    method Alloc3Desc() returns (ok: bool, i0: nat, i1: nat, i2: nat)
      requires Valid()
      modifies free, desc
      ensures Valid()
      ensures ok ==> Took3(old(free[..]), i0, i1, i2, free[..]) && desc[..] == old(desc[..])
      ensures !ok ==> free[..] == old(free[..])
      ensures ok <==> exists j0, j1, j2 ::
                        0 <= j0 < j1 < j2 < NUM && old(free[..])[j0] && old(free[..])[j1] && old(free[..])[j2]
    {
      ghost var f := free[..];
      i1, i2 := 0, 0;
      ok, i0 := AllocDesc();
      if !ok {
        assert forall j :: 0 <= j < NUM ==> !f[j];
        return;
      }
      ghost var f1 := free[..];
      ok, i1 := AllocDesc();
      if !ok {
        assert forall j :: 0 <= j < NUM ==> !f1[j];
        FreeDesc(i0);
        assert forall j :: 0 <= j < NUM && j != i0 ==> f[j] == f1[j];
        assert free[..] == f;
        return;
      }
      ghost var f2 := free[..];
      ok, i2 := AllocDesc();
      if !ok {
        assert forall j :: 0 <= j < NUM ==> !f2[j];
        FreeDesc(i0);
        FreeDesc(i1);
        assert forall j :: 0 <= j < NUM && j != i0 && j != i1 ==> f[j] == f2[j];
        assert free[..] == f;
        return;
      }
      assert i0 < i1 < i2 && f[i0] && f[i1] && f[i2];
    }
  }
}
