/**
  The on-disk redo log as a sequence of block writes, and the crash theorem.

  A disk is a sequence of blocks. A block is 256 machine words (BSIZE is 1024 bytes
  and a log header word is a 4-byte int). Every change to the disk is one block write,
  so a crash leaves the disk after some prefix of the writes that were under way.
 */
module LogSpec {

  const MAXOPBLOCKS := 10
  const LOGSIZE := 30
  const WORDS := 256

  type Block = b: seq<int> | |b| == WORDS witness seq(WORDS, _ => 0)
  type Disk = seq<Block>
  datatype Write = Write(addr: int, data: Block)

  /** Where the log lies: the header at `start`, then `size - 1` blocks for data. */
  datatype Geometry = Geometry(start: int, size: int)

  predicate InLog(g: Geometry, a: int) {
    g.start <= a < g.start + g.size
  }

  predicate Fits(g: Geometry, d: Disk) {
    0 <= g.start && 1 <= g.size && g.start + g.size <= |d|
  }

  /** A block that the file system proper may own. */
  predicate IsHome(g: Geometry, d: Disk, a: int) {
    0 <= a < |d| && !InLog(g, a)
  }

  /** A list of home block numbers that a header can hold and the log has room for. */
  predicate GoodList(g: Geometry, d: Disk, lh: seq<int>) {
    |lh| <= LOGSIZE && |lh| < g.size && forall i :: 0 <= i < |lh| ==> IsHome(g, d, lh[i])
  }

  // ----- header block -----

  /** Only the count and the first |lh| entries are stored; the rest of the block stays. */
  function HeaderBlock(prior: Block, lh: seq<int>): Block
    requires |lh| <= LOGSIZE
  {
    [|lh|] + lh + prior[1 + |lh|..]
  }

  /** The block list recorded in the header on disk; a bad count yields the empty list. */
  function Head(g: Geometry, d: Disk): seq<int>
    requires Fits(g, d)
  {
    var h := d[g.start];
    if 0 <= h[0] <= LOGSIZE then h[1..1 + h[0]] else []
  }

  predicate GoodHead(g: Geometry, d: Disk) {
    Fits(g, d) && 0 <= d[g.start][0] <= LOGSIZE && GoodList(g, d, Head(g, d))
  }

  // ----- sequences of writes -----

  predicate InRange(d: Disk, ws: seq<Write>) {
    forall i :: 0 <= i < |ws| ==> 0 <= ws[i].addr < |d|
  }

  ghost function Apply(d: Disk, ws: seq<Write>): (e: Disk)
    requires InRange(d, ws)
    ensures |e| == |d|
    decreases |ws|
  {
    if ws == [] then d else Apply(d[ws[0].addr := ws[0].data], ws[1..])
  }

  predicate Touches(ws: seq<Write>, a: int) {
    exists i :: 0 <= i < |ws| && ws[i].addr == a
  }

  lemma {:induction false} ApplyUntouched(d: Disk, ws: seq<Write>, a: int)
    requires InRange(d, ws) && 0 <= a < |d| && !Touches(ws, a)
    ensures Apply(d, ws)[a] == d[a]
    decreases |ws|
  {
    if ws != [] {
      assert ws[0].addr != a;
      ApplyUntouched(d[ws[0].addr := ws[0].data], ws[1..], a);
    }
  }

  /** What is left at a touched block does not depend on what was there before. */
  lemma {:induction false} ApplyTouched(d: Disk, e: Disk, ws: seq<Write>, a: int)
    requires |d| == |e| && InRange(d, ws) && 0 <= a < |d| && Touches(ws, a)
    ensures Apply(d, ws)[a] == Apply(e, ws)[a]
    decreases |ws|
  {
    var d', e' := d[ws[0].addr := ws[0].data], e[ws[0].addr := ws[0].data];
    if Touches(ws[1..], a) {
      ApplyTouched(d', e', ws[1..], a);
    } else {
      assert ws[0].addr == a;
      ApplyUntouched(d', ws[1..], a);
      ApplyUntouched(e', ws[1..], a);
    }
  }

  lemma {:induction false} ApplyAppend(d: Disk, ws: seq<Write>, vs: seq<Write>)
    requires InRange(d, ws) && InRange(d, vs)
    ensures Apply(d, ws + vs) == Apply(Apply(d, ws), vs)
    decreases |ws|
  {
    if ws == [] {
      assert ws + vs == vs;
    } else {
      assert (ws + vs)[1..] == ws[1..] + vs;
      ApplyAppend(d[ws[0].addr := ws[0].data], ws[1..], vs);
    }
  }

  lemma ApplyNext(d: Disk, ws: seq<Write>, i: nat)
    requires InRange(d, ws) && i < |ws|
    ensures Apply(d, ws[..i + 1]) == Apply(d, ws[..i])[ws[i].addr := ws[i].data]
    ensures ws[..i + 1] == ws[..i] + [ws[i]]
  {
    assert ws[..i + 1] == ws[..i] + [ws[i]];
    ApplyAppend(d, ws[..i], [ws[i]]);
  }

  /** Redo after any part of the same writes has already reached the disk. */
  lemma RedoAfterPrefix(d: Disk, ws: seq<Write>, j: nat)
    requires InRange(d, ws) && j <= |ws|
    ensures Apply(Apply(d, ws[..j]), ws) == Apply(d, ws)
  {
    var e := Apply(d, ws[..j]);
    forall a | 0 <= a < |d| ensures Apply(e, ws)[a] == Apply(d, ws)[a] {
      if Touches(ws, a) {
        ApplyTouched(e, d, ws, a);
      } else {
        ApplyUntouched(e, ws, a);
        ApplyUntouched(d, ws, a);
        ApplyUntouched(d, ws[..j], a);
      }
    }
  }

  lemma {:induction false} ApplyLast(d: Disk, ws: seq<Write>, i: nat)
    requires InRange(d, ws) && i < |ws| && !Touches(ws[i + 1..], ws[i].addr)
    ensures Apply(d, ws)[ws[i].addr] == ws[i].data
    decreases |ws|
  {
    var d' := d[ws[0].addr := ws[0].data];
    if i == 0 {
      ApplyUntouched(d', ws[1..], ws[0].addr);
    } else {
      assert ws[1..][i..] == ws[i + 1..];
      ApplyLast(d', ws[1..], i - 1);
    }
  }

  /** When each block number always receives the same contents, the order is immaterial. */
  lemma {:induction false} ApplyConsistent(d: Disk, ws: seq<Write>, mem: map<int, Block>, a: int)
    requires InRange(d, ws) && 0 <= a < |d|
    requires forall i :: 0 <= i < |ws| ==> ws[i].addr in mem && ws[i].data == mem[ws[i].addr]
    ensures Apply(d, ws)[a] == if Touches(ws, a) then mem[a] else d[a]
    decreases |ws|
  {
    if ws != [] {
      var d' := d[ws[0].addr := ws[0].data];
      ApplyConsistent(d', ws[1..], mem, a);
      assert Touches(ws, a) <==> ws[0].addr == a || Touches(ws[1..], a);
    }
  }

  // ----- the writes of commit and of recovery, in order -----

  function WriteLogPlan(g: Geometry, lh: seq<int>, mem: map<int, Block>): (ws: seq<Write>)
    requires forall i :: 0 <= i < |lh| ==> lh[i] in mem
  {
    seq(|lh|, i requires 0 <= i < |lh| => Write(g.start + 1 + i, mem[lh[i]]))
  }

  function InstallPlan(g: Geometry, d: Disk, lh: seq<int>): (ws: seq<Write>)
    requires Fits(g, d) && |lh| < g.size
  {
    seq(|lh|, i requires 0 <= i < |lh| => Write(lh[i], d[g.start + 1 + i]))
  }

  function HeadWrite(g: Geometry, d: Disk, lh: seq<int>): Write
    requires Fits(g, d) && |lh| <= LOGSIZE
  {
    Write(g.start, HeaderBlock(d[g.start], lh))
  }

  function RecoveryPlan(g: Geometry, d: Disk): seq<Write>
    requires GoodHead(g, d)
  {
    InstallPlan(g, d, Head(g, d)) + [HeadWrite(g, d, [])]
  }

  ghost function Recover(g: Geometry, d: Disk): (e: Disk)
    requires GoodHead(g, d)
    ensures |e| == |d|
  {
    Apply(d, RecoveryPlan(g, d))
  }

  /** Log blocks and header: everything up to and including the commit point. */
  ghost function CommitPrefix(g: Geometry, d: Disk, lh: seq<int>, mem: map<int, Block>): seq<Write>
    requires Fits(g, d) && GoodList(g, d, lh) && forall i :: 0 <= i < |lh| ==> lh[i] in mem
  {
    WriteLogPlan(g, lh, mem) + [HeadWrite(g, d, lh)]
  }

  /** All the writes of commit; an empty transaction writes nothing. */
  ghost function CommitPlan(g: Geometry, d: Disk, lh: seq<int>, mem: map<int, Block>): (ws: seq<Write>)
    requires Fits(g, d) && GoodList(g, d, lh) && forall i :: 0 <= i < |lh| ==> lh[i] in mem
    ensures InRange(d, ws)
    ensures |ws| == if lh == [] then 0 else 2 * |lh| + 2
  {
    if lh == [] then [] else
      var d1 := Apply(d, CommitPrefix(g, d, lh, mem));
      CommitPrefix(g, d, lh, mem) + InstallPlan(g, d1, lh) + [HeadWrite(g, d1, [])]
  }

  /** Commit as its four parts, with the headers read back from the disk of the moment. */
  lemma CommitInParts(g: Geometry, d: Disk, lh: seq<int>, mem: map<int, Block>)
    requires Fits(g, d) && GoodList(g, d, lh) && lh != [] && forall i :: 0 <= i < |lh| ==> lh[i] in mem
    ensures var ws := WriteLogPlan(g, lh, mem);
            var e := Apply(d, ws);
            var d1 := e[g.start := HeadWrite(g, e, lh).data];
            var ins := InstallPlan(g, d1, lh);
            var e1 := Apply(d1, ins);
            && HeadWrite(g, e, lh) == HeadWrite(g, d, lh)
            && HeadWrite(g, e1, []) == HeadWrite(g, d1, [])
            && CommitPlan(g, d, lh, mem) == ws + [HeadWrite(g, e, lh)] + ins + [HeadWrite(g, e1, [])]
            && Apply(d, CommitPlan(g, d, lh, mem)) == e1[g.start := HeadWrite(g, e1, []).data]
  {
    var ws := WriteLogPlan(g, lh, mem);
    var e := Apply(d, ws);
    ApplyUntouched(d, ws, g.start);
    var d1 := e[g.start := HeadWrite(g, e, lh).data];
    ApplyAppend(d, ws, [HeadWrite(g, e, lh)]);
    assert d1 == Apply(d, CommitPrefix(g, d, lh, mem));
    var ins := InstallPlan(g, d1, lh);
    ApplyUntouched(d1, ins, g.start);
    ApplyAppend(d, CommitPrefix(g, d, lh, mem), ins);
    ApplyAppend(d, CommitPrefix(g, d, lh, mem) + ins, [HeadWrite(g, d1, [])]);
  }

  /** The disk after power was lost during recovery |js| times, the i-th time after js[i] writes. */
  ghost function CrashedRecoveries(g: Geometry, d: Disk, js: seq<nat>): (e: Disk)
    requires GoodHead(g, d)
    ensures |e| == |d| && GoodHead(g, e)
    decreases |js|
  {
    if js == [] then d else
      var plan := RecoveryPlan(g, d);
      var j := if js[0] <= |plan| then js[0] else |plan|;
      InterruptedRecovery(g, d, j);
      CrashedRecoveries(g, Apply(d, plan[..j]), js[1..])
  }

  ghost predicate SameHome(g: Geometry, d: Disk, e: Disk) {
    |d| == |e| && forall a :: IsHome(g, d, a) ==> d[a] == e[a]
  }

  // ----- recovery -----

  /** Installing any prefix leaves the log itself alone, so recovery still has the same plan. */
  lemma InstallKeepsPlan(g: Geometry, d: Disk, j: nat)
    requires GoodHead(g, d) && j <= |Head(g, d)|
    ensures var e := Apply(d, RecoveryPlan(g, d)[..j]);
            GoodHead(g, e) && RecoveryPlan(g, e) == RecoveryPlan(g, d)
  {
    var plan := RecoveryPlan(g, d);
    var e := Apply(d, plan[..j]);
    forall a | InLog(g, a) ensures e[a] == d[a] {
      ApplyUntouched(d, plan[..j], a);
    }
    assert Head(g, e) == Head(g, d);
    assert InstallPlan(g, e, Head(g, e)) == InstallPlan(g, d, Head(g, d));
  }

  lemma RecoverClearsHead(g: Geometry, d: Disk)
    requires GoodHead(g, d)
    ensures GoodHead(g, Recover(g, d)) && Head(g, Recover(g, d)) == []
  {
    ApplyAppend(d, InstallPlan(g, d, Head(g, d)), [HeadWrite(g, d, [])]);
  }

  lemma EmptyRecovery(g: Geometry, d: Disk)
    requires GoodHead(g, d) && Head(g, d) == []
    ensures SameHome(g, Recover(g, d), d)
  {
    var plan := RecoveryPlan(g, d);
    assert plan == [HeadWrite(g, d, [])];
    forall a | IsHome(g, d, a) ensures Apply(d, plan)[a] == d[a] {
      ApplyUntouched(d, plan, a);
    }
  }

  /** A recovery cut short at any write, then run again, recovers the same home blocks. */
  lemma InterruptedRecovery(g: Geometry, d: Disk, j: nat)
    requires GoodHead(g, d) && j <= |RecoveryPlan(g, d)|
    ensures var e := Apply(d, RecoveryPlan(g, d)[..j]);
            GoodHead(g, e) && SameHome(g, Recover(g, e), Recover(g, d))
  {
    var plan := RecoveryPlan(g, d);
    var e := Apply(d, plan[..j]);
    if j < |plan| {
      InstallKeepsPlan(g, d, j);
      RedoAfterPrefix(d, plan, j);
    } else {
      assert plan[..j] == plan;
      RecoverClearsHead(g, d);
      EmptyRecovery(g, e);
    }
  }

  lemma {:induction false} RecoveryIsIdempotent(g: Geometry, d: Disk, js: seq<nat>)
    requires GoodHead(g, d)
    ensures SameHome(g, Recover(g, CrashedRecoveries(g, d, js)), Recover(g, d))
    ensures Head(g, Recover(g, CrashedRecoveries(g, d, js))) == []
    decreases |js|
  {
    RecoverClearsHead(g, CrashedRecoveries(g, d, js));
    if js != [] {
      var plan := RecoveryPlan(g, d);
      var j := if js[0] <= |plan| then js[0] else |plan|;
      InterruptedRecovery(g, d, j);
      RecoveryIsIdempotent(g, Apply(d, plan[..j]), js[1..]);
    }
  }

  // ----- commit -----

  /** The home blocks after a whole transaction. */
  function Updated(d: Disk, mem: map<int, Block>): (e: Disk)
    ensures |e| == |d|
    ensures forall a :: 0 <= a < |d| ==> e[a] == if a in mem then mem[a] else d[a]
  {
    seq(|d|, a requires 0 <= a < |d| => if a in mem then mem[a] else d[a])
  }

  /** Before the header is written the old state is recovered, for any part of the log writes. */
  lemma CrashBeforeHeader(g: Geometry, d: Disk, lh: seq<int>, mem: map<int, Block>, k: nat)
    requires GoodHead(g, d) && Head(g, d) == [] && GoodList(g, d, lh)
    requires forall i :: 0 <= i < |lh| ==> lh[i] in mem
    requires k <= |lh|
    ensures var e := Apply(d, CommitPlan(g, d, lh, mem)[..k]);
            GoodHead(g, e) && SameHome(g, Recover(g, e), d)
  {
    if lh == [] {
      assert CommitPlan(g, d, lh, mem)[..k] == [];
      EmptyRecovery(g, d);
      return;
    }
    var ws := CommitPlan(g, d, lh, mem)[..k];
    assert ws == WriteLogPlan(g, lh, mem)[..k];
    var e := Apply(d, ws);
    forall a | 0 <= a < |d| && (a == g.start || !InLog(g, a)) ensures e[a] == d[a] {
      ApplyUntouched(d, ws, a);
    }
    EmptyRecovery(g, e);
  }

  /** Once the header is written the log holds exactly the transaction. */
  lemma HeaderCommits(g: Geometry, d: Disk, lh: seq<int>, mem: map<int, Block>)
    requires GoodHead(g, d) && GoodList(g, d, lh)
    requires forall i :: 0 <= i < |lh| ==> lh[i] in mem
    ensures var d1 := Apply(d, CommitPrefix(g, d, lh, mem));
            && GoodHead(g, d1) && Head(g, d1) == lh && SameHome(g, d1, d)
            && forall i :: 0 <= i < |lh| ==> d1[g.start + 1 + i] == mem[lh[i]]
  {
    var ws := WriteLogPlan(g, lh, mem);
    var e := Apply(d, ws);
    var d1 := Apply(d, CommitPrefix(g, d, lh, mem));
    ApplyAppend(d, ws, [HeadWrite(g, d, lh)]);
    assert d1 == e[g.start := HeaderBlock(d[g.start], lh)];
    forall a | 0 <= a < |d| && (a == g.start || !InLog(g, a)) ensures e[a] == d[a] {
      ApplyUntouched(d, ws, a);
    }
    forall i | 0 <= i < |lh| ensures e[g.start + 1 + i] == mem[lh[i]] {
      ApplyLast(d, ws, i);
    }
    assert HeaderBlock(d[g.start], lh)[1..1 + |lh|] == lh;
  }

  /** The blocks a commit writes, in order: log slots, header, home blocks, header. */
  lemma PlanAt(g: Geometry, d: Disk, lh: seq<int>, mem: map<int, Block>, i: nat)
    requires GoodHead(g, d) && GoodList(g, d, lh) && forall j :: 0 <= j < |lh| ==> lh[j] in mem
    requires i < |CommitPlan(g, d, lh, mem)|
    ensures var w, n := CommitPlan(g, d, lh, mem)[i], |lh|;
            && (i < n ==> w == Write(g.start + 1 + i, mem[lh[i]]))
            && (n < i <= 2 * n ==> w == Write(lh[i - n - 1], mem[lh[i - n - 1]]))
            && (i == n || i == 2 * n + 1 ==> w.addr == g.start)
  {
    HeaderCommits(g, d, lh, mem);
    var d1 := Apply(d, CommitPrefix(g, d, lh, mem));
    assert |lh| < i <= 2 * |lh| ==> CommitPlan(g, d, lh, mem)[i] == InstallPlan(g, d1, lh)[i - |lh| - 1];
  }

  /** From the header write on until the log is cleared, a log slot on disk holds what was logged. */
  lemma SlotAfterHeader(g: Geometry, d: Disk, lh: seq<int>, mem: map<int, Block>, k: nat, j: nat)
    requires GoodHead(g, d) && GoodList(g, d, lh) && forall i :: 0 <= i < |lh| ==> lh[i] in mem
    requires |lh| < k <= 2 * |lh| + 1 && j < |lh|
    ensures Apply(d, CommitPlan(g, d, lh, mem)[..k])[g.start + 1 + j] == mem[lh[j]]
  {
    var pre := CommitPrefix(g, d, lh, mem);
    HeaderCommits(g, d, lh, mem);
    var d1 := Apply(d, pre);
    var ins := InstallPlan(g, d1, lh)[..k - |lh| - 1];
    assert CommitPlan(g, d, lh, mem)[..k] == pre + ins;
    ApplyAppend(d, pre, ins);
    ApplyUntouched(d1, ins, g.start + 1 + j);
  }

  /** So install_trans finds in its log slot what is to be written next. */
  lemma InstallCopies(g: Geometry, d: Disk, lh: seq<int>, mem: map<int, Block>, k: nat, a: nat)
    requires GoodHead(g, d) && GoodList(g, d, lh) && forall i :: 0 <= i < |lh| ==> lh[i] in mem
    requires |lh| < k <= 2 * |lh| && a == g.start + k - |lh|
    ensures var plan := CommitPlan(g, d, lh, mem);
            a < |d| && k < |plan| && plan[k].data == Apply(d, plan[..k])[a]
  {
    var j := k - |lh| - 1;
    PlanAt(g, d, lh, mem, k);
    SlotAfterHeader(g, d, lh, mem, k, j);
    assert g.start + 1 + j == a;
  }

  /** A full recovery of a committed transaction installs all of it. */
  lemma RecoverInstalls(g: Geometry, d1: Disk, d: Disk, lh: seq<int>, mem: map<int, Block>)
    requires GoodHead(g, d1) && Head(g, d1) == lh && SameHome(g, d1, d)
    requires forall i :: 0 <= i < |lh| ==> lh[i] in mem && d1[g.start + 1 + i] == mem[lh[i]]
    requires mem.Keys == set b | b in lh
    ensures SameHome(g, Recover(g, d1), Updated(d, mem))
  {
    var ws := InstallPlan(g, d1, lh);
    ApplyAppend(d1, ws, [HeadWrite(g, d1, [])]);
    forall a | IsHome(g, d1, a) ensures Recover(g, d1)[a] == Updated(d, mem)[a] {
      ApplyConsistent(d1, ws, mem, a);
      if a in mem {
        var i :| 0 <= i < |lh| && lh[i] == a;
        assert ws[i].addr == a;
      }
    }
  }

  /**
    Crash atomicity. Commit is cut off after k writes, recovery is cut off any number of times,
    and then completes: the home blocks are those from before the transaction when the header
    had not been written, and those of the whole transaction when it had.
   */
  lemma CrashAtomicity(g: Geometry, d: Disk, lh: seq<int>, mem: map<int, Block>, k: nat, js: seq<nat>)
    requires GoodHead(g, d) && Head(g, d) == [] && GoodList(g, d, lh)
    requires mem.Keys == set b | b in lh
    requires k <= |CommitPlan(g, d, lh, mem)|
    ensures var e := Apply(d, CommitPlan(g, d, lh, mem)[..k]);
            && GoodHead(g, e)
            && var r := Recover(g, CrashedRecoveries(g, e, js));
            && GoodHead(g, r) && Head(g, r) == []
            && SameHome(g, r, if k <= |lh| then d else Updated(d, mem))
  {
    var plan := CommitPlan(g, d, lh, mem);
    var e := Apply(d, plan[..k]);
    if k <= |lh| {
      CrashBeforeHeader(g, d, lh, mem, k);
    } else {
      AfterHeader(g, d, lh, mem, k);
    }
    RecoveryIsIdempotent(g, e, js);
    RecoverClearsHead(g, CrashedRecoveries(g, e, js));
  }

  lemma CommitEndsLikeRecovery(g: Geometry, d: Disk, lh: seq<int>, mem: map<int, Block>)
    requires GoodHead(g, d) && GoodList(g, d, lh) && lh != []
    requires forall i :: 0 <= i < |lh| ==> lh[i] in mem
    ensures var d1 := Apply(d, CommitPrefix(g, d, lh, mem));
            GoodHead(g, d1) && CommitPlan(g, d, lh, mem) == CommitPrefix(g, d, lh, mem) + RecoveryPlan(g, d1)
  {
    HeaderCommits(g, d, lh, mem);
  }

  /** After the header, commit does what recovery would do. */
  lemma AfterHeaderPlan(g: Geometry, d: Disk, lh: seq<int>, mem: map<int, Block>, k: nat)
    requires GoodHead(g, d) && GoodList(g, d, lh) && lh != []
    requires forall i :: 0 <= i < |lh| ==> lh[i] in mem
    requires |lh| < k <= |CommitPlan(g, d, lh, mem)|
    ensures var d1 := Apply(d, CommitPrefix(g, d, lh, mem));
            && GoodHead(g, d1) && |RecoveryPlan(g, d1)| == |lh| + 1
            && Apply(d, CommitPlan(g, d, lh, mem)[..k]) == Apply(d1, RecoveryPlan(g, d1)[..k - |lh| - 1])
  {
    CommitEndsLikeRecovery(g, d, lh, mem);
    var pre := CommitPrefix(g, d, lh, mem);
    var redo := RecoveryPlan(g, Apply(d, pre));
    var j := k - |lh| - 1;
    assert (pre + redo)[..k] == pre + redo[..j];
    ApplyAppend(d, pre, redo[..j]);
  }

  lemma AfterHeader(g: Geometry, d: Disk, lh: seq<int>, mem: map<int, Block>, k: nat)
    requires GoodHead(g, d) && GoodList(g, d, lh) && lh != []
    requires mem.Keys == set b | b in lh
    requires |lh| < k <= |CommitPlan(g, d, lh, mem)|
    ensures var e := Apply(d, CommitPlan(g, d, lh, mem)[..k]);
            && GoodHead(g, e) && SameHome(g, Recover(g, e), Updated(d, mem))
            && (k == |CommitPlan(g, d, lh, mem)| ==> Head(g, e) == [] && SameHome(g, e, Updated(d, mem)))
  {
    var d1 := Apply(d, CommitPrefix(g, d, lh, mem));
    AfterHeaderPlan(g, d, lh, mem, k);
    assert SameHome(g, Recover(g, d1), Updated(d, mem)) by {
      HeaderCommits(g, d, lh, mem);
      RecoverInstalls(g, d1, d, lh, mem);
    }
    InterruptedRecovery(g, d1, k - |lh| - 1);
    if k == |CommitPlan(g, d, lh, mem)| {
      assert RecoveryPlan(g, d1)[..|lh| + 1] == RecoveryPlan(g, d1);
      RecoverClearsHead(g, d1);
    }
  }
}
