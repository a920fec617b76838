/**
 * The request protocol between virtio_disk_rw, virtio_disk_intr and the device: descriptors, the two rings with
 * their 16-bit indices, completion in any order, and the hand-back of buffers.
 */
module VirtioRing {

  import opened Options
  import opened VirtioDesc

  const BSIZE := 1024
  const WRAP := 65536

  // One request as the driver was asked for it: the buffer, the disk block, the direction, and the buffer's contents
  // then.
  datatype Req<T> = Req(buf: nat, block: nat, write: bool, was: T)

  datatype Op = Op(write: bool, block: nat)

  // How far a request has come.
  datatype Stage = Filled | Queued | Taken | Done(n: nat) | Seen

  // A request's three descriptors; id numbers the requests in the order they were submitted.
  datatype Chain<T> = Chain(i1: nat, i2: nat, req: Req<T>, id: nat, stage: Stage)

  // What the device did for a request, and the block it moved.
  datatype Xfer<T> = Xfer(buf: nat, block: nat, write: bool, data: T)

  /**
   * The first line is the driver's memory, the second the two rings, the third the device, the fourth the disk and the
   * buffers. The rest is history: the requests in progress, the owner of each descriptor, the heads in order of
   * submission and of completion, how many of each were consumed, and what was done for each finished request.
   */
  datatype State<T> = State(
    free: seq<bool>, desc: seq<Desc>, ops: seq<Op>, info: seq<Option<nat>>, status: seq<nat>, pending: Option<nat>,
    avail: seq<nat>, availIdx: nat, used: seq<nat>, usedIdx: nat, usedSeen: nat,
    devIdx: nat, devHas: set<nat>,
    disk: seq<T>, data: seq<T>, busy: set<nat>, waiting: map<nat, nat>, fault: bool,
    chains: map<nat, Chain<T>>, owner: map<nat, nat>, heads: seq<nat>, devN: nat, done: seq<nat>, seenN: nat,
    finished: map<nat, Xfer<T>>)

  datatype Step<T> =
    | Prepare(b: nat, block: nat, write: bool, i0: nat, i1: nat, i2: nat)
    | Publish
    | Touch(b: nat, x: T)
    | DevTake
    | DevFinish(h: nat)
    | Intr
    | Return(b: nat)

  function SetStage<T>(chains: map<nat, Chain<T>>, h: nat, g: Stage): map<nat, Chain<T>>
  {
    if h in chains then chains[h := chains[h].(stage := g)] else chains
  }

  // The three descriptors of a request.
  function HeaderDesc(i0: nat, i1: nat): Desc { Desc(Header(i0), 16, F_NEXT, i1) }

  function DataDesc(b: nat, write: bool,
                    i2: nat): Desc { Desc(Data(b), BSIZE, (if write then 0 else F_WRITE) + F_NEXT, i2) }

  function StatusDesc(i0: nat): Desc { Desc(Status(i0), 1, F_WRITE, 0) }

  /**
    virtio_disk_rw up to the ring slot. The caller holds the buffer's lock, so the buffer has no request in
    progress.
   */
  ghost predicate PrepareStep<T>(s: State<T>, s': State<T>, b: nat, block: nat, write: bool, i0: nat, i1: nat,
                                 i2: nat) {
    && s.pending.None? && b !in s.waiting && b < |s.data| && block < |s.disk|
    && Took3(s.free, i0, i1, i2, s'.free) && i0 < |s.ops| && |s.desc| == |s.free| && i0 < |s.info| && i0 < |s.status|
    && |s.avail| == NUM
    && s' == s.(free := s'.free,
                ops := s.ops[i0 := Op(write, block)],
                desc := s.desc[i0 := HeaderDesc(i0, i1)][i1 := DataDesc(b, write, i2)][i2 := StatusDesc(i0)],
                status := s.status[i0 := 255],
                info := s.info[i0 := Some(b)],
                busy := s.busy + {b},
                avail := s.avail[s.availIdx % NUM := i0],
                pending := Some(i0),
                waiting := s.waiting[b := i0],
                chains := s.chains[i0 := Chain(i1, i2, Req(b, block, write, s.data[b]), |s.heads|, Filled)],
                owner := s.owner[i0 := i0][i1 := i0][i2 := i0])
  }

  ghost predicate PublishStep<T>(s: State<T>, s': State<T>) {
    && s.pending.Some?
    && s' == s.(availIdx := (s.availIdx + 1) % WRAP, pending := None, heads := s.heads + [s.pending.value],
                chains := SetStage(s.chains, s.pending.value, Queued))
  }

  ghost predicate TouchStep<T>(s: State<T>, s': State<T>, b: nat, x: T) {
    b !in s.waiting && b < |s.data| && s' == s.(data := s.data[b := x])
  }

  ghost predicate DevTakeStep<T>(s: State<T>, s': State<T>) {
    && s.devIdx != s.availIdx && |s.avail| == NUM
    && var h := s.avail[s.devIdx % NUM];
       s' == s.(devHas := s.devHas + {h}, devIdx := (s.devIdx + 1) % WRAP, devN := s.devN + 1,
                chains := SetStage(s.chains, h, Taken))
  }

  /**
    The request a chain of descriptors spells: header, data, status (VIRTIO 1.1, section 5.2.6), with the flags
    the device relies on.
   */
  function Spelled<T>(s: State<T>, h: nat): Option<Xfer<T>>
  {
    if && h < |s.desc| && HasNext(s.desc[h]) && !DeviceWrites(s.desc[h])
       && s.desc[h].addr.Header? && s.desc[h].addr.op < |s.ops| then
      var i1, op := s.desc[h].next, s.ops[s.desc[h].addr.op];
      if && i1 < |s.desc| && HasNext(s.desc[i1]) && DeviceWrites(s.desc[i1]) == !op.write && s.desc[i1].addr.Data?
         && s.desc[i1].len == BSIZE && s.desc[i1].addr.buf < |s.data| && op.block < |s.disk| then
        var i2, b := s.desc[i1].next, s.desc[i1].addr.buf;
        if && i2 < |s.desc| && !HasNext(s.desc[i2]) && DeviceWrites(s.desc[i2])
           && s.desc[i2].addr == Status(h) && h < |s.status| then
          Some(Xfer(b, op.block, op.write, if op.write then s.data[b] else s.disk[op.block]))
        else None
      else None
    else None
  }

  /** The device carries out any request it has taken, in any order; a chain that spells no request is a fault. */
  ghost predicate DevFinishStep<T>(s: State<T>, s': State<T>, h: nat) {
    && h in s.devHas
    && match Spelled(s, h)
       case None => s' == s.(fault := true)
       case Some(x) =>
         && x.block < |s.disk| && x.buf < |s.data| && h < |s.status| && |s.used| == NUM && h in s.chains
         && s' == s.(disk := if x.write then s.disk[x.block := x.data] else s.disk,
                     data := if x.write then s.data else s.data[x.buf := x.data],
                     status := s.status[h := 0],
                     used := s.used[s.usedIdx % NUM := h],
                     usedIdx := (s.usedIdx + 1) % WRAP,
                     devHas := s.devHas - {h},
                     chains := SetStage(s.chains, h, Done(|s.done|)),
                     done := s.done + [h],
                     finished := s.finished[s.chains[h].id := x])
  }

  /** One turn of the loop of virtio_disk_intr, under the lock; a bad status or an id without a buffer is a fault. */
  ghost predicate IntrStep<T>(s: State<T>, s': State<T>) {
    && s.pending.None? && s.usedSeen != s.usedIdx && |s.used| == NUM
    && var id := s.used[s.usedSeen % NUM];
       if id < |s.status| && s.status[id] == 0 && id < |s.info| && s.info[id].Some? then
         s' == s.(busy := s.busy - {s.info[id].value}, usedSeen := (s.usedSeen + 1) % WRAP, seenN := s.seenN + 1,
                  chains := SetStage(s.chains, id, Seen))
       else
         s' == s.(fault := true)
  }

  /** The end of virtio_disk_rw once the buffer is no longer marked; a chain that free_chain would refuse is a fault. */
  ghost predicate ReturnStep<T>(s: State<T>, s': State<T>, b: nat) {
    && s.pending.None? && b in s.waiting && b !in s.busy && s.waiting[b] in s.chains
    && var h := s.waiting[b];
       var i1, i2 := s.chains[h].i1, s.chains[h].i2;
       if ChainOf3(s.free, s.desc, h, i1, i2) && h < |s.info| then
         s' == s.(info := s.info[h := None],
                  free := s.free[h := true][i1 := true][i2 := true],
                  desc := s.desc[h := CLEAR][i1 := CLEAR][i2 := CLEAR],
                  waiting := s.waiting - {b}, chains := s.chains - {h}, owner := s.owner - {h, i1, i2})
       else
         s' == s.(fault := true)
  }

  ghost predicate Next<T>(s: State<T>, s': State<T>, e: Step<T>) {
    match e
    case Prepare(b, block, write, i0, i1, i2) => PrepareStep(s, s', b, block, write, i0, i1, i2)
    case Publish => PublishStep(s, s')
    case Touch(b, x) => TouchStep(s, s', b, x)
    case DevTake => DevTakeStep(s, s')
    case DevFinish(h) => DevFinishStep(s, s', h)
    case Intr => IntrStep(s, s')
    case Return(b) => ReturnStep(s, s', b)
  }

  ghost predicate Init<T>(s: State<T>) {
    && |s.free| == NUM && |s.desc| == NUM && |s.ops| == NUM && |s.info| == NUM && |s.status| == NUM
    && |s.avail| == NUM && |s.used| == NUM
    && (forall i :: 0 <= i < NUM ==> s.free[i])
    && s.pending.None? && s.availIdx == 0 && s.usedIdx == 0 && s.usedSeen == 0 && s.devIdx == 0 && s.devHas == {}
    && s.busy == {} && s.waiting == map[] && !s.fault
    && s.chains == map[] && s.owner == map[] && s.heads == [] && s.devN == 0 && s.done == [] && s.seenN == 0
    && s.finished == map[]
  }

  ghost predicate Run<T>(ss: seq<State<T>>, es: seq<Step<T>>) {
    && |ss| == |es| + 1 && Init(ss[0])
    && forall i :: 0 <= i < |es| ==> Next(ss[i], ss[i + 1], es[i])
  }

  // ---------------------------------------------------------------- the invariant

  ghost predicate Shape<T>(s: State<T>) {
    && |s.free| == NUM && |s.desc| == NUM && |s.ops| == NUM && |s.info| == NUM && |s.status| == NUM
    && |s.avail| == NUM && |s.used| == NUM && !s.fault
  }

  /**
    The 16-bit indices are the histories' lengths, wrapped; the consumers are behind the producers by at most a
    ring.
   */
  ghost predicate Counts<T>(s: State<T>) {
    && s.availIdx == |s.heads| % WRAP && s.devIdx == s.devN % WRAP && s.usedIdx == |s.done| % WRAP
    && s.usedSeen == s.seenN % WRAP
    && s.devN <= |s.heads| && s.seenN <= |s.done|
    && |s.heads| + (if s.pending.Some? then 1 else 0) <= s.devN + NUM && |s.done| <= s.seenN + NUM
  }

  /** A chain owns its three descriptors, and they spell its request. */
  ghost predicate Links<T>(s: State<T>, h: nat, c: Chain<T>)
    requires Shape(s)
  {
    && h < NUM && c.i1 < NUM && c.i2 < NUM && h != c.i1 && h != c.i2 && c.i1 != c.i2
    && h in s.owner && c.i1 in s.owner && c.i2 in s.owner && s.owner[h] == h && s.owner[c.i1] == h && s.owner[c.i2] == h
    && s.desc[h] == HeaderDesc(h, c.i1) && s.desc[c.i1] == DataDesc(c.req.buf, c.req.write, c.i2)
    && s.desc[c.i2] == StatusDesc(h)
    && s.ops[h] == Op(c.req.write, c.req.block) && s.info[h] == Some(c.req.buf)
    && c.req.buf < |s.data| && c.req.block < |s.disk| && c.req.buf in s.waiting && s.waiting[c.req.buf] == h
  }

  predicate Over<T>(c: Chain<T>) { c.stage.Done? || c.stage.Seen? }

  /** Where a chain is agrees with the rings, with the buffer's mark and with what was done for it. */
  ghost predicate Placed<T>(s: State<T>, h: nat, c: Chain<T>)
    requires Shape(s) && h < NUM && c.req.buf < |s.data|
  {
    && (if c.stage.Filled? then s.pending == Some(h) && c.id == |s.heads| else c.id < |s.heads| && s.heads[c.id] == h)
    && (c.stage.Queued? <==> s.devN <= c.id < |s.heads|)
    && (c.stage.Taken? <==> h in s.devHas)
    && (c.stage.Done? ==> s.seenN <= c.stage.n < |s.done| && s.done[c.stage.n] == h)
    && (c.stage.Done? ==> s.status[h] == 0)
    && (c.req.buf in s.busy <==> !c.stage.Seen?)
    && (Over(c) <==> c.id in s.finished)
    && (Over(c) ==> Accomplished(s.finished[c.id], c.req) && s.data[c.req.buf] == s.finished[c.id].data)
    && (!Over(c) ==> s.data[c.req.buf] == c.req.was)
  }

  /** The device moved the right block between the right places; what it wrote is what the buffer held at submission. */
  ghost predicate Accomplished<T>(x: Xfer<T>, r: Req<T>) {
    x.buf == r.buf && x.block == r.block && x.write == r.write && (x.write ==> x.data == r.was)
  }

  ghost predicate ChainOk<T>(s: State<T>, h: nat) {
    Shape(s) && (h in s.chains ==> Links(s, h, s.chains[h]) && Placed(s, h, s.chains[h]))
  }

  /** An entry of the avail ring that the device has not consumed, or that is about to be published. */
  ghost predicate QueueOk<T>(s: State<T>, n: nat) {
    Shape(s) && (s.devN <= n < |s.heads| ==>
      s.avail[n % NUM] == s.heads[n] && s.heads[n] in s.chains && s.chains[s.heads[n]].id == n)
  }

  ghost predicate PendingOk<T>(s: State<T>) {
    Shape(s) && (s.pending.Some? ==>
      var h := s.pending.value; s.avail[|s.heads| % NUM] == h && h in s.chains && s.chains[h].stage.Filled?)
  }

  /** An entry of the used ring that the driver has not consumed. */
  ghost predicate UsedOk<T>(s: State<T>, n: nat) {
    Shape(s) && (s.seenN <= n < |s.done| ==>
      s.used[n % NUM] == s.done[n] && s.done[n] in s.chains && s.chains[s.done[n]].stage == Done(n))
  }

  /** A descriptor is free or belongs to exactly one chain. */
  ghost predicate OwnerOk<T>(s: State<T>, i: nat) {
    Shape(s) && (i < NUM ==>
      && (s.free[i] <==> i !in s.owner)
      && (i in s.owner ==>
             s.owner[i] in s.chains && var c := s.chains[s.owner[i]]; i == s.owner[i] || i == c.i1 || i == c.i2))
  }

  ghost predicate WaitOk<T>(s: State<T>, b: nat) {
    && (b in s.waiting ==> s.waiting[b] in s.chains && s.chains[s.waiting[b]].req.buf == b)
    && (b in s.busy ==> b in s.waiting)
  }

  ghost predicate DevOk<T>(s: State<T>, h: nat) {
    h in s.devHas ==> h in s.chains
  }

  ghost predicate FinishedOk<T>(s: State<T>, id: nat) {
    id in s.finished ==> id < |s.heads|
  }

  ghost predicate Inv<T>(s: State<T>) {
    && Shape(s) && Counts(s) && PendingOk(s)
    && (forall h: nat {:trigger ChainOk(s, h)} :: ChainOk(s, h))
    && (forall n: nat {:trigger QueueOk(s, n)} :: QueueOk(s, n))
    && (forall n: nat {:trigger UsedOk(s, n)} :: UsedOk(s, n))
    && (forall i: nat {:trigger OwnerOk(s, i)} :: OwnerOk(s, i))
    && (forall b: nat {:trigger WaitOk(s, b)} :: WaitOk(s, b))
    && (forall h: nat {:trigger DevOk(s, h)} :: DevOk(s, h))
    && (forall id: nat {:trigger FinishedOk(s, id)} :: FinishedOk(s, id))
  }

  lemma InitInv<T>(s: State<T>)
    requires Init(s)
    ensures Inv(s)
  {}

  // ---------------------------------------------------------------- arithmetic of the rings

  lemma ModUnique(n: int, k: nat, q: int, r: int)
    requires (k == WRAP || k == NUM) && n == k * q + r && 0 <= r < k
    ensures n % k == r
  {
    var q', r' := n / k, n % k;
    assert n == k * q' + r' && 0 <= r' < k;
    assert q' == q;
  }

  lemma ModIs(n: nat, q: nat, r: nat)
    requires n == WRAP * q + r && r < WRAP
    ensures n % WRAP == r && n % NUM == r % NUM
  {
    ModUnique(n, WRAP, q, r);
    ModUnique(n, NUM, 8192 * q + r / NUM, r % NUM);
  }

  lemma WrapNext(n: nat)
    ensures (n % WRAP + 1) % WRAP == (n + 1) % WRAP && n % WRAP % NUM == n % NUM
  {
    var q, r := n / WRAP, n % WRAP;
    ModIs(n, q, r);
    if r + 1 < WRAP {
      ModIs(n + 1, q, r + 1);
    } else {
      ModIs(n + 1, q + 1, 0);
    }
  }

  lemma WrapDiffers(m: nat, n: nat)
    requires m <= n <= m + NUM
    ensures m % WRAP == n % WRAP ==> m == n
  {}

  lemma SlotsDiffer(m: nat, n: nat)
    requires m < n < m + NUM
    ensures m % NUM != n % NUM
  {}

  predicate Apart(w: seq<nat>) { forall i, j :: 0 <= i < j < |w| ==> w[i] != w[j] }

  /** Distinct numbers below k are at most k many. */
  lemma {:induction false} Pigeonhole(w: seq<nat>, k: nat)
    requires Apart(w) && forall i :: 0 <= i < |w| ==> w[i] < k
    ensures |w| <= k
    decreases k
  {
    if |w| == 0 {
    } else if j :| 0 <= j < |w| && w[j] == k - 1 {
      Pigeonhole(w[..j] + w[j + 1..], k - 1);
    } else {
      assert w[0] < k;
      Pigeonhole(w, k - 1);
    }
  }

  /** A head that is in no window entry leaves the window a free slot. */
  lemma Room(w: seq<nat>, x: nat)
    requires Apart(w) && x < NUM && forall i :: 0 <= i < |w| ==> w[i] < NUM && w[i] != x
    ensures |w| < NUM
  {
    Pigeonhole(w + [x], NUM);
  }

  /** The heads waiting in the avail ring are distinct chains, so a free descriptor leaves room for one more. */
  lemma AvailRoom<T>(s: State<T>, x: nat)
    requires Inv(s) && x < NUM && s.free[x]
    ensures |s.heads| < s.devN + NUM
  {
    var w := s.heads[s.devN..];
    forall i | 0 <= i < |w|
      ensures w[i] < NUM && w[i] != x
    {
      var n := s.devN + i;
      assert QueueOk(s, n);
      assert ChainOk(s, s.heads[n]);
      assert OwnerOk(s, x);
    }
    forall i, j | 0 <= i < j < |w|
      ensures w[i] != w[j]
    {
      var n, m := s.devN + i, s.devN + j;
      assert QueueOk(s, n) && QueueOk(s, m);
    }
    Room(w, x);
  }

  /**
    The heads waiting in the used ring are distinct finished chains, so one still at the device leaves room for
    one more.
   */
  lemma UsedRoom<T>(s: State<T>, x: nat)
    requires Inv(s) && x in s.devHas
    ensures |s.done| < s.seenN + NUM
  {
    var w := s.done[s.seenN..];
    assert DevOk(s, x) && ChainOk(s, x);
    forall i | 0 <= i < |w|
      ensures w[i] < NUM && w[i] != x
    {
      var n := s.seenN + i;
      assert UsedOk(s, n);
      assert ChainOk(s, s.done[n]);
    }
    forall i, j | 0 <= i < j < |w|
      ensures w[i] != w[j]
    {
      var n, m := s.seenN + i, s.seenN + j;
      assert UsedOk(s, n) && UsedOk(s, m);
    }
    Room(w, x);
  }

  lemma PublishInv<T>(s: State<T>, s': State<T>)
    requires Inv(s) && PublishStep(s, s')
    ensures Inv(s')
  {
    var p := s.pending.value;
    WrapNext(|s.heads|);
    assert ChainOk(s, p);
    forall h: nat ensures ChainOk(s', h) { assert ChainOk(s, h); }
    forall n: nat ensures QueueOk(s', n) { assert QueueOk(s, n); }
    forall n: nat ensures UsedOk(s', n) { assert UsedOk(s, n); }
    forall i: nat ensures OwnerOk(s', i) { assert OwnerOk(s, i); }
    forall b': nat ensures WaitOk(s', b') { assert WaitOk(s, b'); }
    forall h: nat ensures DevOk(s', h) { assert DevOk(s, h); }
    forall id: nat ensures FinishedOk(s', id) { assert FinishedOk(s, id); }
  }

  lemma TouchInv<T>(s: State<T>, s': State<T>, b: nat, x: T)
    requires Inv(s) && TouchStep(s, s', b, x)
    ensures Inv(s')
  {
    forall h: nat ensures ChainOk(s', h) { assert ChainOk(s, h); }
    forall n: nat ensures QueueOk(s', n) { assert QueueOk(s, n); }
    forall n: nat ensures UsedOk(s', n) { assert UsedOk(s, n); }
    forall i: nat ensures OwnerOk(s', i) { assert OwnerOk(s, i); }
    forall b': nat ensures WaitOk(s', b') { assert WaitOk(s, b'); }
    forall h: nat ensures DevOk(s', h) { assert DevOk(s, h); }
    forall id: nat ensures FinishedOk(s', id) { assert FinishedOk(s, id); }
  }

  lemma DevTakeInv<T>(s: State<T>, s': State<T>)
    requires Inv(s) && DevTakeStep(s, s')
    ensures Inv(s')
  {
    WrapNext(s.devN);
    WrapDiffers(s.devN, |s.heads|);
    var p := s.heads[s.devN];
    assert QueueOk(s, s.devN);
    assert ChainOk(s, p);
    forall h: nat ensures ChainOk(s', h) { assert ChainOk(s, h); }
    forall n: nat ensures QueueOk(s', n) { assert QueueOk(s, n); }
    forall n: nat ensures UsedOk(s', n) { assert UsedOk(s, n); }
    forall i: nat ensures OwnerOk(s', i) { assert OwnerOk(s, i); }
    forall b': nat ensures WaitOk(s', b') { assert WaitOk(s, b'); }
    forall h: nat ensures DevOk(s', h) { assert DevOk(s, h); }
    forall id: nat ensures FinishedOk(s', id) { assert FinishedOk(s, id); }
  }

  lemma PrepareChain<T>(s: State<T>, s': State<T>, b: nat, block: nat, write: bool, i0: nat, i1: nat, i2: nat, h: nat)
    requires Inv(s) && PrepareStep(s, s', b, block, write, i0, i1, i2)
    ensures ChainOk(s', h)
  {
    assert OwnerOk(s, i0) && OwnerOk(s, i1) && OwnerOk(s, i2);
    assert WaitOk(s, b) && DevOk(s, i0) && ChainOk(s, i0) && FinishedOk(s, |s.heads|);
    assert ChainOk(s, h);
  }

  lemma PrepareInv<T>(s: State<T>, s': State<T>, b: nat, block: nat, write: bool, i0: nat, i1: nat, i2: nat)
    requires Inv(s) && PrepareStep(s, s', b, block, write, i0, i1, i2)
    ensures Inv(s')
  {
    AvailRoom(s, i0);
    WrapNext(|s.heads|);
    assert OwnerOk(s, i0) && OwnerOk(s, i1) && OwnerOk(s, i2) && ChainOk(s, i0);
    forall h: nat ensures ChainOk(s', h) { PrepareChain(s, s', b, block, write, i0, i1, i2, h); }
    forall n: nat ensures QueueOk(s', n) {
      if s.devN <= n < |s.heads| {
        SlotsDiffer(n, |s.heads|);
      }
      assert QueueOk(s, n);
    }
    forall n: nat ensures UsedOk(s', n) { assert UsedOk(s, n); }
    forall i: nat ensures OwnerOk(s', i) { assert OwnerOk(s, i); }
    forall b': nat ensures WaitOk(s', b') { assert WaitOk(s, b'); }
    forall h: nat ensures DevOk(s', h) { assert DevOk(s, h); }
    forall id: nat ensures FinishedOk(s', id) { assert FinishedOk(s, id); }
  }

  /** The descriptors of a request at the device spell that request. */
  lemma SpelledRight<T>(s: State<T>, h: nat)
    requires Inv(s) && h in s.devHas
    ensures h in s.chains && s.chains[h].req.buf < |s.data| && s.chains[h].req.block < |s.disk|
    ensures var r := s.chains[h].req;
      Spelled(s, h) == Some(Xfer(r.buf, r.block, r.write, if r.write then s.data[r.buf] else s.disk[r.block]))
  {
    assert DevOk(s, h) && ChainOk(s, h);
  }

  lemma DevFinishChain<T>(s: State<T>, s': State<T>, x: nat, h: nat)
    requires Inv(s) && DevFinishStep(s, s', x)
    ensures ChainOk(s', h)
  {
    SpelledRight(s, x);
    assert ChainOk(s, x);
    assert ChainOk(s, h);
  }

  lemma DevFinishInv<T>(s: State<T>, s': State<T>, x: nat)
    requires Inv(s) && DevFinishStep(s, s', x)
    ensures Inv(s')
  {
    SpelledRight(s, x);
    assert ChainOk(s, x);
    UsedRoom(s, x);
    WrapNext(|s.done|);
    forall h: nat ensures ChainOk(s', h) { DevFinishChain(s, s', x, h); }
    forall n: nat ensures QueueOk(s', n) { assert QueueOk(s, n); }
    forall n: nat ensures UsedOk(s', n) {
      if s.seenN <= n < |s.done| {
        SlotsDiffer(n, |s.done|);
      }
      assert UsedOk(s, n);
    }
    forall i: nat ensures OwnerOk(s', i) { assert OwnerOk(s, i); }
    forall b': nat ensures WaitOk(s', b') { assert WaitOk(s, b'); }
    forall h: nat ensures DevOk(s', h) { assert DevOk(s, h); }
    forall id: nat ensures FinishedOk(s', id) { assert FinishedOk(s, id); }
  }

  lemma IntrChain<T>(s: State<T>, s': State<T>, h: nat)
    requires Inv(s) && IntrStep(s, s')
    ensures ChainOk(s', h)
  {
    WrapNext(s.seenN);
    WrapDiffers(s.seenN, |s.done|);
    assert UsedOk(s, s.seenN);
    assert ChainOk(s, s.done[s.seenN]);
    assert ChainOk(s, h);
  }

  lemma IntrInv<T>(s: State<T>, s': State<T>)
    requires Inv(s) && IntrStep(s, s')
    ensures Inv(s')
  {
    WrapNext(s.seenN);
    WrapDiffers(s.seenN, |s.done|);
    assert UsedOk(s, s.seenN);
    assert ChainOk(s, s.done[s.seenN]);
    forall h: nat ensures ChainOk(s', h) { IntrChain(s, s', h); }
    forall n: nat ensures QueueOk(s', n) { assert QueueOk(s, n); }
    forall n: nat ensures UsedOk(s', n) { assert UsedOk(s, n); }
    forall i: nat ensures OwnerOk(s', i) { assert OwnerOk(s, i); }
    forall b': nat ensures WaitOk(s', b') { assert WaitOk(s, b'); }
    forall h: nat ensures DevOk(s', h) { assert DevOk(s, h); }
    forall id: nat ensures FinishedOk(s', id) { assert FinishedOk(s, id); }
  }

  lemma ReturnChain<T>(s: State<T>, s': State<T>, b: nat, h: nat)
    requires Inv(s) && ReturnStep(s, s', b)
    ensures ChainOk(s', h)
  {
    var p := s.waiting[b];
    assert WaitOk(s, b);
    assert ChainOk(s, p);
    var c := s.chains[p];
    assert OwnerOk(s, p) && OwnerOk(s, c.i1) && OwnerOk(s, c.i2);
    assert ChainOk(s, h);
  }

  lemma ReturnInv<T>(s: State<T>, s': State<T>, b: nat)
    requires Inv(s) && ReturnStep(s, s', b)
    ensures Inv(s')
  {
    var p := s.waiting[b];
    assert WaitOk(s, b);
    assert ChainOk(s, p);
    var c := s.chains[p];
    assert OwnerOk(s, p) && OwnerOk(s, c.i1) && OwnerOk(s, c.i2);
    forall h: nat ensures ChainOk(s', h) { ReturnChain(s, s', b, h); }
    forall n: nat ensures QueueOk(s', n) { assert QueueOk(s, n); }
    forall n: nat ensures UsedOk(s', n) { assert UsedOk(s, n); }
    forall i: nat ensures OwnerOk(s', i) { assert OwnerOk(s, i); }
    forall b': nat ensures WaitOk(s', b') { assert WaitOk(s, b'); }
    forall h: nat ensures DevOk(s', h) { assert DevOk(s, h); }
    forall id: nat ensures FinishedOk(s', id) { assert FinishedOk(s, id); }
  }

  lemma NextInv<T>(s: State<T>, s': State<T>, e: Step<T>)
    requires Inv(s) && Next(s, s', e)
    ensures Inv(s')
  {
    match e
    case Prepare(b, block, write, i0, i1, i2) => PrepareInv(s, s', b, block, write, i0, i1, i2);
    case Publish => PublishInv(s, s');
    case Touch(b, x) => TouchInv(s, s', b, x);
    case DevTake => DevTakeInv(s, s');
    case DevFinish(h) => DevFinishInv(s, s', h);
    case Intr => IntrInv(s, s');
    case Return(b) => ReturnInv(s, s', b);
  }

  lemma {:induction false} RunInv<T>(ss: seq<State<T>>, es: seq<Step<T>>, i: nat)
    requires Run(ss, es) && i < |ss|
    ensures Inv(ss[i])
  {
    if i == 0 {
      InitInv(ss[0]);
    } else {
      RunInv(ss, es, i - 1);
      NextInv(ss[i - 1], ss[i], es[i - 1]);
    }
  }

  // ---------------------------------------------------------------- what every run guarantees

  lemma LinksChain<T>(s: State<T>, h: nat)
    requires Inv(s) && h in s.chains
    ensures ChainOf3(s.free, s.desc, h, s.chains[h].i1, s.chains[h].i2)
  {
    assert ChainOk(s, h);
    assert OwnerOk(s, h) && OwnerOk(s, s.chains[h].i1) && OwnerOk(s, s.chains[h].i2);
  }

  predicate InChain<T>(c: Chain<T>, h: nat, i: nat) { i == h || i == c.i1 || i == c.i2 }

  /**
   * In every reachable state no fault has occurred (no bad status, no completion without a buffer, no double free, no
   * chain the device cannot follow), each descriptor is either free or in exactly one request's chain, and following
   * the NEXT flags of the descriptor table from a request's head visits exactly the three of its chain.
   */
  lemma DescriptorsPartitioned<T>(ss: seq<State<T>>, es: seq<Step<T>>, k: nat, i: nat)
    requires Run(ss, es) && k < |ss| && i < NUM
    ensures !ss[k].fault && |ss[k].free| == NUM
    ensures ss[k].free[i] ==> forall h :: h in ss[k].chains ==> !InChain(ss[k].chains[h], h, i)
    ensures !ss[k].free[i] ==> exists h :: h in ss[k].chains && InChain(ss[k].chains[h], h, i)
    ensures forall h, h' ::
              (&& h in ss[k].chains && h' in ss[k].chains
               && InChain(ss[k].chains[h], h, i) && InChain(ss[k].chains[h'], h', i)) ==> h == h'
    ensures forall h :: h in ss[k].chains ==>
                ChainOf3(ss[k].free, ss[k].desc, h, ss[k].chains[h].i1, ss[k].chains[h].i2)
  {
    var s := ss[k];
    RunInv(ss, es, k);
    assert OwnerOk(s, i);
    forall h | h in s.chains && InChain(s.chains[h], h, i)
      ensures i in s.owner && s.owner[i] == h
    {
      assert ChainOk(s, h);
    }
    if !s.free[i] {
      assert InChain(s.chains[s.owner[i]], s.owner[i], i);
    }
    forall h | h in s.chains ensures ChainOf3(s.free, s.desc, h, s.chains[h].i1, s.chains[h].i2) {
      LinksChain(s, h);
    }
  }

  /**
   * The avail ring is a queue that never overflows, although nobody checks: writing its next slot leaves every entry
   * the device has yet to read as it was, and the device sees an entry exactly when one was published, in order.
   */
  lemma AvailIsQueue<T>(ss: seq<State<T>>, es: seq<Step<T>>, k: nat)
    requires Run(ss, es) && k < |es|
    ensures ss[k].devIdx != ss[k].availIdx <==> ss[k].devN < |ss[k].heads|
    ensures es[k].DevTake? ==>
              ss[k].devN < |ss[k].heads| && ss[k + 1].devHas == ss[k].devHas + {ss[k].heads[ss[k].devN]}
    ensures es[k].Prepare? ==>
      && |ss[k].avail| == |ss[k + 1].avail| == NUM
      && forall n :: ss[k].devN <= n < |ss[k].heads| ==>
             ss[k + 1].avail[n % NUM] == ss[k].avail[n % NUM] == ss[k].heads[n]
  {
    var s := ss[k];
    assert Next(ss[k], ss[k + 1], es[k]);
    RunInv(ss, es, k);
    WrapDiffers(s.devN, |s.heads|);
    WrapNext(s.devN);
    WrapNext(|s.heads|);
    assert QueueOk(s, s.devN);
    if es[k].Prepare? {
      AvailRoom(s, es[k].i0);
      forall n | s.devN <= n < |s.heads|
        ensures ss[k + 1].avail[n % NUM] == s.avail[n % NUM] == s.heads[n]
      {
        SlotsDiffer(n, |s.heads|);
        assert QueueOk(s, n);
      }
    }
  }

  /** The same for the used ring, which the device fills and the interrupt handler drains. */
  lemma UsedIsQueue<T>(ss: seq<State<T>>, es: seq<Step<T>>, k: nat)
    requires Run(ss, es) && k < |es|
    ensures ss[k].usedSeen != ss[k].usedIdx <==> ss[k].seenN < |ss[k].done|
    ensures es[k].Intr? ==>
      && ss[k].seenN < |ss[k].done| && ss[k].done[ss[k].seenN] in ss[k].chains
      && ss[k + 1].busy == ss[k].busy - {ss[k].chains[ss[k].done[ss[k].seenN]].req.buf}
    ensures es[k].DevFinish? ==>
      && |ss[k].used| == |ss[k + 1].used| == NUM
      && forall n :: ss[k].seenN <= n < |ss[k].done| ==> ss[k + 1].used[n % NUM] == ss[k].used[n % NUM] == ss[k].done[n]
  {
    var s := ss[k];
    assert Next(ss[k], ss[k + 1], es[k]);
    RunInv(ss, es, k);
    WrapDiffers(s.seenN, |s.done|);
    WrapNext(s.seenN);
    WrapNext(|s.done|);
    assert UsedOk(s, s.seenN);
    if s.seenN < |s.done| {
      assert ChainOk(s, s.done[s.seenN]);
    }
    if es[k].DevFinish? {
      UsedRoom(s, es[k].h);
      SpelledRight(s, es[k].h);
      forall n | s.seenN <= n < |s.done|
        ensures ss[k + 1].used[n % NUM] == s.used[n % NUM] == s.done[n]
      {
        SlotsDiffer(n, |s.done|);
        assert UsedOk(s, n);
      }
    }
  }

  /** A request is carried out once, and then exactly as it was submitted; what was done for it is never revised. */
  lemma CarriedOutOnce<T>(ss: seq<State<T>>, es: seq<Step<T>>, k: nat)
    requires Run(ss, es) && k < |es|
    ensures forall id :: id in ss[k].finished ==>
                id in ss[k + 1].finished && ss[k + 1].finished[id] == ss[k].finished[id]
    ensures es[k].DevFinish? ==>
      && es[k].h in ss[k].chains && var c := ss[k].chains[es[k].h];
      && c.id !in ss[k].finished && c.id in ss[k + 1].finished && Accomplished(ss[k + 1].finished[c.id], c.req)
      && c.req.block < |ss[k].disk|
      && (if c.req.write then ss[k + 1].disk == ss[k].disk[c.req.block := c.req.was]
          else ss[k + 1].disk == ss[k].disk && ss[k + 1].finished[c.id].data == ss[k].disk[c.req.block])
    ensures !es[k].DevFinish? ==> ss[k + 1].disk == ss[k].disk
  {
    assert Next(ss[k], ss[k + 1], es[k]);
    RunInv(ss, es, k);
    if es[k].DevFinish? {
      SpelledRight(ss[k], es[k].h);
      assert ChainOk(ss[k], es[k].h);
    }
  }

  /**
   * virtio_disk_rw returns to its caller only when the device has carried out that caller's request: after a read the
   * buffer holds the block the device read, after a write it holds what it held at submission and the disk was given
   * exactly that. The request's three descriptors, and no others, become free.
   */
  lemma ReturnsWhenDone<T>(ss: seq<State<T>>, es: seq<Step<T>>, k: nat)
    requires Run(ss, es) && k < |es| && es[k].Return?
    ensures es[k].b in ss[k].waiting && ss[k].waiting[es[k].b] in ss[k].chains
    ensures var h := ss[k].waiting[es[k].b]; var c := ss[k].chains[h];
      && c.req.buf == es[k].b && c.id in ss[k].finished && Accomplished(ss[k].finished[c.id], c.req)
      && c.req.buf < |ss[k + 1].data| && ss[k + 1].data[c.req.buf] == ss[k].finished[c.id].data
      && |ss[k].free| == |ss[k + 1].free| == NUM
      && forall i :: 0 <= i < NUM ==> (ss[k + 1].free[i] <==> ss[k].free[i] || InChain(c, h, i))
  {
    var s, b := ss[k], es[k].b;
    assert Next(ss[k], ss[k + 1], es[k]);
    RunInv(ss, es, k);
    assert WaitOk(s, b);
    assert ChainOk(s, s.waiting[b]);
    ReturnInv(s, ss[k + 1], b);
  }
}
