/**
  Transparency of the buffer cache in every interleaving of its users.

  A handle is one use of the cache, from bread to brelse. Its steps are: bget's critical section,
  taking the sleep-lock, filling the buffer, changing the data, bwrite, log_write (which pins the
  buffer), bunpin, releasing the sleep-lock, and dropping the reference. `store` is what a store
  without a cache would hold: it changes when a holder hands its data over by bwrite or log_write.
 */
module CacheProtocol {
  import opened BufferRing

  datatype Key = Key(dev: nat, blockno: nat)
  type Store<T> = imap<Key, T>

  datatype Phase = Waiting | Holding(dirty: bool, synced: bool) | Leaving
  datatype Handle = Handle(buf: nat, key: Key, phase: Phase)

  datatype State<T> = State(
    bufs: seq<Buf<T>>,
    owner: map<nat, nat>,      // the handle that holds each taken sleep-lock
    handles: map<nat, Handle>,
    pins: map<Key, nat>,       // the buffer that the log has pinned for a block
    disk: Store<T>,
    store: Store<T>)

  datatype Step<T> =
    | Get(h: nat, key: Key, b: nat)
    | Lock(h: nat)
    | Fill(h: nat)
    | Modify(h: nat, data: T)
    | Bwrite(h: nat)
    | LogWrite(h: nat)
    | Unpin(h: nat)
    | Unlock(h: nat)
    | Drop(h: nat)

  function KeyOf<T>(b: Buf<T>): Key {
    Key(b.dev, b.blockno)
  }

  predicate Holds<T>(s: State<T>, h: nat) {
    h in s.handles && s.handles[h].phase.Holding? && s.handles[h].buf < |s.bufs|
  }

  ghost predicate Init<T>(s: State<T>) {
    && (forall k :: k in s.disk) && s.store == s.disk
    && s.handles == map[] && s.pins == map[] && s.owner == map[]
    && forall b :: 0 <= b < |s.bufs| ==>
           s.bufs[b].dev == 0 && s.bufs[b].blockno == 0 && !s.bufs[b].valid && s.bufs[b].refcnt == 0
  }

  function SetPhase<T>(s: State<T>, h: nat, phase: Phase): State<T>
    requires h in s.handles
  {
    s.(handles := s.handles[h := s.handles[h].(phase := phase)])
  }

  function SetBuf<T>(s: State<T>, i: nat, b: Buf<T>): State<T>
    requires i < |s.bufs|
  {
    s.(bufs := s.bufs[i := b])
  }

  ghost predicate Next<T>(s: State<T>, step: Step<T>, s': State<T>) {
    match step
    case Get(h, key, b) =>
      && h !in s.handles && Got(s.bufs, key.dev, key.blockno, b, s'.bufs)
      && s' == s.(bufs := s'.bufs, handles := s.handles[h := Handle(b, key, Waiting)])
    case Lock(h) =>
      && h in s.handles && s.handles[h].phase == Waiting && s.handles[h].buf !in s.owner
      && s' == SetPhase(s, h, Holding(false, false)).(owner := s.owner[s.handles[h].buf := h])
    case Fill(h) =>
      && Holds(s, h)
      && var i := s.handles[h].buf;
      && var b := s.bufs[i];
      && !b.valid && KeyOf(b) in s.disk
      && s' == SetBuf(s, i, b.(valid := true, data := s.disk[KeyOf(b)]))
    case Modify(h, data) =>
      && Holds(s, h)
      && var i := s.handles[h].buf;
      && s.bufs[i].valid
      && s' == SetPhase(SetBuf(s, i, s.bufs[i].(data := data)), h, Holding(true, false))
    case Bwrite(h) =>
      && Holds(s, h)
      && var b := s.bufs[s.handles[h].buf];
      && b.valid
      && var s1 := s.(disk := s.disk[KeyOf(b) := b.data], store := s.store[KeyOf(b) := b.data]);
      && s' == SetPhase(s1, h, Holding(false, true))
    case LogWrite(h) =>
      && Holds(s, h)
      && var i := s.handles[h].buf;
      && var b := s.bufs[i];
      && b.valid && b.dev != 0
      && var s1 := SetPhase(s.(store := s.store[KeyOf(b) := b.data]), h, Holding(false, s.handles[h].phase.synced));
      && s' == if KeyOf(b) in s.pins then s1
               else SetBuf(s1, i, b.(refcnt := b.refcnt + 1)).(pins := s.pins[KeyOf(b) := i])
    case Unpin(h) =>
      && Holds(s, h) && s.handles[h].phase == Holding(false, true)
      && var i := s.handles[h].buf;
      && var b := s.bufs[i];
      && KeyOf(b) in s.pins && b.refcnt > 0
      && s' == SetBuf(s, i, b.(refcnt := b.refcnt - 1)).(pins := s.pins - {KeyOf(b)})
    case Unlock(h) =>
      && Holds(s, h) && !s.handles[h].phase.dirty
      && s' == SetPhase(s, h, Leaving).(owner := s.owner - {s.handles[h].buf})
    case Drop(h) =>
      && h in s.handles && s.handles[h].phase == Leaving && s.handles[h].buf < |s.bufs|
      && var i := s.handles[h].buf;
      && s.bufs[i].refcnt > 0
      && s' == SetBuf(s, i, s.bufs[i].(refcnt := s.bufs[i].refcnt - 1)).(handles := s.handles - {h})
  }

  // ----- the invariant -----

  function Refs(handles: map<nat, Handle>, b: nat): set<nat> {
    set h | h in handles && handles[h].buf == b
  }

  /** A reference count is the number of handles on the buffer, plus one for the log's pin. */
  ghost predicate InvRefs<T>(s: State<T>) {
    && (forall h :: h in s.handles ==> s.handles[h].buf < |s.bufs|)
    && (forall b :: 0 <= b < |s.bufs| ==>
          s.bufs[b].refcnt == |Refs(s.handles, b)| + if KeyOf(s.bufs[b]) in s.pins then 1 else 0)
  }

  ghost predicate InvLock<T>(s: State<T>) {
    && (forall b :: b in s.owner ==> s.owner[b] in s.handles && s.handles[s.owner[b]].buf == b
                                     && s.handles[s.owner[b]].phase.Holding?)
    && (forall h :: h in s.handles && s.handles[h].phase.Holding? ==>
          s.handles[h].buf in s.owner && s.owner[s.handles[h].buf] == h)
  }

  /** A block of a nonzero device is in at most one buffer; handles and pins keep their block. */
  ghost predicate InvKeys<T>(s: State<T>) {
    && (forall h :: h in s.handles ==>
           s.handles[h].buf < |s.bufs| && KeyOf(s.bufs[s.handles[h].buf]) == s.handles[h].key)
    && (forall k :: k in s.pins ==>
           k.dev != 0 && s.pins[k] < |s.bufs| && KeyOf(s.bufs[s.pins[k]]) == k && s.bufs[s.pins[k]].valid)
    && (forall b, c :: 0 <= b < c < |s.bufs| && s.bufs[b].dev != 0 ==> KeyOf(s.bufs[b]) != KeyOf(s.bufs[c]))
  }

  /** The holder of buffer b has changed it and not yet handed the change over. */
  predicate Dirty<T>(s: State<T>, b: nat) {
    b in s.owner && s.owner[b] in s.handles && s.handles[s.owner[b]].phase.Holding? && s.handles[s.owner[b]].phase.dirty
  }

  predicate Synced<T>(s: State<T>, b: nat) {
    b in s.owner && s.owner[b] in s.handles && s.handles[s.owner[b]].phase.Holding?
    && s.handles[s.owner[b]].phase.synced
  }

  ghost predicate InvDisk<T>(s: State<T>) {
    && (forall k :: k in s.disk) && (forall k :: k in s.store)
    && (forall k: Key :: k.dev != 0 && k !in s.pins ==> s.disk[k] == s.store[k])
  }

  ghost predicate GoodData<T>(s: State<T>, b: nat)
    requires InvDisk(s) && b < |s.bufs|
  {
    s.bufs[b].dev != 0 ==>
      && (s.bufs[b].valid && !Dirty(s, b) ==> s.bufs[b].data == s.store[KeyOf(s.bufs[b])])
      && (Synced(s, b) ==> s.bufs[b].valid && s.bufs[b].data == s.disk[KeyOf(s.bufs[b])])
  }

  ghost predicate InvData<T>(s: State<T>) {
    InvDisk(s) && forall b :: 0 <= b < |s.bufs| ==> GoodData(s, b)
  }

  ghost predicate Inv<T>(s: State<T>) {
    InvRefs(s) && InvLock(s) && InvKeys(s) && InvData(s)
  }

  lemma InitInv<T>(s: State<T>)
    requires Init(s)
    ensures Inv(s)
  {
    assert forall b :: Refs(s.handles, b) == {};
  }

  // ----- reference counts -----

  lemma RefsAdd(handles: map<nat, Handle>, h: nat, x: Handle, b: nat)
    requires h !in handles
    ensures |Refs(handles[h := x], b)| == |Refs(handles, b)| + if x.buf == b then 1 else 0
  {
    assert Refs(handles[h := x], b) == Refs(handles, b) + if x.buf == b then {h} else {};
  }

  lemma RefsRemove(handles: map<nat, Handle>, h: nat, b: nat)
    requires h in handles
    ensures |Refs(handles - {h}, b)| == |Refs(handles, b)| - if handles[h].buf == b then 1 else 0
  {
    assert Refs(handles, b) == Refs(handles - {h}, b) + if handles[h].buf == b then {h} else {};
  }

  lemma RefsSame(handles: map<nat, Handle>, h: nat, phase: Phase, b: nat)
    requires h in handles
    ensures Refs(handles[h := handles[h].(phase := phase)], b) == Refs(handles, b)
  {
  }

  /** A buffer without references is in nobody's hands. */
  lemma Unreferenced<T>(s: State<T>, b: nat)
    requires InvRefs(s) && b < |s.bufs| && s.bufs[b].refcnt == 0
    ensures KeyOf(s.bufs[b]) !in s.pins && forall h :: h in s.handles ==> s.handles[h].buf != b
  {
    assert Refs(s.handles, b) == {};
    assert forall h :: h in s.handles && s.handles[h].buf == b ==> h in Refs(s.handles, b);
  }

  lemma GetInv<T>(s: State<T>, h: nat, key: Key, b: nat, s': State<T>)
    requires Inv(s) && Next(s, Get(h, key, b), s')
    ensures InvRefs(s') && InvLock(s') && InvKeys(s') && InvDisk(s')
  {
    GetRefs(s, h, key, b, s');
    GetKeys(s, h, key, b, s');
  }

  lemma GetKeys<T>(s: State<T>, h: nat, key: Key, b: nat, s': State<T>)
    requires InvRefs(s) && InvKeys(s) && Next(s, Get(h, key, b), s')
    ensures InvKeys(s')
  {
    if s.bufs[b].refcnt == 0 {
      Unreferenced(s, b);
    }
  }

  lemma GetRefs<T>(s: State<T>, h: nat, key: Key, b: nat, s': State<T>)
    requires InvRefs(s) && InvKeys(s) && Next(s, Get(h, key, b), s')
    ensures InvRefs(s')
  {
    if s.bufs[b].refcnt == 0 {
      Unreferenced(s, b);
    }
    forall c { RefsAdd(s.handles, h, Handle(b, key, Waiting), c); }
  }

  lemma GetData<T>(s: State<T>, h: nat, key: Key, b: nat, s': State<T>, c: nat)
    requires Inv(s) && Next(s, Get(h, key, b), s') && InvDisk(s') && c < |s'.bufs|
    ensures GoodData(s', c)
  {
    assert GoodData(s, c);
    if s.bufs[b].refcnt == 0 {
      Unreferenced(s, b);
    }
  }

  /** A step that concerns only handle h, its buffer and its block. */
  ghost predicate Local<T>(s: State<T>, h: nat, s': State<T>) {
    && h in s.handles && h in s'.handles && s.handles[h].buf < |s.bufs|
    && var i, phase := s.handles[h].buf, s'.handles[h].phase;
    && s'.handles == s.handles[h := s.handles[h].(phase := phase)]
    && (if phase.Holding? then s'.owner == s.owner[i := h] && (i in s.owner ==> s.owner[i] == h)
        else s.handles[h].phase.Holding? && s'.owner == s.owner - {i})
    && |s'.bufs| == |s.bufs| && s'.bufs == s.bufs[i := s'.bufs[i]]
    && var b, b' := s.bufs[i], s'.bufs[i];
    && var k := KeyOf(b);
    && b'.dev == b.dev && b'.blockno == b.blockno && (b.valid ==> b'.valid)
    && (s'.pins == s.pins || (s'.pins == s.pins[k := i] && k.dev != 0 && b'.valid) || s'.pins == s.pins - {k})
    && b'.refcnt == b.refcnt + (if k in s'.pins then 1 else 0) - (if k in s.pins then 1 else 0)
    && k in s'.disk && k in s'.store && s'.disk == s.disk[k := s'.disk[k]] && s'.store == s.store[k := s'.store[k]]
  }

  lemma LocalRefs<T>(s: State<T>, h: nat, s': State<T>)
    requires InvRefs(s) && InvKeys(s) && Local(s, h, s')
    ensures InvRefs(s')
  {
    forall b | 0 <= b < |s.bufs| ensures Refs(s'.handles, b) == Refs(s.handles, b) {
      RefsSame(s.handles, h, s'.handles[h].phase, b);
    }
  }

  lemma LocalLock<T>(s: State<T>, h: nat, s': State<T>)
    requires InvLock(s) && Local(s, h, s')
    ensures InvLock(s')
  {
  }

  ghost predicate SameKeys<T>(s: State<T>, s': State<T>) {
    && |s'.bufs| == |s.bufs|
    && forall c :: 0 <= c < |s.bufs| ==> KeyOf(s'.bufs[c]) == KeyOf(s.bufs[c]) && (s.bufs[c].valid ==> s'.bufs[c].valid)
  }

  /** Buffers keep their blocks, handles keep theirs, and a new pin is on a buffer that holds its block. */
  lemma KeysKept<T>(s: State<T>, s': State<T>)
    requires InvKeys(s) && SameKeys(s, s')
    requires forall h :: h in s'.handles ==>
               h in s.handles && s'.handles[h].buf == s.handles[h].buf && s'.handles[h].key == s.handles[h].key
    requires forall k :: k in s'.pins ==>
               || (k in s.pins && s'.pins[k] == s.pins[k])
               || (k.dev != 0 && s'.pins[k] < |s.bufs| && KeyOf(s'.bufs[s'.pins[k]]) == k && s'.bufs[s'.pins[k]].valid)
    ensures InvKeys(s')
  {
  }

  lemma LocalKeys<T>(s: State<T>, h: nat, s': State<T>)
    requires InvKeys(s) && Local(s, h, s')
    ensures InvKeys(s')
  {
    assert SameKeys(s, s');
    KeysKept(s, s');
  }

  lemma LocalDisk<T>(s: State<T>, h: nat, s': State<T>)
    requires InvDisk(s) && Local(s, h, s')
    requires var k := KeyOf(s.bufs[s.handles[h].buf]); k.dev != 0 && k !in s'.pins ==> s'.disk[k] == s'.store[k]
    ensures InvDisk(s')
  {
  }

  lemma LocalData<T>(s: State<T>, h: nat, s': State<T>, c: nat)
    requires InvDisk(s) && InvDisk(s') && InvLock(s) && InvKeys(s) && Local(s, h, s')
    requires c < |s.bufs| && c != s.handles[h].buf && GoodData(s, c)
    ensures GoodData(s', c)
  {
    LocalElsewhere(s, h, s', c);
  }

  /** Another buffer, its block and its holder are untouched. */
  lemma LocalElsewhere<T>(s: State<T>, h: nat, s': State<T>, c: nat)
    requires InvLock(s) && InvKeys(s) && Local(s, h, s') && c < |s.bufs| && c != s.handles[h].buf
    ensures s'.bufs[c] == s.bufs[c] && Dirty(s', c) == Dirty(s, c) && Synced(s', c) == Synced(s, c)
    ensures s.bufs[c].dev != 0 ==> KeyOf(s.bufs[c]) != KeyOf(s.bufs[s.handles[h].buf])
  {
    assert c in s.owner ==> s.owner[c] != h;
  }

  lemma LocalInv<T>(s: State<T>, h: nat, s': State<T>)
    requires Inv(s) && Local(s, h, s')
    requires var k := KeyOf(s.bufs[s.handles[h].buf]); k.dev != 0 && k !in s'.pins ==> s'.disk[k] == s'.store[k]
    requires InvDisk(s') ==> GoodData(s', s.handles[h].buf)
    ensures Inv(s')
  {
    LocalRefs(s, h, s');
    LocalLock(s, h, s');
    LocalKeys(s, h, s');
    LocalDisk(s, h, s');
    forall c | 0 <= c < |s.bufs| && c != s.handles[h].buf { LocalData(s, h, s', c); }
  }

  /** The handle's buffer exists, and its block is on the disk. */
  ghost predicate Handled<T>(s: State<T>, h: nat) {
    && h in s.handles && s.handles[h].buf < |s.bufs|
    && KeyOf(s.bufs[s.handles[h].buf]) in s.disk && KeyOf(s.bufs[s.handles[h].buf]) in s.store
  }

  /** Every step of a handle between its first reference and its last is local, and leaves good data. */
  lemma LockLocal<T>(s: State<T>, h: nat, s': State<T>)
    requires Handled(s, h) && InvLock(s) && Next(s, Lock(h), s')
    ensures Local(s, h, s')
  {
  }

  lemma LockInv<T>(s: State<T>, h: nat, s': State<T>)
    requires Inv(s) && Next(s, Lock(h), s')
    ensures Inv(s')
  {
    assert GoodData(s, s.handles[h].buf);
    LockLocal(s, h, s');
    LocalInv(s, h, s');
  }

  lemma FillLocal<T>(s: State<T>, h: nat, s': State<T>)
    requires Handled(s, h) && InvLock(s) && Next(s, Fill(h), s')
    ensures Local(s, h, s')
  {
  }

  lemma FillInv<T>(s: State<T>, h: nat, s': State<T>)
    requires Inv(s) && Next(s, Fill(h), s')
    ensures Inv(s')
  {
    assert GoodData(s, s.handles[h].buf);
    FillLocal(s, h, s');
    LocalInv(s, h, s');
  }

  lemma ModifyLocal<T>(s: State<T>, h: nat, data: T, s': State<T>)
    requires Handled(s, h) && InvLock(s) && Next(s, Modify(h, data), s')
    ensures Local(s, h, s')
  {
  }

  lemma ModifyInv<T>(s: State<T>, h: nat, data: T, s': State<T>)
    requires Inv(s) && Next(s, Modify(h, data), s')
    ensures Inv(s')
  {
    assert GoodData(s, s.handles[h].buf);
    ModifyLocal(s, h, data, s');
    LocalInv(s, h, s');
  }

  lemma BwriteLocal<T>(s: State<T>, h: nat, s': State<T>)
    requires Handled(s, h) && InvLock(s) && Next(s, Bwrite(h), s')
    ensures Local(s, h, s')
  {
  }

  lemma BwriteInv<T>(s: State<T>, h: nat, s': State<T>)
    requires Inv(s) && Next(s, Bwrite(h), s')
    ensures Inv(s')
  {
    assert GoodData(s, s.handles[h].buf);
    BwriteLocal(s, h, s');
    LocalInv(s, h, s');
  }

  lemma LogWriteLocal<T>(s: State<T>, h: nat, s': State<T>)
    requires Handled(s, h) && InvLock(s) && Next(s, LogWrite(h), s')
    ensures Local(s, h, s')
  {
  }

  lemma LogWriteInv<T>(s: State<T>, h: nat, s': State<T>)
    requires Inv(s) && Next(s, LogWrite(h), s')
    ensures Inv(s')
  {
    assert GoodData(s, s.handles[h].buf);
    LogWriteLocal(s, h, s');
    LocalInv(s, h, s');
  }

  lemma UnpinLocal<T>(s: State<T>, h: nat, s': State<T>)
    requires Handled(s, h) && InvLock(s) && Next(s, Unpin(h), s')
    ensures Local(s, h, s')
  {
  }

  lemma UnpinInv<T>(s: State<T>, h: nat, s': State<T>)
    requires Inv(s) && Next(s, Unpin(h), s')
    ensures Inv(s')
  {
    assert GoodData(s, s.handles[h].buf);
    UnpinLocal(s, h, s');
    LocalInv(s, h, s');
  }

  lemma UnlockLocal<T>(s: State<T>, h: nat, s': State<T>)
    requires Handled(s, h) && InvLock(s) && Next(s, Unlock(h), s')
    ensures Local(s, h, s')
  {
  }

  lemma UnlockInv<T>(s: State<T>, h: nat, s': State<T>)
    requires Inv(s) && Next(s, Unlock(h), s')
    ensures Inv(s')
  {
    assert GoodData(s, s.handles[h].buf);
    UnlockLocal(s, h, s');
    LocalInv(s, h, s');
  }

  lemma DropInv<T>(s: State<T>, h: nat, s': State<T>)
    requires Inv(s) && Next(s, Drop(h), s')
    ensures Inv(s')
  {
    DropRefs(s, h, s');
    DropLock(s, h, s');
    DropKeys(s, h, s');
    forall b | 0 <= b < |s.bufs| ensures GoodData(s', b) { DropData(s, h, s', b); }
  }

  lemma DropData<T>(s: State<T>, h: nat, s': State<T>, b: nat)
    requires InvData(s) && InvLock(s) && Next(s, Drop(h), s') && InvDisk(s') && b < |s.bufs|
    ensures GoodData(s', b)
  {
    assert GoodData(s, b);
  }

  lemma DropRefs<T>(s: State<T>, h: nat, s': State<T>)
    requires InvRefs(s) && Next(s, Drop(h), s')
    ensures InvRefs(s')
  {
    forall b { RefsRemove(s.handles, h, b); }
  }

  lemma DropLock<T>(s: State<T>, h: nat, s': State<T>)
    requires InvLock(s) && Next(s, Drop(h), s')
    ensures InvLock(s')
  {
  }

  lemma DropKeys<T>(s: State<T>, h: nat, s': State<T>)
    requires InvKeys(s) && Next(s, Drop(h), s')
    ensures InvKeys(s')
  {
    assert SameKeys(s, s');
    KeysKept(s, s');
  }

  lemma NextInv<T>(s: State<T>, step: Step<T>, s': State<T>)
    requires Inv(s) && Next(s, step, s')
    ensures Inv(s')
  {
    match step
    case Get(h, key, b) =>
      GetInv(s, h, key, b, s');
      forall c | 0 <= c < |s'.bufs| { GetData(s, h, key, b, s', c); }
    case Drop(h) =>
      DropInv(s, h, s');
    case Lock(h) => LockInv(s, h, s');
    case Fill(h) => FillInv(s, h, s');
    case Modify(h, data) => ModifyInv(s, h, data, s');
    case Bwrite(h) => BwriteInv(s, h, s');
    case LogWrite(h) => LogWriteInv(s, h, s');
    case Unpin(h) => UnpinInv(s, h, s');
    case Unlock(h) => UnlockInv(s, h, s');
  }

  // ----- runs -----

  ghost predicate IsRun<T>(run: seq<State<T>>, steps: seq<Step<T>>) {
    && |run| == |steps| + 1 && Init(run[0])
    && forall i :: 0 <= i < |steps| ==> Next(run[i], steps[i], run[i + 1])
  }

  lemma {:induction false} RunInv<T>(run: seq<State<T>>, steps: seq<Step<T>>, i: nat)
    requires IsRun(run, steps) && i < |run|
    ensures Inv(run[i])
  {
    if i == 0 {
      InitInv(run[0]);
    } else {
      RunInv(run, steps, i - 1);
      NextInv(run[i - 1], steps[i - 1], run[i]);
    }
  }

  /** What bread returns, and a holder keeps seeing until it changes it, is what a plain store would give. */
  lemma Transparency<T>(run: seq<State<T>>, steps: seq<Step<T>>, i: nat, h: nat)
    requires IsRun(run, steps) && i < |run| && Holds(run[i], h)
    requires var s := run[i];
             !s.handles[h].phase.dirty && s.handles[h].key.dev != 0 && s.bufs[s.handles[h].buf].valid
    ensures var s := run[i];
            s.handles[h].key in s.store && s.bufs[s.handles[h].buf].data == s.store[s.handles[h].key]
  {
    RunInv(run, steps, i);
    assert GoodData(run[i], run[i].handles[h].buf);
  }

  /** A block of a nonzero device is never cached twice, and its buffer is never held twice. */
  lemma OneCopy<T>(run: seq<State<T>>, steps: seq<Step<T>>, i: nat)
    requires IsRun(run, steps) && i < |run|
    ensures var s := run[i];
            && (forall b, c :: 0 <= b < c < |s.bufs| && s.bufs[b].dev != 0 ==> KeyOf(s.bufs[b]) != KeyOf(s.bufs[c]))
            && (forall h, j :: Holds(s, h) && Holds(s, j) && s.handles[h].buf == s.handles[j].buf ==> h == j)
  {
    RunInv(run, steps, i);
  }

  /** One step, for a buffer b that is pinned for block k and referenced. */
  lemma PinnedStep<T>(s: State<T>, step: Step<T>, s': State<T>, k: Key, b: nat)
    requires Next(s, step, s') && k in s.pins && s.pins[k] == b < |s.bufs| && KeyOf(s.bufs[b]) == k && s.bufs[b].valid
    requires s.bufs[b].refcnt > 0
    requires step.h in s.handles ==> s.handles[step.h].buf < |s.bufs|
    requires step.Unpin? ==> s.handles[step.h].key == KeyOf(s.bufs[s.handles[step.h].buf])
    ensures |s'.bufs| == |s.bufs| && KeyOf(s'.bufs[b]) == k && s'.bufs[b].valid
    ensures s'.bufs[b].data == s.bufs[b].data || (step.Modify? && Holds(s, step.h) && s.handles[step.h].buf == b)
    ensures (k in s'.pins && s'.pins[k] == b) || (step.Unpin? && s.handles[step.h].key == k)
  {}

  /** A pinned buffer keeps its block through every step of a run, and its data unless its own holder changes them. */
  lemma PinnedStays<T>(run: seq<State<T>>, steps: seq<Step<T>>, i: nat, k: Key)
    requires IsRun(run, steps) && i < |steps| && k in run[i].pins
    ensures var s, step, s' := run[i], steps[i], run[i + 1];
            var b := s.pins[k];
            && b < |s.bufs| && |s'.bufs| == |s.bufs|
            && KeyOf(s'.bufs[b]) == KeyOf(s.bufs[b]) == k && s'.bufs[b].valid
            && (s'.bufs[b].data == s.bufs[b].data ||
                (step.Modify? && Holds(s, step.h) && s.handles[step.h].buf == b))
            && ((k in s'.pins && s'.pins[k] == b) || (step.Unpin? && step.h in s.handles && s.handles[step.h].key == k))
  {
    var s, step, s' := run[i], steps[i], run[i + 1];
    RunInv(run, steps, i);
    assert Next(s, step, s');
    assert s.bufs[s.pins[k]].refcnt > 0;
    PinnedStep(s, step, s', k, s.pins[k]);
  }

  // ----- when bget finds a buffer -----

  /** bget's panic: the block is not cached, and every buffer has a reference. */
  ghost predicate NoBuffers<T>(s: State<T>, key: Key) {
    Uncached(s.bufs, key.dev, key.blockno) && forall b :: 0 <= b < |s.bufs| ==> s.bufs[b].refcnt > 0
  }

  /** The log has pinned the buffer, or some handle is on it. */
  ghost predicate InUse<T>(s: State<T>, b: nat)
    requires b < |s.bufs|
  {
    KeyOf(s.bufs[b]) in s.pins || exists h :: h in s.handles && s.handles[h].buf == b
  }

  lemma InUseExactly<T>(s: State<T>, b: nat)
    requires InvRefs(s) && b < |s.bufs|
    ensures s.bufs[b].refcnt > 0 <==> InUse(s, b)
  {
    if s.bufs[b].refcnt == 0 {
      Unreferenced(s, b);
    } else if KeyOf(s.bufs[b]) !in s.pins {
      assert Refs(s.handles, b) != {};
      var h :| h in Refs(s.handles, b);
    }
  }

  /** In every state of every run bget yields a buffer, unless the block is not cached and every buffer is in use. */
  lemma GetOrPanic<T>(run: seq<State<T>>, steps: seq<Step<T>>, i: nat, h: nat, key: Key)
    requires IsRun(run, steps) && i < |run| && h !in run[i].handles
    ensures (exists b, s' :: Next(run[i], Get(h, key, b), s')) <==> !NoBuffers(run[i], key)
    ensures NoBuffers(run[i], key) <==>
              && Uncached(run[i].bufs, key.dev, key.blockno)
              && forall b {:trigger InUse(run[i], b)} :: 0 <= b < |run[i].bufs| ==> InUse(run[i], b)
  {
    var s := run[i];
    RunInv(run, steps, i);
    forall b | 0 <= b < |s.bufs| ensures s.bufs[b].refcnt > 0 <==> InUse(s, b) { InUseExactly(s, b); }
    if !NoBuffers(s, key) {
      var b :| 0 <= b < |s.bufs| && (Matches(s.bufs[b], key.dev, key.blockno)
               || (Uncached(s.bufs, key.dev, key.blockno) && s.bufs[b].refcnt == 0));
      var x := s.bufs[b];
      var x' := if Matches(x, key.dev, key.blockno) then x.(refcnt := x.refcnt + 1)
                else x.(dev := key.dev, blockno := key.blockno, valid := false, refcnt := 1);
      var s' := s.(bufs := s.bufs[b := x'], handles := s.handles[h := Handle(b, key, Waiting)]);
      assert Next(s, Get(h, key, b), s');
    }
  }

  /** The buffers that a map sends its keys to: at most one per key, and one per key if it is one-to-one. */
  function Targets<K>(m: map<K, nat>): set<nat> {
    set k | k in m :: m[k]
  }

  lemma TargetsLess<K>(m: map<K, nat>, k: K)
    requires k in m
    ensures Targets(m) == Targets(m - {k}) + {m[k]}
  {
    forall x | x in Targets(m) ensures x in Targets(m - {k}) + {m[k]} {
      var l :| l in m && m[l] == x;
      assert l == k || l in m - {k};
    }
  }

  lemma {:induction false} TargetsSize<K>(m: map<K, nat>)
    ensures |Targets(m)| <= |m|
    decreases |m|
  {
    if m != map[] {
      var k :| k in m;
      TargetsSize(m - {k});
      TargetsLess(m, k);
    }
  }

  lemma {:induction false} TargetsOneToOne<K>(m: map<K, nat>)
    requires forall k, l :: k in m && l in m && m[k] == m[l] ==> k == l
    ensures |Targets(m)| == |m|
    decreases |m|
  {
    if m != map[] {
      var k :| k in m;
      TargetsOneToOne(m - {k});
      TargetsLess(m, k);
      assert m[k] !in Targets(m - {k});
    }
  }

  lemma {:induction false} AllBelow(n: nat, used: set<nat>)
    requires forall b :: 0 <= b < n ==> b in used
    ensures n <= |used|
  {
    if n > 0 {
      AllBelow(n - 1, used - {n - 1});
    }
  }

  lemma {:induction false} OnlyBelow(n: nat, used: set<nat>)
    requires forall b :: b in used ==> b < n
    ensures |used| <= n && (|used| == n ==> forall b :: 0 <= b < n ==> b in used)
  {
    if n == 0 {
      assert used == {};
    } else if n - 1 in used {
      OnlyBelow(n - 1, used - {n - 1});
      forall b | 0 <= b < n && |used| == n ensures b in used {
        assert b < n - 1 ==> b in used - {n - 1};
      }
    } else {
      OnlyBelow(n - 1, used);
    }
  }

  function BufOf(handles: map<nat, Handle>): map<nat, nat> {
    map h | h in handles :: handles[h].buf
  }

  /** With fewer pins and handles than buffers, bget never panics. */
  lemma BuffersSuffice<T>(s: State<T>, key: Key)
    requires InvRefs(s) && InvKeys(s) && |s.pins| + |s.handles| < |s.bufs|
    ensures !NoBuffers(s, key)
  {
    var used := Targets(s.pins) + Targets(BufOf(s.handles));
    UsedSize(s.pins, s.handles);
    if forall b :: 0 <= b < |s.bufs| ==> b in used {
      AllBelow(|s.bufs|, used);
    } else {
      var b :| 0 <= b < |s.bufs| && b !in used;
      if s.bufs[b].refcnt > 0 {
        InUseIsTarget(s, b);
      }
    }
  }

  lemma UsedSize(pins: map<Key, nat>, handles: map<nat, Handle>)
    ensures |Targets(pins) + Targets(BufOf(handles))| <= |pins| + |handles|
  {
    TargetsSize(pins);
    TargetsSize(BufOf(handles));
    assert BufOf(handles).Keys == handles.Keys;
    assert |BufOf(handles)| == |BufOf(handles).Keys| == |handles.Keys| == |handles|;
  }

  lemma InUseIsTarget<T>(s: State<T>, b: nat)
    requires InvRefs(s) && InvKeys(s) && b < |s.bufs| && s.bufs[b].refcnt > 0
    ensures b in Targets(s.pins) + Targets(BufOf(s.handles))
  {
    InUseExactly(s, b);
    if KeyOf(s.bufs[b]) in s.pins {
      PinnedHere(s, b);
    } else {
      var h :| h in s.handles && s.handles[h].buf == b;
      assert BufOf(s.handles)[h] == b;
    }
  }

  lemma PinnedHere<T>(s: State<T>, b: nat)
    requires InvKeys(s) && b < |s.bufs| && KeyOf(s.bufs[b]) in s.pins
    ensures s.pins[KeyOf(s.bufs[b])] == b
  {
  }

  /** With every buffer pinned, it panics for every other block. */
  lemma AllPinned<T>(s: State<T>, key: Key)
    requires Inv(s) && |s.pins| == |s.bufs| && key !in s.pins
    ensures NoBuffers(s, key)
  {
    TargetsOneToOne(s.pins);
    OnlyBelow(|s.bufs|, Targets(s.pins));
    forall b | 0 <= b < |s.bufs| ensures s.bufs[b].refcnt > 0 && !Matches(s.bufs[b], key.dev, key.blockno) {
      assert b in Targets(s.pins);
      var k :| k in s.pins && s.pins[k] == b;
    }
  }
}
