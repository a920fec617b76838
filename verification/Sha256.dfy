/** SHA-256 as in FIPS 180-4, and the boot loader's streaming implementation of it. */
module Sha256 {

  type Byte = bv8
  type Word = bv32
  type Block512 = b: seq<Byte> | |b| == 64 witness seq(64, i => 0)

  // ---------------------------------------------------------------- FIPS 180-4

  // Sections 2.2.2, 3.2 and 4.1.2. Words add modulo 2^32.
  function Add(x: Word, y: Word): Word { x + y }

  function RotR(x: Word, n: Word): Word
    requires n <= 32
  {
    (x >> n) | (x << (32 - n))
  }

  function Ch(x: Word, y: Word, z: Word): Word { (x & y) ^ (!x & z) }

  function Maj(x: Word, y: Word, z: Word): Word { (x & y) ^ (x & z) ^ (y & z) }

  function Sum0(x: Word): Word { RotR(x, 2) ^ RotR(x, 13) ^ RotR(x, 22) }

  function Sum1(x: Word): Word { RotR(x, 6) ^ RotR(x, 11) ^ RotR(x, 25) }

  function Sigma0(x: Word): Word { RotR(x, 7) ^ RotR(x, 18) ^ (x >> 3) }

  function Sigma1(x: Word): Word { RotR(x, 17) ^ RotR(x, 19) ^ (x >> 10) }

  // Section 4.2.2.
  const K: seq<Word> :=
    [0x428a2f98, 0x71374491, 0xb5c0fbcf, 0xe9b5dba5, 0x3956c25b, 0x59f111f1, 0x923f82a4, 0xab1c5ed5] +
    [0xd807aa98, 0x12835b01, 0x243185be, 0x550c7dc3, 0x72be5d74, 0x80deb1fe, 0x9bdc06a7, 0xc19bf174] +
    [0xe49b69c1, 0xefbe4786, 0x0fc19dc6, 0x240ca1cc, 0x2de92c6f, 0x4a7484aa, 0x5cb0a9dc, 0x76f988da] +
    [0x983e5152, 0xa831c66d, 0xb00327c8, 0xbf597fc7, 0xc6e00bf3, 0xd5a79147, 0x06ca6351, 0x14292967] +
    [0x27b70a85, 0x2e1b2138, 0x4d2c6dfc, 0x53380d13, 0x650a7354, 0x766a0abb, 0x81c2c92e, 0x92722c85] +
    [0xa2bfe8a1, 0xa81a664b, 0xc24b8b70, 0xc76c51a3, 0xd192e819, 0xd6990624, 0xf40e3585, 0x106aa070] +
    [0x19a4c116, 0x1e376c08, 0x2748774c, 0x34b0bcb5, 0x391c0cb3, 0x4ed8aa4a, 0x5b9cca4f, 0x682e6ff3] +
    [0x748f82ee, 0x78a5636f, 0x84c87814, 0x8cc70208, 0x90befffa, 0xa4506ceb, 0xbef9a3f7, 0xc67178f2]

  datatype Vars = Vars(a: Word, b: Word, c: Word, d: Word, e: Word, f: Word, g: Word, h: Word)

  // Section 5.3.3.
  const H0 := Vars(0x6a09e667, 0xbb67ae85, 0x3c6ef372, 0xa54ff53a, 0x510e527f, 0x9b05688c, 0x1f83d9ab, 0x5be0cd19)

  // A word's four bytes, most significant first (section 3.1), and back.
  function WordOf(b0: Byte, b1: Byte, b2: Byte, b3: Byte): Word
  {
    (b0 as Word << 24) | (b1 as Word << 16) | (b2 as Word << 8) | b3 as Word
  }

  function ByteOf(w: Word, i: nat): Byte
    requires i < 4
  {
    ((if i == 0 then w >> 24 else if i == 1 then w >> 16 else if i == 2 then w >> 8 else w) & 0xff) as Byte
  }

  function Bytes(w: Word): seq<Byte> { [ByteOf(w, 0), ByteOf(w, 1), ByteOf(w, 2), ByteOf(w, 3)] }

  function NextWord(w2: Word, w7: Word, w15: Word, w16: Word): Word { Add(Add(Add(Sigma1(w2), w7), Sigma0(w15)), w16) }

  /** Section 6.2.2, step 1: the message schedule. */
  function Schedule(block: seq<Byte>, t: nat): Word
    requires |block| == 64 && t < 64
  {
    if t < 16 then WordOf(block[4 * t], block[4 * t + 1], block[4 * t + 2], block[4 * t + 3])
    else NextWord(Schedule(block, t - 2), Schedule(block, t - 7), Schedule(block, t - 15), Schedule(block, t - 16))
  }

  function T1(e: Word, f: Word, g: Word, h: Word, k: Word,
              w: Word): Word { Add(Add(Add(Add(h, Sum1(e)), Ch(e, f, g)), k), w) }

  function T2(a: Word, b: Word, c: Word): Word { Add(Sum0(a), Maj(a, b, c)) }

  /** Step 3 for one t, given its two temporary words. */
  function Shift(v: Vars, t1: Word, t2: Word): Vars { Vars(Add(t1, t2), v.a, v.b, v.c, Add(v.d, t1), v.e, v.f, v.g) }

  function Round(v: Vars, k: Word, w: Word): Vars { Shift(v, T1(v.e, v.f, v.g, v.h, k, w), T2(v.a, v.b, v.c)) }

  function Rounds(v: Vars, ws: seq<Word>, t: nat): Vars
    requires |ws| == 64 && t <= 64
  {
    if t == 0 then v else Round(Rounds(v, ws, t - 1), K[t - 1], ws[t - 1])
  }

  function Words(block: seq<Byte>): seq<Word>
    requires |block| == 64
  {
    seq(64, t requires 0 <= t < 64 => Schedule(block, t))
  }

  function Plus(v: Vars, r: Vars): Vars
  {
    Vars(Add(v.a, r.a), Add(v.b, r.b), Add(v.c, r.c), Add(v.d, r.d),
         Add(v.e, r.e), Add(v.f, r.f), Add(v.g, r.g), Add(v.h, r.h))
  }

  /** Steps 2 to 4: the next intermediate hash value. */
  function Compress(v: Vars, block: Block512): Vars
  {
    var ws := Words(block); Plus(v, Rounds(v, ws, |ws|))
  }

  // Section 5.2.1.
  function Block(m: seq<Byte>, n: nat): Block512
    requires 64 * n + 64 <= |m|
  {
    m[64 * n..64 * n + 64]
  }

  /** Section 6.2.2: the hash value after the first n blocks of m, in order, with compression function f. */
  function HashOf(f: (Vars, Block512) -> Vars, m: seq<Byte>, n: nat): Vars
    requires 64 * n <= |m|
  {
    if n == 0 then H0 else f(HashOf(f, m, n - 1), Block(m, n - 1))
  }

  /** n as k bytes, most significant first. */
  function BigEndian(n: nat, k: nat): (bs: seq<Byte>)
    ensures |bs| == k
  {
    if k == 0 then [] else BigEndian(n / 256, k - 1) + [(n % 256) as Byte]
  }

  function Zeros(n: nat): (z: seq<Byte>)
    ensures |z| == n
  {
    seq(n, i => 0)
  }

  // Bytes of zeros between the 0x80 byte and the length: the fewest that make the padded message whole blocks.
  function ZeroBytes(n: nat): nat { (55 - n) % 64 }

  lemma FewestZeros(n: nat, z: nat)
    requires (n + 1 + z + 8) % 64 == 0
    ensures (n + 1 + ZeroBytes(n) + 8) % 64 == 0 && ZeroBytes(n) <= z
  {}

  /** Section 5.1.1: the message, a one bit, the fewest zero bits, and the length in bits as a 64-bit number. */
  function Pad(m: seq<Byte>): (p: seq<Byte>)
    requires 8 * |m| < 0x1_0000_0000_0000_0000
    ensures |p| % 64 == 0
  {
    m + [0x80] + Zeros(ZeroBytes(|m|)) + BigEndian(8 * |m|, 8)
  }

  function BytesOf(ws: seq<Word>): (bs: seq<Byte>)
    ensures |bs| == 4 * |ws|
  {
    if ws == [] then [] else Bytes(ws[0]) + BytesOf(ws[1..])
  }

  function WordsIn(v: Vars): (ws: seq<Word>)
    ensures |ws| == 8
  {
    [v.a, v.b, v.c, v.d, v.e, v.f, v.g, v.h]
  }

  function Digest(v: Vars): (d: seq<Byte>)
    ensures |d| == 32
  {
    BytesOf(WordsIn(v))
  }

  function HashWith(f: (Vars, Block512) -> Vars, m: seq<Byte>): (d: seq<Byte>)
    requires 8 * |m| < 0x1_0000_0000_0000_0000
    ensures |d| == 32
  {
    var p := Pad(m);
    Digest(HashOf(f, p, |p| / 64))
  }

  /** The SHA-256 digest of m. */
  function Hash(m: seq<Byte>): seq<Byte>
    requires 8 * |m| < 0x1_0000_0000_0000_0000
  {
    HashWith(Compress, m)
  }

  /** Words survive the trip through bytes, and bytes the trip through words. */
  lemma WordBytes(w: Word, b0: Byte, b1: Byte, b2: Byte, b3: Byte)
    ensures WordOf(ByteOf(w, 0), ByteOf(w, 1), ByteOf(w, 2), ByteOf(w, 3)) == w
    ensures Bytes(WordOf(b0, b1, b2, b3)) == [b0, b1, b2, b3]
  {}

  // ---------------------------------------------------------------- the implementation

  const WRAP64 := 0x1_0000_0000_0000_0000

  function VarsOf(s: seq<Word>): Vars
    requires |s| == 8
  {
    Vars(s[0], s[1], s[2], s[3], s[4], s[5], s[6], s[7])
  }

  /** f is the compression function. The lemmas below hold of any f, and need not look inside it. */
  ghost predicate Compresses(f: (Vars, Block512) -> Vars) {
    forall v, b {:trigger Compress(v, b)} :: f(v, b) == Compress(v, b)
  }

  /** vs[i + 1] is the hash value after block i of m, given that vs[i] is the one before it. */
  ghost predicate Linked(f: (Vars, Block512) -> Vars, vs: seq<Vars>, m: seq<Byte>, i: nat)
    requires i + 1 < |vs| && 64 * i + 64 <= |m|
  {
    vs[i + 1] == f(vs[i], Block(m, i))
  }

  /** vs lists the intermediate hash values of the first whole blocks of m. */
  ghost predicate Chain(f: (Vars, Block512) -> Vars, vs: seq<Vars>, m: seq<Byte>) {
    && 0 < |vs| && 64 * (|vs| - 1) <= |m| && vs[0] == H0
    && forall i: nat {:trigger Linked(f, vs, m, i)} :: i + 1 < |vs| ==> Linked(f, vs, m, i)
  }

  lemma ChainKept(f: (Vars, Block512) -> Vars, vs: seq<Vars>, m: seq<Byte>, m': seq<Byte>)
    requires Chain(f, vs, m) && m <= m'
    ensures Chain(f, vs, m')
  {
    forall i: nat | i + 1 < |vs|
      ensures Linked(f, vs, m', i)
    {
      assert Linked(f, vs, m, i);
      assert Block(m', i) == Block(m, i);
    }
  }

  lemma ChainNext(f: (Vars, Block512) -> Vars, vs: seq<Vars>, m: seq<Byte>)
    requires Chain(f, vs, m) && 64 * |vs| <= |m|
    ensures Chain(f, vs + [f(vs[|vs| - 1], Block(m, |vs| - 1))], m)
  {
    var vs' := vs + [f(vs[|vs| - 1], Block(m, |vs| - 1))];
    forall i: nat | i + 1 < |vs'|
      ensures Linked(f, vs', m, i)
    {
      if i + 1 < |vs| {
        assert Linked(f, vs, m, i);
      }
    }
  }

  lemma {:induction false} ChainHash(f: (Vars, Block512) -> Vars, vs: seq<Vars>, m: seq<Byte>, i: nat)
    requires Chain(f, vs, m) && i < |vs|
    ensures vs[i] == HashOf(f, m, i)
  {
    if i > 0 {
      ChainHash(f, vs, m, i - 1);
      assert Linked(f, vs, m, i - 1);
    }
  }

  ghost predicate Scheduled(w: Word, block: seq<Byte>, t: nat)
    requires |block| == 64 && t < 64
  {
    w == Schedule(block, t)
  }

  lemma ScheduledFirst(block: seq<Byte>, t: nat)
    requires |block| == 64 && t < 16
    ensures Scheduled(WordOf(block[4 * t], block[4 * t + 1], block[4 * t + 2], block[4 * t + 3]), block, t)
  {}

  lemma ScheduledNext(block: seq<Byte>, t: nat, w2: Word, w7: Word, w15: Word, w16: Word)
    requires |block| == 64 && 16 <= t < 64
    requires Scheduled(w2, block, t - 2) && Scheduled(w7, block, t - 7) && Scheduled(w15, block, t - 15)
    requires Scheduled(w16, block, t - 16)
    ensures Scheduled(NextWord(w2, w7, w15, w16), block, t)
  {}

  ghost predicate Mixed(x: Vars, v: Vars, ws: seq<Word>, t: nat)
    requires |ws| == 64 && t <= 64
  {
    x == Rounds(v, ws, t)
  }

  lemma MixedNext(x: Vars, v: Vars, ws: seq<Word>, t: nat)
    requires |ws| == 64 && t < 64 && Mixed(x, v, ws, t)
    ensures Mixed(Round(x, K[t], ws[t]), v, ws, t + 1)
  {}

  lemma RoundIs(v: Vars, k: Word, w: Word, t1: Word, t2: Word)
    requires t1 == T1(v.e, v.f, v.g, v.h, k, w) && t2 == T2(v.a, v.b, v.c)
    ensures Round(v, k, w) == Shift(v, t1, t2)
  {}

  lemma ShiftIs(a: Word, b: Word, c: Word, d: Word, e: Word, f: Word, g: Word, h: Word, t1: Word, t2: Word)
    ensures Shift(Vars(a, b, c, d, e, f, g, h), t1, t2) == Vars(Add(t1, t2), a, b, c, Add(d, t1), e, f, g)
  {}

  lemma PlusIs(s: seq<Word>, s': seq<Word>, a: Word, b: Word, c: Word, d: Word, e: Word, f: Word, g: Word, h: Word)
    requires |s| == |s'| == 8
    requires s'[0] == Add(s[0], a) && s'[1] == Add(s[1], b) && s'[2] == Add(s[2], c) && s'[3] == Add(s[3], d)
    requires s'[4] == Add(s[4], e) && s'[5] == Add(s[5], f) && s'[6] == Add(s[6], g) && s'[7] == Add(s[7], h)
    ensures VarsOf(s') == Plus(VarsOf(s), Vars(a, b, c, d, e, f, g, h))
  {}

  lemma BitsNext(n: nat)
    ensures (512 * n % WRAP64 + 512) % WRAP64 == 512 * (n + 1) % WRAP64
  {}

  lemma BitsLast(n: nat, d: nat)
    requires 8 * (64 * n + d) < WRAP64
    ensures (512 * n % WRAP64 + d * 8) % WRAP64 == 8 * (64 * n + d)
  {
    assert 512 * n % WRAP64 == 512 * n;
  }

  lemma CompressIs(f: (Vars, Block512) -> Vars, v: Vars, block: Block512, ws: seq<Word>, r: Vars)
    requires Compresses(f) && ws == Words(block) && Mixed(r, v, ws, |ws|)
    ensures f(v, block) == Plus(v, r)
  {
    assert f(v, block) == Compress(v, block);
  }

  // n shifted right by k bytes.
  function Shr(n: nat, k: nat): nat
  {
    if k == 0 then n else Shr(n / 256, k - 1)
  }

  function ByteAt(n: nat, k: nat): Byte { (Shr(n, k) % 256) as Byte }

  lemma {:induction false} BigEndianAt(n: nat, k: nat, j: nat)
    requires j < k
    ensures BigEndian(n, k)[k - 1 - j] == ByteAt(n, j)
  {
    if j > 0 {
      BigEndianAt(n / 256, k - 1, j - 1);
    }
  }

  lemma {:induction false} BytesOfAt(ws: seq<Word>, j: nat, t: nat)
    requires j < |ws| && t < 4
    ensures BytesOf(ws)[4 * j + t] == ByteOf(ws[j], t)
  {
    if j > 0 {
      BytesOfAt(ws[1..], j - 1, t);
    }
  }

  // Byte i of every word.
  function RowOf(s: seq<Word>, i: nat): (r: seq<Byte>)
    requires |s| == 8 && i < 4
    ensures |r| == 8
  {
    [ByteOf(s[0], i), ByteOf(s[1], i), ByteOf(s[2], i), ByteOf(s[3], i),
     ByteOf(s[4], i), ByteOf(s[5], i), ByteOf(s[6], i), ByteOf(s[7], i)]
  }

  /** r[j] is at place t of word j. */
  ghost predicate Row(hash: seq<Byte>, r: seq<Byte>, t: nat)
    requires |hash| == 32 && |r| == 8 && t < 4
  {
    forall j :: 0 <= j < 8 ==> hash[t + 4 * j] == r[j]
  }

  // The eight assignments of one turn of the output loop: r[j] goes to place i of word j.
  function WriteRow(hash: seq<Byte>, r: seq<Byte>, i: nat): (h: seq<Byte>)
    requires |hash| == 32 && |r| == 8 && i < 4
    ensures |h| == 32
  {
    hash[i := r[0]][i + 4 := r[1]][i + 8 := r[2]][i + 12 := r[3]]
        [i + 16 := r[4]][i + 20 := r[5]][i + 24 := r[6]][i + 28 := r[7]]
  }

  lemma WriteRowAt(hash: seq<Byte>, r: seq<Byte>, i: nat, t: nat, j: nat)
    requires |hash| == 32 && |r| == 8 && i < 4 && t < 4 && j < 8
    ensures WriteRow(hash, r, i)[t + 4 * j] == if t == i then r[j] else hash[t + 4 * j]
  {}

  lemma RowWritten(hash: seq<Byte>, r: seq<Byte>, i: nat, r': seq<Byte>, t: nat)
    requires |hash| == 32 && |r| == |r'| == 8 && t <= i < 4 && (if t < i then Row(hash, r', t) else r' == r)
    ensures Row(WriteRow(hash, r, i), r', t)
  {
    var h := WriteRow(hash, r, i);
    forall j: nat | j < 8
      ensures h[t + 4 * j] == r'[j]
    {
      WriteRowAt(hash, r, i, t, j);
    }
  }

  lemma LastBytes(d: seq<Byte>, n: nat)
    requires |d| == 64
    requires d[63] == ByteAt(n, 0) && d[62] == ByteAt(n, 1) && d[61] == ByteAt(n, 2) && d[60] == ByteAt(n, 3)
    requires d[59] == ByteAt(n, 4) && d[58] == ByteAt(n, 5) && d[57] == ByteAt(n, 6) && d[56] == ByteAt(n, 7)
    ensures d == d[..56] + BigEndian(n, 8)
  {
    forall i | 56 <= i < 64
      ensures d[i] == BigEndian(n, 8)[i - 56]
    {
      BigEndianAt(n, 8, 63 - i);
    }
  }

  lemma RowOfAt(s: seq<Word>, t: nat, j: nat)
    requires |s| == 8 && t < 4 && j < 8
    ensures RowOf(s, t)[j] == ByteOf(s[j], t)
  {}

  lemma RowsAt(hash: seq<Byte>, s: seq<Word>, t: nat, j: nat)
    requires |hash| == 32 && |s| == 8 && t < 4 && j < 8 && Row(hash, RowOf(s, t), t)
    ensures hash[t + 4 * j] == BytesOf(s)[4 * j + t]
  {
    RowOfAt(s, t, j);
    BytesOfAt(s, j, t);
  }

  lemma WordsOfVars(s: seq<Word>)
    requires |s| == 8
    ensures WordsIn(VarsOf(s)) == s
  {}

  lemma DigestOfChain(f: (Vars, Block512) -> Vars, vs: seq<Vars>, m: seq<Byte>)
    requires 8 * |m| < WRAP64 && Chain(f, vs, Pad(m)) && |Pad(m)| == 64 * (|vs| - 1)
    ensures HashWith(f, m) == Digest(vs[|vs| - 1])
  {
    ChainHash(f, vs, Pad(m), |vs| - 1);
  }

  // ---------------------------------------------------------------- the padding, block by block

  lemma ZeroBytesIs(n: nat, d: nat)
    requires d < 64
    ensures ZeroBytes(64 * n + d) == (if d < 56 then 55 - d else 119 - d)
  {
    var z := if d < 56 then 55 - d else 119 - d;
    assert 55 - (64 * n + d) == 64 * (if d < 56 then 0 - n else 0 - n - 1) + z;
  }

  /** With d bytes beyond the last whole block, the padding ends the block when d < 56 and takes one more otherwise. */
  lemma PadSize(m: seq<Byte>, n: nat, d: nat)
    requires |m| == 64 * n + d && d < 64 && 8 * |m| < WRAP64
    ensures ZeroBytes(|m|) == (if d < 56 then 55 - d else 119 - d)
    ensures |Pad(m)| == 64 * (n + (if d < 56 then 1 else 2)) && m <= Pad(m)
  {
    ZeroBytesIs(n, d);
  }

  lemma PadShort(m: seq<Byte>, n: nat, d: nat)
    requires |m| == 64 * n + d && d < 56 && 8 * |m| < WRAP64
    ensures |Pad(m)| == 64 * n + 64
    ensures Block(Pad(m), n) == m[64 * n..] + [0x80] + Zeros(55 - d) + BigEndian(8 * |m|, 8)
  {
    PadSize(m, n, d);
  }

  lemma PadLong(m: seq<Byte>, n: nat, d: nat)
    requires |m| == 64 * n + d && 56 <= d < 64 && 8 * |m| < WRAP64
    ensures |Pad(m)| == 64 * n + 128
    ensures Block(Pad(m), n) == m[64 * n..] + [0x80] + Zeros(63 - d)
    ensures Block(Pad(m), n + 1) == Zeros(56) + BigEndian(8 * |m|, 8)
  {
    PadSize(m, n, d);
    assert Zeros(119 - d) == Zeros(63 - d) + Zeros(56);
  }

  lemma RowsAreDigest(hash: seq<Byte>, s: seq<Word>)
    requires |hash| == 32 && |s| == 8 && forall t: nat {:trigger RowOf(s, t)} :: t < 4 ==> Row(hash, RowOf(s, t), t)
    ensures hash == Digest(VarsOf(s))
  {
    WordsOfVars(s);
    forall i | 0 <= i < 32
      ensures hash[i] == BytesOf(s)[i]
    {
      RowsAt(hash, s, i % 4, i / 4);
    }
  }

  class Context {
    const data: array<Byte>
    const state: array<Word>
    ghost const f: (Vars, Block512) -> Vars
    var datalen: nat
    var bitlen: nat
    // What has been fed in so far, and the hash values after each whole block of it.
    ghost var msg: seq<Byte>
    ghost var vs: seq<Vars>

    ghost predicate Shape()
      reads this
    {
      data.Length == 64 && state.Length == 8 && Compresses(f)
    }

    /** The whole blocks of msg are hashed into state; the rest waits in data. */
    ghost predicate Valid()
      reads this, data, state
    {
      && Shape() && Chain(f, vs, msg) && VarsOf(state[..]) == vs[|vs| - 1]
      && 64 * (|vs| - 1) + datalen == |msg| && datalen < 64
      && data[..datalen] == msg[64 * (|vs| - 1)..]
      && bitlen == 512 * (|vs| - 1) % WRAP64
    }

    constructor ()
      ensures Shape() && fresh(data) && fresh(state) && f == Compress
    {
      data, state, f := new Byte[64], new Word[8], Compress;
    }

    /** sha256_init. */
    method Init()
      requires Shape()
      modifies this, state
      ensures Valid() && msg == []
    {
      datalen, bitlen := 0, 0;
      state[0], state[1], state[2], state[3] := 0x6a09e667, 0xbb67ae85, 0x3c6ef372, 0xa54ff53a;
      state[4], state[5], state[6], state[7] := 0x510e527f, 0x9b05688c, 0x1f83d9ab, 0x5be0cd19;
      msg, vs := [], [H0];
    }

    /** The two loops of sha256_transform that fill the message schedule. */
    method Expand() returns (m: array<Word>)
      requires Shape()
      ensures fresh(m) && m.Length == 64 && m[..] == Words(data[..])
    {
      m := new Word[64];
      ghost var block := data[..];
      var i, j := 0, 0;
      while i < 16
        invariant 0 <= i <= 16 && j == 4 * i && forall t {:trigger m[t]} :: 0 <= t < i ==> Scheduled(m[t], block, t)
      {
        ScheduledFirst(block, i);
        m[i] := WordOf(data[j], data[j + 1], data[j + 2], data[j + 3]);
        i, j := i + 1, j + 4;
      }
      while i < 64
        invariant 16 <= i <= 64 && forall t {:trigger m[t]} :: 0 <= t < i ==> Scheduled(m[t], block, t)
      {
        ScheduledNext(block, i, m[i - 2], m[i - 7], m[i - 15], m[i - 16]);
        m[i] := NextWord(m[i - 2], m[i - 7], m[i - 15], m[i - 16]);
        i := i + 1;
      }
    }

    /** The 64 rounds of sha256_transform. */
    method Mix(m: array<Word>) returns (a: Word, b: Word, c: Word, d: Word, e: Word, f: Word, g: Word, h: Word)
      requires Shape() && m.Length == 64
      ensures Mixed(Vars(a, b, c, d, e, f, g, h), VarsOf(state[..]), m[..], |m[..]|)
    {
      ghost var ws, v := m[..], VarsOf(state[..]);
      a, b, c, d, e, f, g, h := state[0], state[1], state[2], state[3], state[4], state[5], state[6], state[7];
      assert Mixed(Vars(a, b, c, d, e, f, g, h), v, ws, 0);
      var i := 0;
      while i < 64
        invariant 0 <= i <= 64 && Mixed(Vars(a, b, c, d, e, f, g, h), v, ws, i)
      {
        var t1 := T1(e, f, g, h, K[i], m[i]);
        var t2 := T2(a, b, c);
        MixedNext(Vars(a, b, c, d, e, f, g, h), v, ws, i);
        ShiftIs(a, b, c, d, e, f, g, h, t1, t2);
        RoundIs(Vars(a, b, c, d, e, f, g, h), K[i], m[i], t1, t2);
        h := g;
        g := f;
        f := e;
        e := Add(d, t1);
        d := c;
        c := b;
        b := a;
        a := Add(t1, t2);
        i := i + 1;
      }
    }

    /** The last lines of sha256_transform. */
    method AddTo(a: Word, b: Word, c: Word, d: Word, e: Word, f: Word, g: Word, h: Word)
      requires Shape()
      modifies state
      ensures VarsOf(state[..]) == Plus(VarsOf(old(state[..])), Vars(a, b, c, d, e, f, g, h))
    {
      ghost var s := state[..];
      state[0], state[1], state[2], state[3] := Add(state[0], a), Add(state[1], b), Add(state[2], c), Add(state[3], d);
      state[4], state[5], state[6], state[7] := Add(state[4], e), Add(state[5], f), Add(state[6], g), Add(state[7], h);
      PlusIs(s, state[..], a, b, c, d, e, f, g, h);
    }

    /** What sha256_transform is going to add to the state. */
    method Addend() returns (a: Word, b: Word, c: Word, d: Word, e: Word, f': Word, g: Word, h: Word)
      requires Shape()
      ensures f(VarsOf(state[..]), data[..]) == Plus(VarsOf(state[..]), Vars(a, b, c, d, e, f', g, h))
    {
      var m := Expand();
      a, b, c, d, e, f', g, h := Mix(m);
      CompressIs(f, VarsOf(state[..]), data[..], m[..], Vars(a, b, c, d, e, f', g, h));
    }

    /** sha256_transform on the context's own buffer: one step of the hash computation. */
    method Transform()
      requires Shape()
      modifies state
      ensures VarsOf(state[..]) == old(f(VarsOf(state[..]), data[..]))
    {
      var a, b, c, d, e, f', g, h := Addend();
      AddTo(a, b, c, d, e, f', g, h);
    }

    /** A full buffer, the next block of m, is hashed. */
    method Flush(ghost m: seq<Byte>)
      requires Shape() && Chain(f, vs, m) && VarsOf(state[..]) == vs[|vs| - 1]
      requires 64 * |vs| <= |m| && data[..] == Block(m, |vs| - 1)
      modifies state, `vs
      ensures Chain(f, vs, m) && VarsOf(state[..]) == vs[|vs| - 1] && |vs| == old(|vs|) + 1
    {
      ChainNext(f, vs, m);
      Transform();
      vs := vs + [VarsOf(state[..])];
    }

    /** The body of sha256_update's loop. */
    method Feed(b: Byte)
      requires Valid()
      modifies this, data, state
      ensures Valid() && msg == old(msg) + [b]
    {
      ghost var m, n := msg + [b], |vs| - 1;
      ChainKept(f, vs, msg, m);
      data[datalen] := b;
      datalen := datalen + 1;
      assert data[..datalen] == m[64 * n..];
      if datalen == 64 {
        assert data[..] == Block(m, n);
        Flush(m);
        BitsNext(n);
        bitlen := (bitlen + 512) % WRAP64;
        datalen := 0;
      }
      msg := m;
    }

    /** sha256_update: the counter is a 32-bit word, so an update carries fewer than 2^32 bytes. */
    method Update(input: seq<Byte>)
      requires Valid() && |input| < 0x1_0000_0000
      modifies this, data, state
      ensures Valid() && msg == old(msg) + input
    {
      var i := 0;
      while i < |input|
        invariant 0 <= i <= |input| && Valid() && msg == old(msg) + input[..i]
      {
        Feed(input[i]);
        i := i + 1;
        assert input[..i] == input[..i - 1] + [input[i - 1]];
      }
      assert input[..i] == input;
    }

    /** memset and the two padding loops. */
    method ZeroFill(from: nat, to: nat)
      requires Shape() && from <= to <= 64
      modifies data
      ensures data[..] == old(data[..])[..from] + Zeros(to - from) + old(data[..])[to..]
    {
      var i := from;
      while i < to
        invariant from <= i <= to && data[..] == old(data[..])[..from] + Zeros(i - from) + old(data[..])[i..]
      {
        data[i] := 0;
        i := i + 1;
      }
    }

    /** The last eight bytes of the last block. */
    method PutLength()
      requires Shape() && bitlen < WRAP64
      modifies data
      ensures data[..] == old(data[..])[..56] + BigEndian(bitlen, 8)
    {
      data[63], data[62] := ByteAt(bitlen, 0), ByteAt(bitlen, 1);
      data[61], data[60] := ByteAt(bitlen, 2), ByteAt(bitlen, 3);
      data[59], data[58] := ByteAt(bitlen, 4), ByteAt(bitlen, 5);
      data[57], data[56] := ByteAt(bitlen, 6), ByteAt(bitlen, 7);
      LastBytes(data[..], bitlen);
    }

    /** The last loop of sha256_final: the state's words, most significant byte first. */
    method Output(hash: array<Byte>)
      requires Shape() && hash.Length == 32 && hash != data
      modifies hash
      ensures hash[..] == Digest(VarsOf(state[..]))
    {
      var i := 0;
      while i < 4
        invariant 0 <= i <= 4
        invariant forall t: nat {:trigger RowOf(state[..], t)} :: t < i ==> Row(hash[..], RowOf(state[..], t), t)
      {
        ghost var was := hash[..];
        hash[i] := ByteOf(state[0], i);
        hash[i + 4] := ByteOf(state[1], i);
        hash[i + 8] := ByteOf(state[2], i);
        hash[i + 12] := ByteOf(state[3], i);
        hash[i + 16] := ByteOf(state[4], i);
        hash[i + 20] := ByteOf(state[5], i);
        hash[i + 24] := ByteOf(state[6], i);
        hash[i + 28] := ByteOf(state[7], i);
        assert hash[..] == WriteRow(was, RowOf(state[..], i), i);
        forall t: nat | t <= i
          ensures Row(hash[..], RowOf(state[..], t), t)
        {
          RowWritten(was, RowOf(state[..], i), i, RowOf(state[..], t), t);
        }
        i := i + 1;
      }
      RowsAreDigest(hash[..], state[..]);
    }

    /** The 0x80 byte, and zeros up to the given place. */
    method MarkEnd(to: nat)
      requires Shape() && datalen < to <= 64
      modifies data
      ensures data[..to] == old(data[..datalen]) + [0x80] + Zeros(to - datalen - 1)
    {
      data[datalen] := 0x80;
      ghost var d := data[..];
      ZeroFill(datalen + 1, to);
      assert d[..datalen + 1] == old(data[..datalen]) + [0x80];
    }

    /** The branch of sha256_final in which the length still fits into the block. */
    method PadLast(ghost p: seq<Byte>)
      requires Valid() && datalen < 56 && 8 * |msg| < WRAP64 && p == Pad(msg)
      modifies data
      ensures |p| == 64 * |vs| && Block(p, |vs| - 1) == data[..56] + BigEndian(8 * |msg|, 8)
    {
      MarkEnd(56);
      PadShort(msg, |vs| - 1, datalen);
    }

    /** The branch in which it does not, and one more block follows. */
    method PadAndFlush(ghost p: seq<Byte>)
      requires Valid() && 56 <= datalen && 8 * |msg| < WRAP64 && p == Pad(msg) && Chain(f, vs, p)
      modifies data, state, `vs
      ensures Chain(f, vs, p) && VarsOf(state[..]) == vs[|vs| - 1] && |p| == 64 * |vs|
      ensures Block(p, |vs| - 1) == data[..56] + BigEndian(8 * |msg|, 8)
    {
      MarkEnd(64);
      PadLong(msg, |vs| - 1, datalen);
      assert data[..64] == data[..];
      Flush(p);
      ZeroFill(0, 56);
      assert data[..56] == Zeros(56);
    }

    /** The two padding branches of sha256_final: all of the last block but its length is in place. */
    method PadBuffer(ghost p: seq<Byte>)
      requires Valid() && 8 * |msg| < WRAP64 && p == Pad(msg)
      modifies data, state, `vs
      ensures Shape() && Chain(f, vs, p) && VarsOf(state[..]) == vs[|vs| - 1] && |p| == 64 * |vs|
      ensures Block(p, |vs| - 1) == data[..56] + BigEndian(8 * |msg|, 8)
    {
      PadSize(msg, |vs| - 1, datalen);
      ChainKept(f, vs, msg, p);
      if datalen < 56 {
        PadLast(p);
      } else {
        PadAndFlush(p);
      }
    }

    /** The rest of sha256_final up to its last transform: the length goes in, and the last block is hashed. */
    method LastBlock(ghost p: seq<Byte>)
      requires Shape() && Chain(f, vs, p) && VarsOf(state[..]) == vs[|vs| - 1] && |p| == 64 * |vs|
      requires Block(p, |vs| - 1) == data[..56] + BigEndian((bitlen + datalen * 8) % WRAP64, 8)
      modifies this, data, state
      ensures Shape() && Chain(f, vs, p) && VarsOf(state[..]) == vs[|vs| - 1] && |p| == 64 * (|vs| - 1)
    {
      bitlen := (bitlen + datalen * 8) % WRAP64;
      ghost var d := data[..];
      PutLength();
      assert d[..56] == old(data[..56]);
      Flush(p);
    }

    /** sha256_final but for its output: the state is the hash value of the padded message. */
    method Finish()
      requires Valid() && 8 * |msg| < WRAP64
      modifies this, data, state
      ensures Shape() && HashWith(f, old(msg)) == Digest(VarsOf(state[..]))
    {
      ghost var m, p := msg, Pad(msg);
      BitsLast(|vs| - 1, datalen);
      PadBuffer(p);
      LastBlock(p);
      DigestOfChain(f, vs, m);
    }

    /** sha256_final: whatever the cuts between updates were, the digest is that of all bytes fed in. */
    method Final(hash: array<Byte>)
      requires Valid() && 8 * |msg| < WRAP64 && hash.Length == 32 && hash != data
      modifies this, data, state, hash
      ensures hash[..] == HashWith(f, old(msg))
    {
      Finish();
      Output(hash);
    }
  }

  function Concat(parts: seq<seq<Byte>>): seq<Byte>
  {
    if parts == [] then [] else Concat(parts[..|parts| - 1]) + parts[|parts| - 1]
  }

  /** Streaming: for every way of cutting a message into updates, the result is SHA-256 of the whole. */
  method HashParts(parts: seq<seq<Byte>>) returns (hash: array<Byte>)
    requires 8 * |Concat(parts)| < WRAP64 && forall i :: 0 <= i < |parts| ==> |parts[i]| < 0x1_0000_0000
    ensures fresh(hash) && hash[..] == Hash(Concat(parts))
  {
    var ctx := new Context();
    ctx.Init();
    var i := 0;
    while i < |parts|
      invariant 0 <= i <= |parts| && ctx.Valid() && ctx.msg == Concat(parts[..i]) && fresh(ctx) && fresh(ctx.data)
      invariant fresh(ctx.state)
    {
      ctx.Update(parts[i]);
      assert parts[..i + 1][..i] == parts[..i];
      i := i + 1;
    }
    assert parts[..i] == parts;
    hash := new Byte[32];
    ctx.Final(hash);
  }
}
