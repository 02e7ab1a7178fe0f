/**
  CRC-32 of HW_09-CRC/crc32.c, and the chunked file checker of HW_09-CRC/check_crc32.c.

  The definition is the reflected division of section 8 of RFC 1952, one message bit at a time, lowest bit of a
  byte first. The table form is proved equal to it on every buffer, and the definition detects every error burst
  that fits in 32 consecutive bits.
 */

/** Running a deterministic machine over a sequence of inputs. */
module Runs {

  function Run<S, T>(step: (S, T) -> S, s: S, inputs: seq<T>): S
    decreases inputs
  {
    if inputs == [] then s else Run(step, step(s, inputs[0]), inputs[1..])
  }

  lemma {:induction false} RunConcat<S, T>(step: (S, T) -> S, s: S, a: seq<T>, b: seq<T>)
    ensures Run(step, s, a + b) == Run(step, Run(step, s, a), b)
    decreases a
  {
    if a == [] {
      assert a + b == b;
    } else {
      assert (a + b)[1..] == a[1..] + b;
      RunConcat(step, step(s, a[0]), a[1..], b);
    }
  }

  ghost predicate Injective<S(!new), T(!new)>(step: (S, T) -> S) {
    forall s, t, x :: step(s, x) == step(t, x) ==> s == t
  }

  /** Distinct states stay distinct while the machine reads the same inputs. */
  lemma {:induction false} RunInjective<S(!new), T(!new)>(step: (S, T) -> S, s: S, t: S, inputs: seq<T>)
    requires Injective(step)
    requires Run(step, s, inputs) == Run(step, t, inputs)
    ensures s == t
    decreases inputs
  {
    if inputs != [] {
      RunInjective(step, step(s, inputs[0]), step(t, inputs[0]), inputs[1..]);
    }
  }

  /** Going back one input, the two states get at most one level further apart. */
  ghost predicate Spreads<S(!new), T(!new)>(step: (S, T) -> S, apart: (S, S, nat) -> bool, levels: nat) {
    && (forall s, n: nat {:trigger apart(s, s, n)} :: apart(s, s, n))
    && (forall s, t, x, y, n: nat {:trigger apart(step(s, x), step(t, y), n)} ::
          n < levels && apart(step(s, x), step(t, y), n) ==> apart(s, t, n + 1))
  }

  /** Two runs that end in the same state cannot have started more levels apart than they read inputs. */
  lemma {:induction false} RunSpreads<S(!new), T(!new)>(step: (S, T) -> S, apart: (S, S, nat) -> bool, levels: nat,
                                                        s: S, t: S, a: seq<T>, b: seq<T>, n: nat)
    requires Spreads(step, apart, levels)
    requires |a| == |b| <= n <= levels
    requires Run(step, s, a) == Run(step, t, b)
    ensures apart(s, t, n)
    decreases a
  {
    if a == [] {
      assert apart(s, s, n);
    } else {
      RunSpreads(step, apart, levels, step(s, a[0]), step(t, b[0]), a[1..], b[1..], n - 1);
    }
  }

  /** The inputs produced by each element in turn. */
  function Expand<T, U>(f: T -> seq<U>, xs: seq<T>): seq<U> {
    if xs == [] then [] else f(xs[0]) + Expand(f, xs[1..])
  }

  lemma ExpandOne<T, U>(f: T -> seq<U>, x: T)
    ensures Expand(f, [x]) == f(x)
  {
    assert [x][1..] == [];
    assert f(x) + [] == f(x);
  }

  lemma {:induction false} ExpandConcat<T, U>(f: T -> seq<U>, a: seq<T>, b: seq<T>)
    ensures Expand(f, a + b) == Expand(f, a) + Expand(f, b)
  {
    if a == [] {
      assert a + b == b;
    } else {
      assert (a + b)[1..] == a[1..] + b;
      ExpandConcat(f, a[1..], b);
    }
  }

  ghost predicate Linear<S(!new)>(f: S -> S, add: (S, S) -> S) {
    forall x, y :: f(add(x, y)) == add(f(x), f(y))
  }

  lemma {:induction false} TimesLinear<S(!new)>(f: S -> S, add: (S, S) -> S, n: nat, a: S, b: S)
    requires Linear(f, add)
    ensures Times(f, n, add(a, b)) == add(Times(f, n, a), Times(f, n, b))
    decreases n
  {
    if n > 0 { TimesLinear(f, add, n - 1, f(a), f(b)); }
  }

  /** Rows of sixteen elements laid out one after the other. */
  function Rows<T>(rows: seq<seq<T>>): (t: seq<T>)
    requires forall r :: 0 <= r < |rows| ==> |rows[r]| == 16
    ensures |t| == 16 * |rows|
  {
    if rows == [] then [] else rows[0] + Rows(rows[1..])
  }

  lemma {:induction false} RowsAt<T>(rows: seq<seq<T>>, r: nat, j: nat)
    requires forall r :: 0 <= r < |rows| ==> |rows[r]| == 16
    requires r < |rows| && j < 16
    ensures Rows(rows)[16 * r + j] == rows[r][j]
  {
    if r > 0 { RowsAt(rows[1..], r - 1, j); }
  }

  /** The lowest bits of `w`, taken one by one. */
  function Lowest<S>(odd: S -> bool, half: S -> S, w: S, n: nat): (bits: seq<bool>)
    ensures |bits| == n
    decreases n
  {
    if n == 0 then [] else [odd(w)] + Lowest(odd, half, half(w), n - 1)
  }

  function Times<S>(f: S -> S, n: nat, s: S): S
    decreases n
  {
    if n == 0 then s else Times(f, n - 1, f(s))
  }

  /** Adding a whole word before `n` steps is adding its `n` lowest bits one before each step, and the rest after. */
  lemma {:induction false} WordIsBits<S(!new)>(f: S -> S, step: (S, bool) -> S, add: (S, S) -> S,
                                               odd: S -> bool, half: S -> S, s: S, w: S, n: nat)
    requires forall x, y :: f(add(x, y)) == add(step(x, odd(y)), half(y))
    ensures Times(f, n, add(s, w)) == add(Run(step, s, Lowest(odd, half, w, n)), Times(half, n, w))
    decreases n
  {
    if n > 0 {
      WordIsBits(f, step, add, odd, half, step(s, odd(w)), half(w), n - 1);
    }
  }

  /** The lowest bits determine a word that has no others. */
  lemma {:induction false} LowestInjective<S(!new)>(odd: S -> bool, half: S -> S, v: S, w: S, n: nat)
    requires forall x, y :: odd(x) == odd(y) && half(x) == half(y) ==> x == y
    requires Lowest(odd, half, v, n) == Lowest(odd, half, w, n)
    requires Times(half, n, v) == Times(half, n, w)
    ensures v == w
    decreases n
  {
    if n > 0 {
      var a, b := Lowest(odd, half, v, n), Lowest(odd, half, w, n);
      assert a[0] == b[0] && a[1..] == b[1..];
      LowestInjective(odd, half, half(v), half(w), n - 1);
    }
  }

  /** Expanding by words of equal length forgets nothing when the expansion of one element does not. */
  lemma {:induction false} ExpandInjective<T(!new), U(!new)>(f: T -> seq<U>, n: nat, a: seq<T>, b: seq<T>)
    requires forall x :: |f(x)| == n
    requires forall x, y :: f(x) == f(y) ==> x == y
    requires |a| == |b|
    requires Expand(f, a) == Expand(f, b)
    ensures a == b
  {
    if a != [] {
      var x, y := f(a[0]), f(b[0]);
      assert x == Expand(f, a)[..n] && y == Expand(f, b)[..n];
      assert Expand(f, a[1..]) == Expand(f, a)[n..] && Expand(f, b[1..]) == Expand(f, b)[n..];
      ExpandInjective(f, n, a[1..], b[1..]);
    }
  }

  lemma {:induction false} ExpandLength<T(!new), U(!new)>(f: T -> seq<U>, n: nat, a: seq<T>, b: seq<T>)
    requires forall x :: |f(x)| == n
    requires |a| == |b|
    ensures |Expand(f, a)| == |Expand(f, b)|
  {
    if a != [] { ExpandLength(f, n, a[1..], b[1..]); }
  }

  lemma {:induction false} ExpandCount<T(!new), U(!new)>(f: T -> seq<U>, n: nat, a: seq<T>, k: nat)
    requires forall x :: |f(x)| == n
    requires |a| <= k
    ensures |Expand(f, a)| <= k * n
    decreases k
  {
    if a != [] { ExpandCount(f, n, a[1..], k - 1); }
  }

  /** Inputs that differ only in `m` consecutive elements expand to sequences that differ only in one window. */
  lemma ExpandWindow<T(!new), U(!new)>(f: T -> seq<U>, n: nat, a: seq<T>, b: seq<T>, k: nat, m: nat) returns (p: nat)
    requires forall x :: |f(x)| == n
    requires |a| == |b|
    requires forall i :: 0 <= i < |a| && !(k <= i < k + m) ==> a[i] == b[i]
    ensures |Expand(f, a)| == |Expand(f, b)|
    ensures forall i :: 0 <= i < |Expand(f, a)| && !(p <= i < p + m * n) ==> Expand(f, a)[i] == Expand(f, b)[i]
  {
    var from := if k <= |a| then k else |a|;
    var to := if from + m <= |a| then from + m else |a|;
    var x, y, u, v, w := a[..from], b[..from], a[from..to], b[from..to], a[to..];
    assert x == y && w == b[to..] && a == x + (u + w) && b == x + (v + w);
    assert Expand(f, a) == Expand(f, x) + (Expand(f, u) + Expand(f, w)) by {
      ExpandConcat(f, x, u + w);
      ExpandConcat(f, u, w);
    }
    assert Expand(f, b) == Expand(f, x) + (Expand(f, v) + Expand(f, w)) by {
      ExpandConcat(f, x, v + w);
      ExpandConcat(f, v, w);
    }
    ExpandLength(f, n, u, v);
    ExpandCount(f, n, u, m);
    p := |Expand(f, x)|;
  }

  /** The first place where two different inputs of equal length differ. */
  lemma {:induction false} FirstDifference<T>(a: seq<T>, b: seq<T>) returns (p: nat)
    requires |a| == |b| && a != b
    ensures p < |a| && a[..p] == b[..p] && a[p] != b[p]
  {
    if a[0] != b[0] {
      p := 0;
    } else {
      assert a == [a[0]] + a[1..] && b == [b[0]] + b[1..];
      p := FirstDifference(a[1..], b[1..]);
      assert a[..p + 1] == [a[0]] + a[1..][..p] && b[..p + 1] == [b[0]] + b[1..][..p];
      p := p + 1;
    }
  }

  /**
    The run over a whole input, from the runs over what comes before, at, and after place `p`, and from place `q` on.
   */
  lemma RunCut<S, T>(step: (S, T) -> S, s: S, a: seq<T>, p: nat, q: nat)
    requires p < q <= |a|
    ensures Run(step, s, a) == Run(step, Run(step, step(Run(step, s, a[..p]), a[p]), a[p + 1..q]), a[q..])
  {
    assert a == a[..p] + a[p..];
    RunConcat(step, s, a[..p], a[p..]);
    assert a[p..][1..] == a[p + 1..q] + a[q..];
    RunConcat(step, step(Run(step, s, a[..p]), a[p]), a[p + 1..q], a[q..]);
  }
}

module Crc32 {
  import opened Bits
  import opened Runs

  // ---------- the definition: one bit at a time ----------

  /** Shifts the register by one and subtracts the polynomial when a one falls out. */
  function Step(c: bv32): bv32 {
    if c & 1 == 1 then (c >> 1) ^ 0xEDB88320 else c >> 1
  }

  function BitWord(bit: bool): bv32 {
    if bit then 1 else 0
  }

  function StepBit(c: bv32, bit: bool): bv32 {
    Step(c ^ BitWord(bit))
  }

  function Xor(a: bv32, b: bv32): bv32 {
    a ^ b
  }

  function Half(w: bv32): bv32 {
    w >> 1
  }

  predicate Odd(w: bv32) {
    w & 1 != 0
  }

  /** The bits of a byte, lowest first. */
  function ByteBits(b: bv8): seq<bool> {
    Lowest(Odd, Half, b as bv32, 8)
  }

  function MessageBits(buf: seq<bv8>): seq<bool> {
    Expand(ByteBits, buf)
  }

  /** The register after dividing all the bits of `buf`, starting from `c`. */
  function Crc(c: bv32, buf: seq<bv8>): bv32 {
    Run(StepBit, c, MessageBits(buf))
  }

  /** The remainder of a buffer continues from the remainder of its first part: chunks may be fed one by one. */
  lemma Composes(c: bv32, a: seq<bv8>, b: seq<bv8>)
    ensures Crc(c, a + b) == Crc(Crc(c, a), b)
  {
    ExpandConcat(ByteBits, a, b);
    RunConcat(StepBit, c, MessageBits(a), MessageBits(b));
  }

  // ---------- a whole byte at a time ----------

  /** `n` turns of the division, with no message bits coming in. */
  function Steps(n: nat, c: bv32): bv32 {
    Times(Step, n, c)
  }

  lemma XorParts(a: bv32, b: bv32)
    ensures (a ^ b) & 1 == (a & 1) ^ (b & 1)
    ensures (a ^ b) >> 1 == (a >> 1) ^ (b >> 1)
    ensures a & 1 == 0 || a & 1 == 1
  {
  }

  lemma XorRegroups(a: bv32, b: bv32, p: bv32)
    ensures (a ^ b) ^ p == (a ^ p) ^ b == a ^ (b ^ p)
    ensures (a ^ p) ^ (b ^ p) == a ^ b
  {
  }

  lemma StepLinear(a: bv32, b: bv32)
    ensures Step(a ^ b) == Step(a) ^ Step(b)
  {
    XorParts(a, b);
    XorParts(b, a);
    XorRegroups(a >> 1, b >> 1, 0xEDB88320);
  }

  lemma StepIsLinear()
    ensures Linear(Step, Xor)
  {
    forall x, y ensures Step(Xor(x, y)) == Xor(Step(x), Step(y)) { StepLinear(x, y); }
  }

  /** The bits of `w` above the lowest may be added after the step instead of before. */
  lemma Peel(c: bv32, w: bv32)
    ensures Step(c ^ w) == Step(c ^ (w & 1)) ^ (w >> 1)
  {
  }

  lemma OddBit(c: bv32, w: bv32)
    ensures StepBit(c, Odd(w)) == Step(c ^ (w & 1))
  {
    XorParts(w, w);
  }

  lemma PeelBit(c: bv32, w: bv32)
    ensures Step(Xor(c, w)) == Xor(StepBit(c, Odd(w)), Half(w))
  {
    OddBit(c, w);
    Peel(c, w);
  }

  lemma ByteRunsOut(b: bv8, n: nat)
    requires n == 8
    ensures Times(Half, n, b as bv32) == 0
  {
    HalfHalf(b as bv32);
    var w := b as bv32 >> 2;
    HalfHalf(w);
    HalfHalf(w >> 2);
    HalfHalf(w >> 4);
  }

  lemma HalfHalf(w: bv32)
    ensures Half(Half(w)) == w >> 2
  {
  }

  // ---------- the table ----------

  function Row(r: nat): (row: seq<bv32>)
    requires r < 16
    ensures |row| == 16
  {
    match r
    case 0 => [
      0x00000000, 0x77073096, 0xee0e612c, 0x990951ba, 0x076dc419, 0x706af48f, 0xe963a535, 0x9e6495a3,
      0x0edb8832, 0x79dcb8a4, 0xe0d5e91e, 0x97d2d988, 0x09b64c2b, 0x7eb17cbd, 0xe7b82d07, 0x90bf1d91]
    case 1 => [
      0x1db71064, 0x6ab020f2, 0xf3b97148, 0x84be41de, 0x1adad47d, 0x6ddde4eb, 0xf4d4b551, 0x83d385c7,
      0x136c9856, 0x646ba8c0, 0xfd62f97a, 0x8a65c9ec, 0x14015c4f, 0x63066cd9, 0xfa0f3d63, 0x8d080df5]
    case 2 => [
      0x3b6e20c8, 0x4c69105e, 0xd56041e4, 0xa2677172, 0x3c03e4d1, 0x4b04d447, 0xd20d85fd, 0xa50ab56b,
      0x35b5a8fa, 0x42b2986c, 0xdbbbc9d6, 0xacbcf940, 0x32d86ce3, 0x45df5c75, 0xdcd60dcf, 0xabd13d59]
    case 3 => [
      0x26d930ac, 0x51de003a, 0xc8d75180, 0xbfd06116, 0x21b4f4b5, 0x56b3c423, 0xcfba9599, 0xb8bda50f,
      0x2802b89e, 0x5f058808, 0xc60cd9b2, 0xb10be924, 0x2f6f7c87, 0x58684c11, 0xc1611dab, 0xb6662d3d]
    case 4 => [
      0x76dc4190, 0x01db7106, 0x98d220bc, 0xefd5102a, 0x71b18589, 0x06b6b51f, 0x9fbfe4a5, 0xe8b8d433,
      0x7807c9a2, 0x0f00f934, 0x9609a88e, 0xe10e9818, 0x7f6a0dbb, 0x086d3d2d, 0x91646c97, 0xe6635c01]
    case 5 => [
      0x6b6b51f4, 0x1c6c6162, 0x856530d8, 0xf262004e, 0x6c0695ed, 0x1b01a57b, 0x8208f4c1, 0xf50fc457,
      0x65b0d9c6, 0x12b7e950, 0x8bbeb8ea, 0xfcb9887c, 0x62dd1ddf, 0x15da2d49, 0x8cd37cf3, 0xfbd44c65]
    case 6 => [
      0x4db26158, 0x3ab551ce, 0xa3bc0074, 0xd4bb30e2, 0x4adfa541, 0x3dd895d7, 0xa4d1c46d, 0xd3d6f4fb,
      0x4369e96a, 0x346ed9fc, 0xad678846, 0xda60b8d0, 0x44042d73, 0x33031de5, 0xaa0a4c5f, 0xdd0d7cc9]
    case 7 => [
      0x5005713c, 0x270241aa, 0xbe0b1010, 0xc90c2086, 0x5768b525, 0x206f85b3, 0xb966d409, 0xce61e49f,
      0x5edef90e, 0x29d9c998, 0xb0d09822, 0xc7d7a8b4, 0x59b33d17, 0x2eb40d81, 0xb7bd5c3b, 0xc0ba6cad]
    case 8 => [
      0xedb88320, 0x9abfb3b6, 0x03b6e20c, 0x74b1d29a, 0xead54739, 0x9dd277af, 0x04db2615, 0x73dc1683,
      0xe3630b12, 0x94643b84, 0x0d6d6a3e, 0x7a6a5aa8, 0xe40ecf0b, 0x9309ff9d, 0x0a00ae27, 0x7d079eb1]
    case 9 => [
      0xf00f9344, 0x8708a3d2, 0x1e01f268, 0x6906c2fe, 0xf762575d, 0x806567cb, 0x196c3671, 0x6e6b06e7,
      0xfed41b76, 0x89d32be0, 0x10da7a5a, 0x67dd4acc, 0xf9b9df6f, 0x8ebeeff9, 0x17b7be43, 0x60b08ed5]
    case 10 => [
      0xd6d6a3e8, 0xa1d1937e, 0x38d8c2c4, 0x4fdff252, 0xd1bb67f1, 0xa6bc5767, 0x3fb506dd, 0x48b2364b,
      0xd80d2bda, 0xaf0a1b4c, 0x36034af6, 0x41047a60, 0xdf60efc3, 0xa867df55, 0x316e8eef, 0x4669be79]
    case 11 => [
      0xcb61b38c, 0xbc66831a, 0x256fd2a0, 0x5268e236, 0xcc0c7795, 0xbb0b4703, 0x220216b9, 0x5505262f,
      0xc5ba3bbe, 0xb2bd0b28, 0x2bb45a92, 0x5cb36a04, 0xc2d7ffa7, 0xb5d0cf31, 0x2cd99e8b, 0x5bdeae1d]
    case 12 => [
      0x9b64c2b0, 0xec63f226, 0x756aa39c, 0x026d930a, 0x9c0906a9, 0xeb0e363f, 0x72076785, 0x05005713,
      0x95bf4a82, 0xe2b87a14, 0x7bb12bae, 0x0cb61b38, 0x92d28e9b, 0xe5d5be0d, 0x7cdcefb7, 0x0bdbdf21]
    case 13 => [
      0x86d3d2d4, 0xf1d4e242, 0x68ddb3f8, 0x1fda836e, 0x81be16cd, 0xf6b9265b, 0x6fb077e1, 0x18b74777,
      0x88085ae6, 0xff0f6a70, 0x66063bca, 0x11010b5c, 0x8f659eff, 0xf862ae69, 0x616bffd3, 0x166ccf45]
    case 14 => [
      0xa00ae278, 0xd70dd2ee, 0x4e048354, 0x3903b3c2, 0xa7672661, 0xd06016f7, 0x4969474d, 0x3e6e77db,
      0xaed16a4a, 0xd9d65adc, 0x40df0b66, 0x37d83bf0, 0xa9bcae53, 0xdebb9ec5, 0x47b2cf7f, 0x30b5ffe9]
    case _ => [
      0xbdbdf21c, 0xcabac28a, 0x53b39330, 0x24b4a3a6, 0xbad03605, 0xcdd70693, 0x54de5729, 0x23d967bf,
      0xb3667a2e, 0xc4614ab8, 0x5d681b02, 0x2a6f2b94, 0xb40bbe37, 0xc30c8ea1, 0x5a05df1b, 0x2d02ef8d]
  }

  /** The table of 256 words, written down in rows of sixteen. */
  function Crc32Tab(): (t: seq<bv32>)
    ensures |t| == 256
  {
    Rows(seq(16, r requires 0 <= r < 16 => Row(r)))
  }

  lemma Row0(n: nat, j: bv32)
    requires n == 8 && j < 16
    ensures Row(0)[j as nat] == Steps(n, 0 ^ j)
  {
    assert Row(0)[j as nat] == Steps(8, 0 ^ j);
  }

  lemma Row1(n: nat, j: bv32)
    requires n == 8 && j < 16
    ensures Row(1)[j as nat] == Steps(n, 16 ^ j)
  {
    assert Row(1)[j as nat] == Steps(8, 16 ^ j);
  }

  lemma Row2(n: nat, j: bv32)
    requires n == 8 && j < 16
    ensures Row(2)[j as nat] == Steps(n, 32 ^ j)
  {
    assert Row(2)[j as nat] == Steps(8, 32 ^ j);
  }

  lemma Row3(n: nat, j: bv32)
    requires n == 8 && j < 16
    ensures Row(3)[j as nat] == Steps(n, 48 ^ j)
  {
    assert Row(3)[j as nat] == Steps(8, 48 ^ j);
  }

  lemma Row4(n: nat, j: bv32)
    requires n == 8 && j < 16
    ensures Row(4)[j as nat] == Steps(n, 64 ^ j)
  {
    assert Row(4)[j as nat] == Steps(8, 64 ^ j);
  }

  lemma Row5(n: nat, j: bv32)
    requires n == 8 && j < 16
    ensures Row(5)[j as nat] == Steps(n, 80 ^ j)
  {
    assert Row(5)[j as nat] == Steps(8, 80 ^ j);
  }

  lemma Row6(n: nat, j: bv32)
    requires n == 8 && j < 16
    ensures Row(6)[j as nat] == Steps(n, 96 ^ j)
  {
    assert Row(6)[j as nat] == Steps(8, 96 ^ j);
  }

  lemma Row7(n: nat, j: bv32)
    requires n == 8 && j < 16
    ensures Row(7)[j as nat] == Steps(n, 112 ^ j)
  {
    assert Row(7)[j as nat] == Steps(8, 112 ^ j);
  }

  lemma Row8(n: nat, j: bv32)
    requires n == 8 && j < 16
    ensures Row(8)[j as nat] == Steps(n, 128 ^ j)
  {
    assert Row(8)[j as nat] == Steps(8, 128 ^ j);
  }

  lemma Row9(n: nat, j: bv32)
    requires n == 8 && j < 16
    ensures Row(9)[j as nat] == Steps(n, 144 ^ j)
  {
    assert Row(9)[j as nat] == Steps(8, 144 ^ j);
  }

  lemma Row10(n: nat, j: bv32)
    requires n == 8 && j < 16
    ensures Row(10)[j as nat] == Steps(n, 160 ^ j)
  {
    assert Row(10)[j as nat] == Steps(8, 160 ^ j);
  }

  lemma Row11(n: nat, j: bv32)
    requires n == 8 && j < 16
    ensures Row(11)[j as nat] == Steps(n, 176 ^ j)
  {
    assert Row(11)[j as nat] == Steps(8, 176 ^ j);
  }

  lemma Row12(n: nat, j: bv32)
    requires n == 8 && j < 16
    ensures Row(12)[j as nat] == Steps(n, 192 ^ j)
  {
    assert Row(12)[j as nat] == Steps(8, 192 ^ j);
  }

  lemma Row13(n: nat, j: bv32)
    requires n == 8 && j < 16
    ensures Row(13)[j as nat] == Steps(n, 208 ^ j)
  {
    assert Row(13)[j as nat] == Steps(8, 208 ^ j);
  }

  lemma Row14(n: nat, j: bv32)
    requires n == 8 && j < 16
    ensures Row(14)[j as nat] == Steps(n, 224 ^ j)
  {
    assert Row(14)[j as nat] == Steps(8, 224 ^ j);
  }

  lemma Row15(n: nat, j: bv32)
    requires n == 8 && j < 16
    ensures Row(15)[j as nat] == Steps(n, 240 ^ j)
  {
    assert Row(15)[j as nat] == Steps(8, 240 ^ j);
  }

  lemma RowIsRemainders(n: nat, r: nat, high: bv32, j: bv32)
    requires n == 8 && r < 16 && j < 16
    requires r == high as nat
    ensures Row(r)[j as nat] == Steps(n, (high << 4) ^ j)
  {
    match r
    case 0 => Row0(n, j);
    case 1 => Row1(n, j);
    case 2 => Row2(n, j);
    case 3 => Row3(n, j);
    case 4 => Row4(n, j);
    case 5 => Row5(n, j);
    case 6 => Row6(n, j);
    case 7 => Row7(n, j);
    case 8 => Row8(n, j);
    case 9 => Row9(n, j);
    case 10 => Row10(n, j);
    case 11 => Row11(n, j);
    case 12 => Row12(n, j);
    case 13 => Row13(n, j);
    case 14 => Row14(n, j);
    case _ => Row15(n, j);
  }

  lemma SplitIndex(x: bv32)
    requires x < 256
    ensures x as nat == 16 * ((x >> 4) as nat) + ((x & 15) as nat)
    ensures x >> 4 < 16
    ensures x == ((x >> 4) << 4) ^ (x & 15)
  {
  }

  lemma Crc32TabAt(r: nat, j: nat)
    requires r < 16 && j < 16
    ensures Crc32Tab()[16 * r + j] == Row(r)[j]
  {
    RowsAt(seq(16, r requires 0 <= r < 16 => Row(r)), r, j);
  }

  lemma TableAt(n: nat, i: nat, r: nat, k: nat, high: bv32, j: bv32)
    requires n == 8 && high < 16 && j < 16
    requires r == high as nat && k == j as nat && i == 16 * r + k
    ensures r < 16 && k < 16 && Crc32Tab()[i] == Steps(n, (high << 4) ^ j)
  {
    Crc32TabAt(r, k);
    RowIsRemainders(n, r, high, j);
  }

  /** Every word of the table is the register after the eight steps that its own index causes. */
  lemma TableIsRemainders(n: nat, x: bv32)
    requires n == 8 && x < 256
    ensures Crc32Tab()[x as nat] == Steps(n, x)
  {
    SplitIndex(x);
    TableAt(n, x as nat, (x >> 4) as nat, (x & 15) as nat, x >> 4, x & 15);
  }

  // ---------- one turn of the loop ----------

  /** Eight bits of one byte are eight steps from the byte added to the register. */
  lemma ByteIsSteps(n: nat, c: bv32, w: bv32)
    requires Times(Half, n, w) == 0
    ensures Run(StepBit, c, Lowest(Odd, Half, w, n)) == Steps(n, c ^ w)
  {
    forall x, y ensures Step(Xor(x, y)) == Xor(StepBit(x, Odd(y)), Half(y)) { PeelBit(x, y); }
    WordIsBits(Step, StepBit, Xor, Odd, Half, c, w, n);
  }

  lemma SplitWord(x: bv32)
    ensures Xor(x & 0xFF, x & 0xFFFFFF00) == x
  {
  }

  /** Steps treat the byte that meets the table and the bytes that only shift down separately. */
  lemma StepsOfParts(n: nat, x: bv32, low: bv32, high: bv32)
    requires Xor(low, high) == x
    ensures Steps(n, x) == Xor(Steps(n, low), Steps(n, high))
  {
    StepIsLinear();
    TimesLinear(Step, Xor, n, low, high);
  }

  lemma StepsSplit(n: nat, x: bv32)
    ensures Steps(n, x) == Xor(Steps(n, x & 0xFF), Steps(n, x & 0xFFFFFF00))
  {
    SplitWord(x);
    StepsOfParts(n, x, x & 0xFF, x & 0xFFFFFF00);
  }

  lemma OnlyShifts(n: nat, h: bv32, down: bv32)
    requires n == 8
    requires h & 0xFF == 0 && h >> 8 == down
    ensures Steps(n, h) == down
  {
    assert Steps(8, h) == h >> 8;
  }

  lemma HighPart(c: bv32, w: bv32)
    requires w < 256
    ensures ((c ^ w) & 0xFFFFFF00) & 0xFF == 0
    ensures ((c ^ w) & 0xFFFFFF00) >> 8 == c >> 8
  {
  }

  lemma HighShifts(n: nat, c: bv32, w: bv32)
    requires n == 8 && w < 256
    ensures Steps(n, (c ^ w) & 0xFFFFFF00) == c >> 8
  {
    HighPart(c, w);
    OnlyShifts(n, (c ^ w) & 0xFFFFFF00, c >> 8);
  }

  lemma StepsOfSum(n: nat, c: bv32, w: bv32)
    requires n == 8 && w < 256
    ensures Steps(n, c ^ w) == Xor(Steps(n, (c ^ w) & 0xFF), c >> 8)
  {
    StepsSplit(n, c ^ w);
    HighShifts(n, c, w);
  }

  /** The word for the low byte, added to the rest of the register, is the register after the bits of the byte. */
  lemma TurnIsDivision(n: nat, c: bv32, w: bv32, word: bv32)
    requires n == 8 && w < 256
    requires Times(Half, n, w) == 0
    requires word == Steps(n, (c ^ w) & 0xFF)
    ensures word ^ (c >> 8) == Run(StepBit, c, Lowest(Odd, Half, w, n))
  {
    StepsOfSum(n, c, w);
    ByteIsSteps(n, c, w);
  }

  lemma CrcSnoc(c: bv32, a: seq<bv8>, b: bv8)
    ensures Crc(c, a + [b]) == Run(StepBit, Crc(c, a), ByteBits(b))
  {
    Composes(c, a, [b]);
    ExpandOne(ByteBits, b);
  }

  /** `crc32_tab[x]`. */
  method TableWord(x: bv32, ghost n: nat) returns (word: bv32)
    requires x < 256 && n == 8
    ensures word == Steps(n, x)
  {
    TableIsRemainders(n, x);
    word := Crc32Tab()[x as nat];
  }

  method UpdateByte(crc: bv32, b: bv8, ghost n: nat) returns (next: bv32)
    requires n == 8
    ensures next == Run(StepBit, crc, Lowest(Odd, Half, b as bv32, n))
  {
    var w := b as bv32;
    var word := TableWord((crc ^ w) & 0xFF, n);
    ByteRunsOut(b, n);
    TurnIsDivision(n, crc, w, word);
    next := word ^ (crc >> 8);
  }

  method UpdateCrc32(crc0: bv32, buf: seq<bv8>) returns (crc: bv32)
    ensures crc == Crc(crc0, buf)
  {
    crc := crc0;
    ghost var n: nat :| n == 8;
    var p := 0;
    while p < |buf|
      invariant 0 <= p <= |buf|
      invariant crc == Crc(crc0, buf[..p])
    {
      CrcSnoc(crc0, buf[..p], buf[p]);
      assert buf[..p + 1] == buf[..p] + [buf[p]];
      crc := UpdateByte(crc, buf[p], n);
      p := p + 1;
    }
    assert buf[..p] == buf;
  }

  // ---------- what the remainder detects ----------

  lemma StepInjective(x: bv32, y: bv32)
    requires Step(x) == Step(y)
    ensures x == y
  {
  }

  lemma XorCancels(s: bv32, t: bv32, e: bv32)
    requires s ^ e == t ^ e
    ensures s == t
  {
  }

  lemma StepSumInjective(s: bv32, t: bv32, e: bv32)
    requires Step(s ^ e) == Step(t ^ e)
    ensures s == t
  {
    StepInjective(s ^ e, t ^ e);
    XorCancels(s, t, e);
  }

  lemma StepBitInjectiveAt(s: bv32, t: bv32, x: bool)
    requires StepBit(s, x) == StepBit(t, x)
    ensures s == t
  {
    if x { StepSumInjective(s, t, 1); } else { StepSumInjective(s, t, 0); }
  }

  lemma StepBitInjective()
    ensures Injective(StepBit)
  {
    forall s, t, x | StepBit(s, x) == StepBit(t, x) ensures s == t {
      StepBitInjectiveAt(s, t, x);
    }
  }

  /** The lowest `n` bits of a register. */
  function Mask(n: nat): bv32 {
    if n == 0 then 0 else (Mask(n - 1) << 1) | 1
  }

  /** The two registers differ at most in their lowest `n` bits. */
  predicate Apart(s: bv32, t: bv32, n: nat) {
    (s ^ t) & !Mask(n) == 0
  }

  lemma {:induction false} MaskGrows(n: nat)
    ensures Mask(n) & !Mask(n + 1) == 0
  {
    if n > 0 {
      MaskGrows(n - 1);
      ShiftGrows(Mask(n - 1), Mask(n));
    }
  }

  lemma ShiftGrows(a: bv32, b: bv32)
    requires a & !b == 0
    ensures ((a << 1) | 1) & !((b << 1) | 1) == 0
  {
  }

  lemma {:induction false} MaskBelow(n: nat, k: nat)
    requires n <= k
    ensures Mask(n) & !Mask(k) == 0
    decreases k
  {
    if n < k {
      MaskBelow(n, k - 1);
      MaskGrows(k - 1);
      Within(Mask(n), Mask(k - 1), Mask(k));
    } else {
      Within(Mask(n), Mask(n), Mask(n));
    }
  }

  lemma Within(a: bv32, b: bv32, c: bv32)
    ensures a & !b == 0 && b & !c == 0 ==> a & !c == 0
    ensures a & !a == 0
  {
  }

  lemma Mask31(n: nat)
    requires n == 31
    ensures Mask(n) == 0x7FFFFFFF
  {
    assert Mask(8) == 0xFF;
    assert Mask(16) == 0xFFFF;
    assert Mask(24) == 0xFFFFFF;
    assert Mask(31) == 0x7FFFFFFF;
  }

  /** A difference that one turn has left below bit 31 was at most one bit higher before it. */
  lemma SameOneSpreads(s: bv32, t: bv32, m: bv32)
    requires m & !0x7FFFFFFF == 0
    ensures (StepBit(s, true) ^ StepBit(t, true)) & !m == 0 ==> (s ^ t) & !((m << 1) | 1) == 0
  {
  }

  lemma SameZeroSpreads(s: bv32, t: bv32, m: bv32)
    requires m & !0x7FFFFFFF == 0
    ensures (StepBit(s, false) ^ StepBit(t, false)) & !m == 0 ==> (s ^ t) & !((m << 1) | 1) == 0
  {
  }

  lemma OtherBitSpreads(s: bv32, t: bv32, m: bv32)
    requires m & !0x7FFFFFFF == 0
    ensures (StepBit(s, true) ^ StepBit(t, false)) & !m == 0 ==> (s ^ t) & !((m << 1) | 1) == 0
  {
  }

  lemma ApartIsSymmetric(s: bv32, t: bv32, n: nat)
    requires Apart(s, t, n)
    ensures Apart(t, s, n)
  {
    assert s ^ t == t ^ s;
  }

  lemma MaskFits(n: nat, k: nat)
    requires n < k == 31
    ensures Mask(n) & !0x7FFFFFFF == 0
  {
    MaskBelow(n, k);
    Mask31(k);
  }

  lemma ApartBeforeOne(s: bv32, t: bv32, n: nat)
    requires n < 31
    requires Apart(StepBit(s, true), StepBit(t, true), n)
    ensures Apart(s, t, n + 1)
  {
    MaskFits(n, 31);
    SameOneSpreads(s, t, Mask(n));
  }

  lemma ApartBeforeZero(s: bv32, t: bv32, n: nat)
    requires n < 31
    requires Apart(StepBit(s, false), StepBit(t, false), n)
    ensures Apart(s, t, n + 1)
  {
    MaskFits(n, 31);
    SameZeroSpreads(s, t, Mask(n));
  }

  lemma ApartBeforeOther(s: bv32, t: bv32, n: nat)
    requires n < 31
    requires Apart(StepBit(s, true), StepBit(t, false), n)
    ensures Apart(s, t, n + 1)
  {
    MaskFits(n, 31);
    OtherBitSpreads(s, t, Mask(n));
  }

  lemma ApartBefore(s: bv32, t: bv32, x: bool, y: bool, n: nat)
    requires n < 31
    requires Apart(StepBit(s, x), StepBit(t, y), n)
    ensures Apart(s, t, n + 1)
  {
    if x && y {
      ApartBeforeOne(s, t, n);
    } else if !x && !y {
      ApartBeforeZero(s, t, n);
    } else if x {
      ApartBeforeOther(s, t, n);
    } else {
      ApartIsSymmetric(StepBit(s, x), StepBit(t, y), n);
      ApartBeforeOther(t, s, n);
      ApartIsSymmetric(t, s, n + 1);
    }
  }

  lemma StepBitSpreads()
    ensures Spreads(StepBit, Apart, 31)
  {
    forall s, n: nat ensures Apart(s, s, n) {
      assert s ^ s == 0;
    }
    forall s, t, x, y, n: nat | n < 31 && Apart(StepBit(s, x), StepBit(t, y), n) ensures Apart(s, t, n + 1) {
      ApartBefore(s, t, x, y, n);
    }
  }

  /** One differing bit makes the registers differ in bit 31. */
  lemma OneBitApart(s: bv32, bit: bool)
    ensures !Apart(StepBit(s, bit), StepBit(s, !bit), 31)
  {
    Mask31(31);
    OneBitDifference(s);
    if bit {} else {}
  }

  lemma OneBitDifference(s: bv32)
    ensures (StepBit(s, true) ^ StepBit(s, false)) & !0x7FFFFFFF != 0
    ensures (StepBit(s, false) ^ StepBit(s, true)) & !0x7FFFFFFF != 0
  {
  }

  /** Bit strings that differ, but only within 32 consecutive places, have different remainders. */
  lemma BitBurst(c: bv32, a: seq<bool>, b: seq<bool>, p: nat)
    requires |a| == |b| && a != b
    requires forall i :: 0 <= i < |a| && !(p <= i < p + 32) ==> a[i] == b[i]
    ensures Run(StepBit, c, a) != Run(StepBit, c, b)
  {
    var f := FirstDifference(a, b);
    var q := if f + 32 <= |a| then f + 32 else |a|;
    assert a[q..] == b[q..];
    RunCut(StepBit, c, a, f, q);
    RunCut(StepBit, c, b, f, q);
    if Run(StepBit, c, a) == Run(StepBit, c, b) {
      var s := Run(StepBit, c, a[..f]);
      var s1, t1 := StepBit(s, a[f]), StepBit(s, b[f]);
      StepBitInjective();
      RunInjective(StepBit, Run(StepBit, s1, a[f + 1..q]), Run(StepBit, t1, b[f + 1..q]), a[q..]);
      StepBitSpreads();
      RunSpreads(StepBit, Apart, 31, s1, t1, a[f + 1..q], b[f + 1..q], 31);
      OneBitApart(s, a[f]);
    }
  }

  lemma OddHalf(x: bv32, y: bv32)
    requires Odd(x) == Odd(y) && Half(x) == Half(y)
    ensures x == y
  {
  }

  lemma ByteBitsInjective(n: nat, x: bv8, y: bv8)
    requires n == 8 && ByteBits(x) == ByteBits(y)
    ensures x == y
  {
    forall u, v | Odd(u) == Odd(v) && Half(u) == Half(v) ensures u == v { OddHalf(u, v); }
    ByteRunsOut(x, n);
    ByteRunsOut(y, n);
    LowestInjective(Odd, Half, x as bv32, y as bv32, n);
  }

  /** Messages that differ, but only within a burst of 32 consecutive bits, always have different remainders. */
  lemma BurstDetected(c: bv32, a: seq<bv8>, b: seq<bv8>, p: nat)
    requires |a| == |b| && a != b
    requires |MessageBits(a)| == |MessageBits(b)| ==>
               forall i :: 0 <= i < |MessageBits(a)| && !(p <= i < p + 32) ==> MessageBits(a)[i] == MessageBits(b)[i]
    ensures Crc(c, a) != Crc(c, b)
  {
    ExpandLength(ByteBits, 8, a, b);
    if MessageBits(a) == MessageBits(b) {
      forall x, y | ByteBits(x) == ByteBits(y) ensures x == y { ByteBitsInjective(8, x, y); }
      ExpandInjective(ByteBits, 8, a, b);
    } else {
      BitBurst(c, MessageBits(a), MessageBits(b), p);
    }
  }

  /** Buffers of equal length that differ only inside four consecutive bytes always have different remainders. */
  lemma WindowDetected(c: bv32, a: seq<bv8>, b: seq<bv8>, k: nat)
    requires |a| == |b| && a != b
    requires forall i :: 0 <= i < |a| && !(k <= i < k + 4) ==> a[i] == b[i]
    ensures Crc(c, a) != Crc(c, b)
  {
    var p := ExpandWindow(ByteBits, 8, a, b, k, 4);
    BurstDetected(c, a, b, p);
  }

  // ---------- check_crc32: one file in mapped chunks ----------

  /** No bit of `v` below bit `k` is set: `v` is a multiple of the page size `Pow2(k)`. */
  predicate Aligned(v: nat, k: nat) {
    Low(v, k) == 0
  }

  lemma {:induction false} AlignedSum(a: nat, b: nat, k: nat)
    requires Aligned(a, k) && Aligned(b, k)
    ensures Aligned(a + b, k)
  {
    if k > 0 { AlignedSum(a / 2, b / 2, k - 1); }
  }

  lemma {:induction false} ClearLow(w: nat, k: nat)
    ensures Low(w, k) <= w
    ensures Aligned(w - Low(w, k), k)
    ensures Low(w, k) < Pow2(k)
  {
    if k > 0 {
      ClearLow(w / 2, k - 1);
      assert (w - Low(w, k)) / 2 == w / 2 - Low(w / 2, k - 1);
    }
  }

  /** `(v + page - 1) & ~(page - 1)` for a page of `Pow2(k)` bytes. */
  function RoundUp(v: nat, k: nat): nat {
    var w := v + Pow2(k) - 1;
    AndMask(w, k);
    ClearLow(w, k);
    w - And(w, Pow2(k) - 1)
  }

  lemma RoundUpAligned(v: nat, k: nat)
    ensures Aligned(RoundUp(v, k), k)
    ensures v <= RoundUp(v, k) < v + Pow2(k)
  {
    var w := v + Pow2(k) - 1;
    AndMask(w, k);
    ClearLow(w, k);
  }

  lemma {:induction false} AlignedZero(k: nat)
    ensures Aligned(0, k)
  {
    if k > 0 { AlignedZero(k - 1); }
  }

  datatype Outcome = Printed(value: bv32) | Failed

  /** Maps one chunk and feeds it to `update_crc32`. */
  method FeedChunk(ghost start: bv32, crc: bv32, file: seq<bv8>, offset: nat, mapSize: nat) returns (next: bv32)
    requires offset + mapSize <= |file|
    requires crc == Crc(start, file[..offset])
    ensures next == Crc(start, file[..offset + mapSize])
  {
    var mapped := file[offset..offset + mapSize];
    Composes(start, file[..offset], mapped);
    assert file[..offset + mapSize] == file[..offset] + mapped;
    next := UpdateCrc32(crc, mapped);
  }

  /** Some call of `mmap` that was made failed. */
  predicate SomeMapFailed(calls: nat, mapFails: seq<bool>) {
    exists i :: 0 <= i < calls && i < |mapFails| && mapFails[i]
  }

  /** Every mapping starts within the file, on a page boundary. */
  ghost predicate MapsAligned(offsets: seq<nat>, size: nat, pageBits: nat) {
    forall i :: 0 <= i < |offsets| ==> offsets[i] < size && Aligned(offsets[i], pageBits)
  }

  lemma MapAligned(offsets: seq<nat>, size: nat, pageBits: nat, offset: nat)
    requires MapsAligned(offsets, size, pageBits) && offset < size && Aligned(offset, pageBits)
    ensures MapsAligned(offsets + [offset], size, pageBits)
  {
  }

  /**
    The loop of `main`. `mapFails[i]` tells whether the i-th call of `mmap` fails (calls beyond the list succeed);
    `offsets` are the offsets it is called with.
   */
  method FeedChunks(start: bv32, file: seq<bv8>, chunkSize: nat, pageBits: nat, mapFails: seq<bool>)
    returns (crc: bv32, offset: nat, success: bool, ghost offsets: seq<nat>)
    requires chunkSize > 0 && Aligned(chunkSize, pageBits)
    ensures offset <= |file| && crc == Crc(start, file[..offset])
    ensures (!success && offset < |file|) == SomeMapFailed(|offsets|, mapFails)
    ensures success ==> offset == |file|
    ensures offset == |file| || !success
    ensures MapsAligned(offsets, |file|, pageBits)
  {
    offset, crc, success, offsets := 0, start, false, [];
    var calls := 0;
    AlignedZero(pageBits);
    assert file[..0] == [];
    while offset < |file|
      invariant offset <= |file|
      invariant offset < |file| ==> Aligned(offset, pageBits)
      invariant crc == Crc(start, file[..offset])
      invariant calls == |offsets|
      invariant MapsAligned(offsets, |file|, pageBits)
      invariant !SomeMapFailed(calls, mapFails)
      decreases |file| - offset
    {
      var remaining := |file| - offset;
      var mapSize := if remaining < chunkSize then remaining else chunkSize;
      MapAligned(offsets, |file|, pageBits, offset);
      offsets := offsets + [offset];
      calls := calls + 1;
      if calls - 1 < |mapFails| && mapFails[calls - 1] {
        success := false;
        break;
      }
      crc := FeedChunk(start, crc, file, offset, mapSize);
      if mapSize == chunkSize { AlignedSum(offset, chunkSize, pageBits); }
      assert offset + mapSize < |file| ==> mapSize == chunkSize;
      offset := offset + mapSize;
      success := true;
    }
  }

  /** The body of `main` once the file is open, on a page size of `Pow2(pageBits)`. */
  method CheckFile(file: seq<bv8>, pageBits: nat, mapFails: seq<bool>)
    returns (outcome: Outcome, ghost offsets: seq<nat>)
    ensures outcome == if SomeMapFailed(|offsets|, mapFails) then Failed
                       else Printed(Crc(0xFFFFFFFF, file) ^ 0xFFFFFFFF)
    ensures MapsAligned(offsets, |file|, pageBits)
  {
    if |file| == 0 {
      assert Crc(0xFFFFFFFF, file) == 0xFFFFFFFF;
      return Printed(0), [];
    }
    var page := Pow2(pageBits);
    var chunkSize := 1024 * 1024;
    if page > chunkSize { chunkSize := page; }
    RoundUpAligned(chunkSize, pageBits);
    chunkSize := RoundUp(chunkSize, pageBits);
    var crc, offset, success;
    crc, offset, success, offsets := FeedChunks(0xFFFFFFFF, file, chunkSize, pageBits, mapFails);
    if !success && offset < |file| {
      return Failed, offsets;
    }
    assert file[..offset] == file;
    outcome := Printed(crc ^ 0xFFFFFFFF);
  }
}
