/**
 Method ids: packages/plugin-codegen/src/method-ids.ts and crates/plugin-host/src/dynamic.rs.

 Both compute the 32-bit FNV-1a hash of a canonical method name, one in the signed and unsigned 32-bit
 arithmetic of ECMAScript over UTF-16 code units, the other in wrapping u32 over UTF-8 bytes.
 */
module MethodIds {
  import opened Wrappers
  import opened Wire

  const OFFSET := 0x811c_9dc5
  const PRIME := 0x0100_0193
  /** The inverse of the prime: PRIME * INVERSE is 1 modulo 2 to the 32. */
  const INVERSE := 0x359c_449b

  type Unit = u: int | 0 <= u < 0x1_0000
  /** A Unicode scalar value. */
  type Scalar = c: int | 0 <= c < 0xd800 || 0xe000 <= c < 0x11_0000

  // ---- Exclusive or

  function Pow2(n: nat): (p: nat)
    ensures p > 0
  {
    if n == 0 then 1 else 2 * Pow2(n - 1)
  }

  /** The exclusive or of the lowest `n` bits. */
  function Xor(a: nat, b: nat, n: nat): (x: nat)
    ensures x < Pow2(n)
    decreases n
  {
    if n == 0 then 0 else 2 * Xor(a / 2, b / 2, n - 1) + if a % 2 == b % 2 then 0 else 1
  }

  lemma {:induction false} XorCommutes(a: nat, b: nat, n: nat)
    ensures Xor(a, b, n) == Xor(b, a, n)
    decreases n
  {
    if n > 0 {
      XorCommutes(a / 2, b / 2, n - 1);
    }
  }

  lemma {:induction false} XorCancels(a: nat, b: nat, n: nat)
    requires a < Pow2(n)
    ensures Xor(Xor(a, b, n), b, n) == a
    decreases n
  {
    if n > 0 {
      XorCancels(a / 2, b / 2, n - 1);
    }
  }

  lemma {:induction false} XorZero(a: nat, n: nat)
    requires a < Pow2(n)
    ensures Xor(a, 0, n) == a
    decreases n
  {
    if n > 0 {
      XorZero(a / 2, n - 1);
    }
  }

  lemma WordIsPow2()
    ensures Pow2(32) == TWO32
  {
    assert Pow2(8) == 0x100;
    assert Pow2(16) == 0x1_0000;
    assert Pow2(24) == 0x100_0000;
  }

  function Xor32(a: u32, b: u32): (x: u32)
  {
    WordIsPow2();
    Xor(a, b, 32)
  }

  lemma Xor32Cancels(a: u32, b: u32)
    ensures Xor32(Xor32(a, b), b) == a
  {
    WordIsPow2();
    XorCancels(a, b, 32);
  }

  lemma Xor32Commutes(a: u32, b: u32)
    ensures Xor32(a, b) == Xor32(b, a)
  {
    XorCommutes(a, b, 32);
  }

  /** Bit `k` of an exclusive or is set exactly when it differs in the operands. */
  lemma {:induction false} XorBits(a: nat, b: nat, n: nat, k: nat)
    requires k < n
    ensures Xor(a, b, n) / Pow2(k) % 2 == if a / Pow2(k) % 2 == b / Pow2(k) % 2 then 0 else 1
    decreases n
  {
    if k > 0 {
      XorBits(a / 2, b / 2, n - 1, k - 1);
      assert Pow2(k) == 2 * Pow2(k - 1);
      hide Xor, Pow2;
      HalveFirst(a, Pow2(k - 1));
      HalveFirst(b, Pow2(k - 1));
      HalveFirst(Xor(a, b, n), Pow2(k - 1));
      assert Xor(a, b, n) / 2 == Xor(a / 2, b / 2, n - 1) by { XorHalves(a, b, n); }
    }
  }

  lemma XorHalves(a: nat, b: nat, n: nat)
    requires n > 0
    ensures Xor(a, b, n) / 2 == Xor(a / 2, b / 2, n - 1)
  {
  }

  lemma HalveFirst(a: nat, p: nat)
    requires p > 0
    ensures a / 2 / p == a / (2 * p)
  {
    var q, r := a / 2 / p, a / 2 % p;
    assert a == q * (2 * p) + (2 * r + a % 2);
    QuotientIsUnique(a, q, 2 * r + a % 2, 2 * p);
  }

  lemma XorParity(a: nat, c: nat, n: nat)
    requires n > 0
    ensures Xor(a, c, n) % 2 == (a + c) % 2
  {
  }

  // ---- The hash

  function Step(h: u32, c: u32): u32 {
    Xor32(h, c) * PRIME % TWO32
  }

  function Unstep(h: u32, c: u32): u32 {
    Xor32(h * INVERSE % TWO32, c)
  }

  function HashFrom(h: u32, cs: seq<u32>): u32
    decreases |cs|
  {
    if cs == [] then h else HashFrom(Step(h, cs[0]), cs[1..])
  }

  function Hash(cs: seq<u32>): u32 {
    HashFrom(OFFSET, cs)
  }

  function Id(cs: seq<u32>): u32 {
    if Hash(cs) == 0 then 1 else Hash(cs)
  }

  lemma {:induction false} ModTimes(x: int, k: int, m: int)
    requires m > 0
    ensures (x % m) * k % m == x * k % m
  {
    var q := x / m;
    assert x * k == (x % m) * k + (q * k) * m;
    ModAdds((x % m) * k, q * k, m);
  }

  lemma ModAdds(x: int, q: int, m: int)
    requires m > 0
    ensures (x + q * m) % m == x % m
  {
    var r, k := x % m, x / m;
    assert x + q * m == r + (k + q) * m;
    QuotientIsUnique(x + q * m, k + q, r, m);
  }

  lemma InverseInverts(x: u32)
    ensures x * PRIME % TWO32 * INVERSE % TWO32 == x
    ensures x * INVERSE % TWO32 * PRIME % TWO32 == x
  {
    ModTimes(x * PRIME, INVERSE, TWO32);
    ModTimes(x * INVERSE, PRIME, TWO32);
    assert PRIME * INVERSE == 1 + 3513497 * TWO32;
    assert x * PRIME * INVERSE == x + (3513497 * x) * TWO32;
    ModAdds(x, 3513497 * x, TWO32);
  }

  /** For each character, a step is a bijection of the 32-bit hashes. */
  lemma StepIsBijective(h: u32, c: u32)
    ensures Unstep(Step(h, c), c) == h && Step(Unstep(h, c), c) == h
  {
    hide Xor32;
    InverseInverts(Xor32(h, c));
    Xor32Cancels(h, c);
    InverseInverts(h);
    Xor32Cancels(h * INVERSE % TWO32, c);
  }

  /** From one hash, different characters lead to different hashes. */
  lemma CharactersSeparate(h: u32, c: u32, d: u32)
    requires Step(h, c) == Step(h, d)
    ensures c == d
  {
    hide Xor32;
    InverseInverts(Xor32(h, c));
    InverseInverts(Xor32(h, d));
    Xor32Commutes(h, c);
    Xor32Commutes(h, d);
    Xor32Cancels(c, h);
    Xor32Cancels(d, h);
  }

  lemma {:induction false} HashJoins(h: u32, a: seq<u32>, b: seq<u32>)
    ensures HashFrom(h, a + b) == HashFrom(HashFrom(h, a), b)
    decreases |a|
  {
    hide Step;
    if a == [] {
      assert a + b == b;
    } else {
      assert (a + b)[1..] == a[1..] + b;
      HashJoins(Step(h, a[0]), a[1..], b);
    }
  }

  /** What follows keeps two hashes apart, or equal. */
  lemma {:induction false} SuffixSeparates(g: u32, h: u32, cs: seq<u32>)
    ensures HashFrom(g, cs) == HashFrom(h, cs) <==> g == h
    decreases |cs|
  {
    hide Step, Unstep;
    if cs != [] {
      SuffixSeparates(Step(g, cs[0]), Step(h, cs[0]), cs[1..]);
      StepIsBijective(g, cs[0]);
      StepIsBijective(h, cs[0]);
    }
  }

  ghost predicate DifferOnlyAt(a: seq<u32>, b: seq<u32>, k: nat) {
    |a| == |b| && k < |a| && a[k] != b[k] && a[..k] == b[..k] && a[k + 1..] == b[k + 1..]
  }

  /** Names that differ in exactly one character never share a hash. */
  lemma OneDifferenceSeparates(a: seq<u32>, b: seq<u32>, k: nat)
    requires DifferOnlyAt(a, b, k)
    ensures Hash(a) != Hash(b)
  {
    hide Step;
    var h := HashFrom(OFFSET, a[..k]);
    SplitAt(a, k);
    SplitAt(b, k);
    SuffixSeparates(Step(h, a[k]), Step(h, b[k]), a[k + 1..]);
    if Step(h, a[k]) == Step(h, b[k]) {
      CharactersSeparate(h, a[k], b[k]);
    }
  }

  lemma SplitAt(a: seq<u32>, k: nat)
    requires k < |a|
    ensures Hash(a) == HashFrom(Step(HashFrom(OFFSET, a[..k]), a[k]), a[k + 1..])
  {
    hide Step;
    assert a == a[..k] + a[k..];
    HashJoins(OFFSET, a[..k], a[k..]);
    assert a[k..][1..] == a[k + 1..];
  }

  /** Mapping the hash 0 to 1 is the only way in which ids collide where hashes do not. */
  lemma IdsCollideExactly(a: seq<u32>, b: seq<u32>)
    ensures Id(a) != 0 && (Hash(a) != 0 ==> Id(a) == Hash(a))
    ensures Id(a) == Id(b) <==> Hash(a) == Hash(b) || (Hash(a) <= 1 && Hash(b) <= 1)
  {
  }

  /** The names that differ only in one character collide exactly when their hashes are 0 and 1. */
  lemma OneDifferenceCollidesExactly(a: seq<u32>, b: seq<u32>, k: nat)
    requires DifferOnlyAt(a, b, k)
    ensures Id(a) == Id(b) <==> {Hash(a), Hash(b)} == {0, 1}
  {
    hide Hash;
    OneDifferenceSeparates(a, b, k);
    IdsCollideExactly(a, b);
    assert 0 in {Hash(a), Hash(b)} <==> Hash(a) == 0 || Hash(b) == 0;
    assert 1 in {Hash(a), Hash(b)} <==> Hash(a) == 1 || Hash(b) == 1;
  }

  /** What the FNV draft gives for the empty string and for a single letter (sections 5 and 8.2). */
  lemma KnownHashes()
    ensures Hash([]) == 0x811c_9dc5 && Hash([0x61]) == 0xe40c_292c
    ensures Id([]) == 0x811c_9dc5 && Id([0x61]) == 0xe40c_292c
  {
    hide Step;
    var name: seq<u32> := [0x61];
    assert name[1..] == [];
    KnownStep();
  }

  lemma KnownStep()
    ensures Step(OFFSET, 0x61) == 0xe40c_292c
  {
    hide Xor;
    assert 0x81_1c9d < Pow2(24) by { ThreeBytes(); }
    XorZero(0x81_1c9d, 24);
    XorUnfolds(0x102393b, 0x0, 25);
    XorUnfolds(0x2047277, 0x1, 26);
    XorUnfolds(0x408e4ee, 0x3, 27);
    XorUnfolds(0x811c9dc, 0x6, 28);
    XorUnfolds(0x102393b8, 0xc, 29);
    XorUnfolds(0x20472771, 0x18, 30);
    XorUnfolds(0x408e4ee2, 0x30, 31);
    XorUnfolds(0x811c9dc5, 0x61, 32);
    assert Xor32(OFFSET, 0x61) == 0x811c_9da4;
  }

  lemma ThreeBytes()
    ensures Pow2(24) == 0x100_0000
  {
    assert Pow2(8) == 0x100;
    assert Pow2(16) == 0x1_0000;
  }

  lemma XorUnfolds(a: nat, b: nat, n: nat)
    requires n > 0
    ensures Xor(a, b, n) == 2 * Xor(a / 2, b / 2, n - 1) + if a % 2 == b % 2 then 0 else 1
  {
  }

  /** The step in the numbers of the draft. */
  lemma StepInNumbers(h: u32, c: u32)
    ensures Step(h, c) == Xor(h, c, 32) * 16777619 % 4294967296
  {
    hide Xor;
  }

  // ---- The two programs

  /** crates/plugin-host/src/dynamic.rs: wrapping multiplication of u32. */
  method StableMethodIdOfBytes(bytes: seq<Byte>) returns (id: u32)
    ensures id == Id(bytes)
  {
    hide Xor32;
    var hash: u32 := OFFSET;
    for i := 0 to |bytes|
      invariant Hash(bytes) == HashFrom(hash, bytes[i..])
    {
      hash := Xor32(hash, bytes[i]);
      hash := hash * PRIME % TWO32;
    }
    return if hash == 0 then 1 else hash;
  }

  /** The ToInt32 operation of ECMAScript. */
  function ToInt32(x: int): i32 {
    var u := x % TWO32;
    if u >= 0x8000_0000 then u - TWO32 else u
  }

  /** The ToUint32 operation of ECMAScript, which `>>> 0` performs. */
  function ToUint32(x: int): u32 {
    x % TWO32
  }

  /** The operator `^`, on the two's complement of signed operands. */
  function BitXor(a: int, b: int): i32 {
    ToInt32(Xor32(ToUint32(ToInt32(a)), ToUint32(ToInt32(b))))
  }

  function Imul(a: int, b: int): i32 {
    ToInt32(ToInt32(a) * ToInt32(b))
  }

  lemma ImulIsModular(x: u32)
    ensures ToUint32(Imul(ToInt32(x), PRIME)) == x * PRIME % TWO32
  {
    hide ToUint32;
    var signed := ToInt32(x);
    assert ToInt32(signed) == signed && ToInt32(PRIME) == PRIME;
    SignKept(signed * PRIME);
    if signed != x {
      assert signed * PRIME == x * PRIME + (-PRIME) * TWO32;
      ModAdds(x * PRIME, -PRIME, TWO32);
    }
  }

  lemma SignKept(y: int)
    ensures ToUint32(ToInt32(y)) == y % TWO32 && ToUint32(y) == y % TWO32
  {
  }

  lemma SignsDoNotMatter(h: u32, c: u32)
    ensures ToUint32(Imul(BitXor(h, c), PRIME)) == Step(h, c)
  {
    hide Xor32, Imul, ToInt32;
    SignKept(h);
    SignKept(c);
    ImulIsModular(Xor32(h, c));
  }

  /** packages/plugin-codegen/src/method-ids.ts: the hash is signed and unsigned in turn. */
  method StableMethodId(canonicalName: seq<Unit>) returns (id: u32)
    ensures id == Id(canonicalName)
  {
    hide BitXor, Imul, ToUint32, Step;
    var hash := OFFSET;
    var index := 0;
    while index < |canonicalName|
      invariant 0 <= index <= |canonicalName| && 0 <= hash < TWO32
      invariant Hash(canonicalName) == HashFrom(hash, canonicalName[index..])
    {
      SignsDoNotMatter(hash, canonicalName[index]);
      hash := BitXor(hash, canonicalName[index]);
      hash := ToUint32(Imul(hash, PRIME));
      index := index + 1;
    }
    return if hash == 0 then 1 else hash;
  }

  // ---- One name in two encodings

  function Utf8Scalar(c: Scalar): seq<Byte> {
    if c < 0x80 then [c]
    else if c < 0x800 then [0xc0 + c / 0x40, 0x80 + c % 0x40]
    else if c < 0x1_0000 then [0xe0 + c / 0x1000, 0x80 + c / 0x40 % 0x40, 0x80 + c % 0x40]
    else [0xf0 + c / 0x4_0000, 0x80 + c / 0x1000 % 0x40, 0x80 + c / 0x40 % 0x40, 0x80 + c % 0x40]
  }

  function Utf16Scalar(c: Scalar): seq<Unit> {
    if c < 0x1_0000 then [c] else [0xd800 + (c - 0x1_0000) / 0x400, 0xdc00 + (c - 0x1_0000) % 0x400]
  }

  function Utf8(name: seq<Scalar>): seq<Byte> {
    if name == [] then [] else Utf8Scalar(name[0]) + Utf8(name[1..])
  }

  function Utf16(name: seq<Scalar>): seq<Unit> {
    if name == [] then [] else Utf16Scalar(name[0]) + Utf16(name[1..])
  }

  predicate Ascii(name: seq<Scalar>) {
    forall c <- name :: c < 0x80
  }

  /** Both programs hash the same numbers exactly when the name is ASCII. */
  lemma {:induction false} EncodingsAgreeExactly(name: seq<Scalar>)
    ensures |Utf8(name)| >= |Utf16(name)|
    ensures Ascii(name) <==> |Utf8(name)| == |Utf16(name)|
    ensures Ascii(name) <==> Utf8(name) == Utf16(name)
  {
    if name != [] {
      EncodingsAgreeExactly(name[1..]);
      assert name == [name[0]] + name[1..];
      assert forall c :: c in name <==> c == name[0] || c in name[1..];
      assert name[0] in name;
    }
  }

  /** Host and code generator give an ASCII name the same id. */
  lemma SameIdForAscii(name: seq<Scalar>)
    requires Ascii(name)
    ensures Id(Utf8(name)) == Id(Utf16(name))
  {
    EncodingsAgreeExactly(name);
  }

  lemma StepParity(h: u32, c: u32)
    ensures Step(h, c) % 2 == (h + c) % 2
  {
    hide Xor;
    XorParity(h, c, 32);
    OddTimes(Xor32(h, c));
  }

  lemma OddTimes(x: u32)
    ensures x * PRIME % TWO32 % 2 == x % 2
  {
    var q, r := x * PRIME / TWO32, x * PRIME % TWO32;
    var k := x * 0x80_00c9 - q * 0x8000_0000;
    assert r == x + 2 * k;
    EvenAdds(x, k);
  }

  lemma EvenAdds(x: int, k: int)
    ensures (x + 2 * k) % 2 == x % 2
  {
  }

  function Sum(cs: seq<u32>): nat {
    if cs == [] then 0 else cs[0] + Sum(cs[1..])
  }

  /** The lowest bit of a hash is the parity of what is hashed. */
  lemma {:induction false} HashParity(h: u32, cs: seq<u32>)
    ensures HashFrom(h, cs) % 2 == (h + Sum(cs)) % 2
    decreases |cs|
  {
    hide Step;
    if cs != [] {
      HashParity(Step(h, cs[0]), cs[1..]);
      StepParity(h, cs[0]);
    }
  }

  /** A name for which they differ: one small e with an acute accent. */
  lemma NotSameForEveryName()
    ensures Id(Utf8([0xe9])) != Id(Utf16([0xe9]))
  {
    hide Step;
    var bytes: seq<u32>, units: seq<u32> := [0xc3, 0xa9], [0xe9];
    assert Utf8([0xe9]) == bytes && Utf16([0xe9]) == units;
    HashParity(OFFSET, bytes);
    HashParity(OFFSET, units);
    assert Sum(units) == 0xe9 && Sum(bytes) == 0xc3 + 0xa9;
    // The hash of the code unit is even, and it is not 0.
    assert HashFrom(OFFSET, units) == Step(OFFSET, 0xe9) by { assert units[1..] == []; }
    NotZero();
  }

  lemma NotZero()
    ensures Step(OFFSET, 0xe9) != 0
  {
    hide Xor;
    StepIsBijective(OFFSET, 0xe9);
    XorCommutes(0, 0xe9, 32);
    WordIsPow2();
    XorZero(0xe9, 32);
  }

  /** A scalar value is recovered from its bytes: the lead byte tells their number, the others hold six bits each. */
  lemma Utf8Recovers(c: Scalar)
    ensures var bs := Utf8Scalar(c);
            match |bs|
            case 1 => bs[0] < 0x80 && c == bs[0] as int
            case 2 => 0xc2 <= bs[0] < 0xe0 && c == Bits(bs[0], 0xc0) * 0x40 + Bits(bs[1], 0x80)
            case 3 => 0xe0 <= bs[0] < 0xf0 && c >= 0x800 &&
                      c == (Bits(bs[0], 0xe0) * 0x40 + Bits(bs[1], 0x80)) * 0x40 + Bits(bs[2], 0x80)
            case 4 => 0xf0 <= bs[0] < 0xf5 && c >= 0x1_0000 &&
                      c == ((Bits(bs[0], 0xf0) * 0x40 + Bits(bs[1], 0x80)) * 0x40 + Bits(bs[2], 0x80)) * 0x40 + Bits(bs[3], 0x80)
            case _ => false
    ensures forall k :: 1 <= k < |Utf8Scalar(c)| ==> 0x80 <= Utf8Scalar(c)[k] < 0xc0
  {
    var (q, r, s) := (c / 0x40, c / 0x1000, c / 0x4_0000);
    Sextets(c);
    if c >= 0x80 {
      assert c == q * 0x40 + c % 0x40;
    }
    if c >= 0x800 {
      assert c == (r * 0x40 + q % 0x40) * 0x40 + c % 0x40;
    }
    if c >= 0x1_0000 {
      assert c == ((s * 0x40 + r % 0x40) * 0x40 + q % 0x40) * 0x40 + c % 0x40;
    }
  }

  /** A number is its parts of six bits. */
  lemma Sextets(c: nat)
    ensures c == c / 0x40 * 0x40 + c % 0x40
    ensures c / 0x40 == c / 0x1000 * 0x40 + c / 0x40 % 0x40
    ensures c / 0x1000 == c / 0x4_0000 * 0x40 + c / 0x1000 % 0x40
  {
    var q, r := c / 0x40, c / 0x1000;
    assert c == q / 0x40 * 0x1000 + (q % 0x40 * 0x40 + c % 0x40);
    QuotientIsUnique(c, q / 0x40, q % 0x40 * 0x40 + c % 0x40, 0x1000);
    assert c == r / 0x40 * 0x4_0000 + (r % 0x40 * 0x1000 + c % 0x1000);
    QuotientIsUnique(c, r / 0x40, r % 0x40 * 0x1000 + c % 0x1000, 0x4_0000);
  }

  function Bits(b: int, base: int): int {
    b - base
  }

  lemma Utf16Recovers(c: Scalar)
    ensures var us := Utf16Scalar(c);
            if |us| == 1 then c == us[0] as int
            else |us| == 2 && 0xd800 <= us[0] < 0xdc00 <= us[1] < 0xe000 &&
                 c == 0x1_0000 + Bits(us[0], 0xd800) * 0x400 + Bits(us[1], 0xdc00)
  {
  }

  // ---- Unique ids

  datatype Clash =
    | DuplicateName(name: seq<Unit>)
    | Collision(name: seq<Unit>, existing: seq<Unit>, id: u32)

  ghost predicate IdsDiffer(names: seq<seq<Unit>>) {
    forall i, j :: 0 <= i < j < |names| ==> Id(names[i]) != Id(names[j])
  }

  /** `clash` is the first reason, at position `k`, why the names' ids are not all different. */
  ghost predicate ClashesAt(names: seq<seq<Unit>>, k: nat, clash: Clash) {
    k < |names| && IdsDiffer(names[..k]) && clash.name == names[k] &&
    match clash
    case DuplicateName(_) => names[k] in names[..k]
    case Collision(_, existing, id) =>
      names[k] !in names[..k] && existing in names[..k] && Id(existing) == Id(names[k]) == id
  }

  method AssertUniqueMethodIds(canonicalNames: seq<seq<Unit>>) returns (r: Result<(), Clash>)
    ensures r.Ok? <==> IdsDiffer(canonicalNames)
    ensures r.Err? ==> exists k :: ClashesAt(canonicalNames, k, r.error)
  {
    hide Id;
    var seenCanonicalNames: set<seq<Unit>> := {};
    var seenIds: map<u32, seq<Unit>> := map[];
    for i := 0 to |canonicalNames|
      invariant IdsDiffer(canonicalNames[..i])
      invariant forall name :: name in seenCanonicalNames <==> name in canonicalNames[..i]
      invariant forall id :: id in seenIds ==> seenIds[id] in canonicalNames[..i] && Id(seenIds[id]) == id
      invariant forall j :: 0 <= j < i ==> Id(canonicalNames[j]) in seenIds
    {
      var canonicalName := canonicalNames[i];
      if canonicalName in seenCanonicalNames {
        assert ClashesAt(canonicalNames, i, DuplicateName(canonicalName));
        ClashPreventsUnique(canonicalNames, i, DuplicateName(canonicalName), |canonicalNames|);
        return Err(DuplicateName(canonicalName));
      }
      seenCanonicalNames := seenCanonicalNames + {canonicalName};
      var methodId := StableMethodId(canonicalName);
      if methodId in seenIds {
        assert ClashesAt(canonicalNames, i, Collision(canonicalName, seenIds[methodId], methodId));
        ClashPreventsUnique(canonicalNames, i, Collision(canonicalName, seenIds[methodId], methodId), |canonicalNames|);
        return Err(Collision(canonicalName, seenIds[methodId], methodId));
      }
      seenIds := seenIds[methodId := canonicalName];
      assert canonicalNames[..i + 1] == canonicalNames[..i] + [canonicalName];
    }
    assert canonicalNames[..|canonicalNames|] == canonicalNames;
    return Ok(());
  }

  /** There is at most one clash to report. */
  lemma ClashIsUnique(names: seq<seq<Unit>>, k: nat, a: Clash, l: nat, b: Clash)
    requires ClashesAt(names, k, a) && ClashesAt(names, l, b)
    ensures k == l && a == b
  {
    hide Id;
    if k < l {
      ClashPreventsUnique(names, k, a, l);
    } else if l < k {
      ClashPreventsUnique(names, l, b, k);
    }
    if a.Collision? && b.Collision? {
      var i :| 0 <= i < k && names[..k][i] == a.existing;
      var j :| 0 <= j < k && names[..k][j] == b.existing;
      assert i == j;
    }
  }

  lemma ClashPreventsUnique(names: seq<seq<Unit>>, k: nat, clash: Clash, n: nat)
    requires ClashesAt(names, k, clash) && k < n <= |names|
    ensures !IdsDiffer(names[..n])
  {
    hide Id;
    var existing := if clash.DuplicateName? then clash.name else clash.existing;
    var i :| 0 <= i < k && names[..k][i] == existing;
    assert names[..n][i] == existing && names[..n][k] == names[k];
  }

  /** When the code generator accepts ASCII names, the host can tell their methods apart by id. */
  lemma AcceptedNamesDispatch(names: seq<seq<Scalar>>)
    requires forall name <- names :: Ascii(name)
    requires IdsDiffer(seq(|names|, i requires 0 <= i < |names| => Utf16(names[i])))
    ensures forall i, j :: 0 <= i < |names| && 0 <= j < |names| ==>
              (Id(Utf8(names[i])) == Id(Utf16(names[j])) <==> i == j)
  {
    hide Id, Ascii;
    var units := seq(|names|, i requires 0 <= i < |names| => Utf16(names[i]));
    forall i, j | 0 <= i < |names| && 0 <= j < |names|
      ensures Id(Utf8(names[i])) == Id(Utf16(names[j])) <==> i == j
    {
      SameIdForAscii(names[i]);
      assert units[i] == Utf16(names[i]) && units[j] == Utf16(names[j]);
    }
  }

  // ---- Canonical names

  function CanonicalMethodName(packageName: string, serviceName: string, methodName: string): string {
    packageName + "." + serviceName + "/" + methodName
  }

  lemma CanonicalNameIsSpelled()
    ensures CanonicalMethodName("balance.plugins.quote.v1", "QuotePluginService", "GetPrice") ==
            "balance.plugins.quote.v1.QuotePluginService/GetPrice"
  {
  }

  /** A canonical name determines its parts when services have no dot and methods no slash. */
  lemma CanonicalNamesAreUnique(p: string, s: string, m: string, p': string, s': string, m': string)
    requires '.' !in s && '.' !in s' && '/' !in m && '/' !in m'
    ensures CanonicalMethodName(p, s, m) == CanonicalMethodName(p', s', m') <==> p == p' && s == s' && m == m'
  {
    if CanonicalMethodName(p, s, m) == CanonicalMethodName(p', s', m') {
      LastSeparator(p + "." + s, '/', m, p' + "." + s', m');
      LastSeparator(p, '.', s, p', s');
    }
  }

  lemma LastSeparator(a: string, c: char, b: string, a': string, b': string)
    requires a + [c] + b == a' + [c] + b' && c !in b && c !in b'
    ensures a == a' && b == b'
  {
    SeparatorIsLast(a, c, b, a', b');
    SeparatorIsLast(a', c, b', a, b);
    assert a == (a + [c] + b)[..|a|] && a' == (a' + [c] + b')[..|a|];
    assert b == (a + [c] + b)[|a| + 1..] && b' == (a' + [c] + b')[|a| + 1..];
  }

  lemma SeparatorIsLast(a: string, c: char, b: string, a': string, b': string)
    requires a + [c] + b == a' + [c] + b' && c !in b
    ensures |a'| <= |a|
  {
    var whole := a + [c] + b;
    assert forall i :: |a| < i < |whole| ==> whole[i] == b[i - |a| - 1];
    assert whole[|a'|] == (a' + [c] + b')[|a'|] == c;
  }
}
