/**
 Address allocation of shared/ipam/ipam.go, with the fixed-width arithmetic of the original. What
 net.ParseCIDR makes of a pool is a value here; IPv6 addresses are compared as 128-bit values.
 */
module Ipam {
  import opened Sets
  import opened Decimal
  import opened Division

  // ---- powers of two and Go's shifts --------------------------------------------------------------

  function Pow2(n: nat): (r: nat)
    ensures r > 0
  {
    if n == 0 then 1 else 2 * Pow2(n - 1)
  }

  lemma {:induction false} Pow2Sum(a: nat, b: nat)
    ensures Pow2(a + b) == Pow2(a) * Pow2(b)
  {
    if a > 0 {
      Pow2Sum(a - 1, b);
      assert Pow2(a + b) == 2 * Pow2(a - 1 + b);
      assert 2 * (Pow2(a - 1) * Pow2(b)) == (2 * Pow2(a - 1)) * Pow2(b);
    }
  }

  lemma {:induction false} Pow2Grows(a: nat, b: nat)
    requires a <= b
    ensures Pow2(a) <= Pow2(b)
    decreases b
  {
    if a < b { Pow2Grows(a, b - 1); }
  }

  const TWO63 := 0x8000_0000_0000_0000
  const TWO64 := 0x1_0000_0000_0000_0000
  const TWO128 := 0x1_0000_0000_0000_0000_0000_0000_0000_0000

  lemma Powers32()
    ensures Pow2(16) == TWO16 && Pow2(31) == 0x8000_0000 && Pow2(32) == TWO32
  {
    assert Pow2(4) == 16;
    Pow2Sum(4, 4);
    Pow2Sum(8, 8);
    Pow2Sum(16, 16);
    assert Pow2(32) == 2 * Pow2(31);
  }

  lemma Powers()
    ensures Pow2(62) == 0x4000_0000_0000_0000 && Pow2(63) == TWO63 && Pow2(64) == TWO64 && Pow2(128) == TWO128
  {
    Powers32();
    Pow2Sum(32, 32);
    assert Pow2(64) == 2 * Pow2(63);
    assert Pow2(63) == 2 * Pow2(62);
    Pow2Sum(64, 64);
  }

  function Wrap32(x: int): nat {
    x % TWO32
  }

  function WrapInt64(x: int): int {
    var m := x % TWO64;
    if m < TWO63 then m else m - TWO64
  }

  /** uint32(1) << n, whose bits fall off at the top. */
  function Shl32(n: nat): nat {
    Wrap32(Pow2(n))
  }

  /** int64(1) << n */
  function ShlInt64(n: nat): int {
    WrapInt64(Pow2(n))
  }

  lemma Pow2Zero(n: nat, k: nat)
    requires n >= k
    ensures Pow2(n) % Pow2(k) == 0
  {
    Pow2Sum(n - k, k);
    MultipleDivides(Pow2(n - k), Pow2(k));
  }

  /** The signed 64-bit shift is the power of two up to 62 bits, then negative, then zero. */
  lemma ShlInt64Values(n: nat)
    ensures ShlInt64(n) == if n <= 62 then Pow2(n) else if n == 63 then -TWO63 else 0
  {
    Powers();
    if n <= 62 {
      Pow2Grows(n, 62);
    } else if n >= 64 {
      Pow2Zero(n, 64);
    }
  }

  lemma WrapExact(x: int)
    requires 0 <= x < TWO32
    ensures Wrap32(x) == x
  {
  }

  /** hostCount-1 in unsigned 32 bits: for /0 the count wraps to 0 and the bound to 2^32 - 1, so it is
      right for every prefix length. */
  lemma LastOffset(hostBits: nat)
    requires hostBits <= 32
    ensures Wrap32(Shl32(hostBits) - 1) == Pow2(hostBits) - 1
  {
    hide Pow2;
    Powers32();
    Pow2Grows(hostBits, 32);
    WrapsToLast(Pow2(hostBits));
  }

  lemma WrapsToLast(x: int)
    requires 0 < x <= TWO32
    ensures Wrap32(Wrap32(x) - 1) == x - 1
  {
  }

  // ---- pools --------------------------------------------------------------------------------------

  datatype Option<T> = None | Some(value: T)
  datatype Error = InvalidPool | NotIPv4 | NoFreeAddress
  datatype Result<T> = Ok(value: T) | Err(error: Error)

  datatype RawCidr = Malformed | V4(base: nat, ones: nat) | V6(base: nat, ones: nat)

  predicate LowBitsZero(x: nat, n: nat) {
    n == 0 || (x % 2 == 0 && LowBitsZero(x / 2, n - 1))
  }

  lemma {:induction false} LowBitsMultiple(x: nat, n: nat) returns (k: nat)
    requires LowBitsZero(x, n)
    ensures x == k * Pow2(n) && x % Pow2(n) == 0
  {
    if n == 0 {
      k := x;
    } else {
      k := LowBitsMultiple(x / 2, n - 1);
      assert x == 2 * (x / 2) == 2 * (k * Pow2(n - 1)) == k * Pow2(n);
    }
    MultipleDivides(k, Pow2(n));
  }

  ghost predicate Masked(c: RawCidr) {
    match c
    case Malformed => true
    case V4(base, ones) => ones <= 32 && base < TWO32 && LowBitsZero(base, 32 - ones)
    case V6(base, ones) => ones <= 128 && base < TWO128 && LowBitsZero(base, 128 - ones)
  }

  /** A parsed pool: its address has no bit set outside the mask. */
  type Cidr = c: RawCidr | Masked(c) witness Malformed

  datatype Pool = Pool(base: nat, hostBits: nat)

  const MAPPED := 0xFFFF

  /** The pool as IPv4: also an IPv6 pool inside ::ffff:0:0/96. */
  function To4(c: Cidr): Option<Pool> {
    match c
    case Malformed => None
    case V4(base, ones) => Some(Pool(base, 32 - ones))
    case V6(base, ones) => if base / TWO32 == MAPPED then Some(Pool(base % TWO32, 128 - ones)) else None
  }

  /** The pool in 16 bytes, with the host bits that AllocateIPv6 computes for it. */
  function To16(c: Cidr): Option<Pool> {
    match c
    case Malformed => None
    case V4(base, ones) => Some(Pool(MAPPED * TWO32 + base, 128 - ones))
    case V6(base, ones) => Some(Pool(base, 128 - ones))
  }

  /** A pool inside ::ffff:0:0/96 has at most 32 host bits. */
  lemma MappedIsNarrow(base: nat, hostBits: nat)
    requires base / TWO32 == MAPPED && base % Pow2(hostBits) == 0
    ensures hostBits <= 32
  {
    if hostBits > 32 {
      var j := base / Pow2(hostBits) * Pow2(hostBits - 33);
      WideIsEven(base, hostBits, j);
      assert false;
    }
  }

  lemma Regroup(k: nat, w: nat, m: nat)
    ensures k * (w * m) == (k * w) * m
  {
  }

  lemma WideIsEven(base: nat, hostBits: nat, j: nat)
    requires hostBits > 32 && base % Pow2(hostBits) == 0 && j == base / Pow2(hostBits) * Pow2(hostBits - 33)
    ensures base / TWO32 == 2 * j
  {
    Powers32();
    Pow2Sum(hostBits - 33, 33);
    assert Pow2(33) == 2 * TWO32;
    WideMultiple(base, Pow2(hostBits), Pow2(hostBits - 33), j);
  }

  lemma WideMultiple(base: nat, size: nat, part: nat, j: nat)
    requires size > 0 && base % size == 0 && size == part * (2 * TWO32) && j == base / size * part
    ensures base / TWO32 == 2 * j
  {
    Regroup(base / size, part, 2 * TWO32);
    assert base == j * (2 * TWO32);
  }

  /** Inside an IPv4 pool, base plus offset stays below 2^32 and in the pool. */
  lemma Pool4Fits(c: Cidr)
    requires To4(c).Some?
    ensures var p := To4(c).value;
            p.hostBits <= 32 && p.base + Pow2(p.hostBits) <= TWO32
  {
    var p := To4(c).value;
    Powers32();
    var k := LowBitsMultiple(c.base, p.hostBits);
    if c.V6? {
      MappedIsNarrow(c.base, p.hostBits);
      LowPart(c.base, p.hostBits);
    }
    Pow2Sum(32 - p.hostBits, p.hostBits);
    FitsBelow(p.base, Pow2(p.hostBits), Pow2(32 - p.hostBits));
  }

  lemma LowPart(base: nat, hostBits: nat)
    requires hostBits <= 32 && base % Pow2(hostBits) == 0
    ensures (base % TWO32) % Pow2(hostBits) == 0
  {
    Powers32();
    Pow2Sum(32 - hostBits, hostBits);
    LowPartOf(base, Pow2(hostBits), Pow2(32 - hostBits));
  }

  lemma LowPartOf(base: nat, m: nat, n: nat)
    requires m > 0 && n > 0 && base % m == 0 && n * m == TWO32
    ensures (base % TWO32) % m == 0
  {
    var k, h := base / m, base / TWO32;
    assert base == k * m;
    var low := base % TWO32;
    assert low == k * m - h * (n * m);
    assert h * (n * m) == (h * n) * m;
    assert low == (k - h * n) * m;
    if k < h * n {
      MulLess(k, h * n, m);
    }
    MultipleDivides(k - h * n, m);
  }

  /** A multiple of m below n * m leaves room for m more. */
  lemma FitsBelow(base: nat, m: nat, n: nat)
    requires m > 0 && base % m == 0 && base < n * m
    ensures base + m <= n * m
  {
    var k := base / m;
    assert base == k * m;
    if n < k {
      MulLess(n, k, m);
    }
    MulLess(k, n, m);
  }

  lemma Pool16Fits(c: Cidr)
    requires To16(c).Some?
    ensures var p := To16(c).value;
            p.hostBits <= 128 && p.base < TWO128
                && (c.V6? ==> p.base + Pow2(p.hostBits) <= TWO128 && p.base % Pow2(p.hostBits) == 0)
  {
    if c.V6? {
      var p := To16(c).value;
      var k := LowBitsMultiple(p.base, p.hostBits);
      Powers();
      Pow2Sum(128 - p.hostBits, p.hostBits);
      FitsBelow(p.base, Pow2(p.hostBits), Pow2(128 - p.hostBits));
    }
  }

  // ---- texts in use -------------------------------------------------------------------------------

  /** The part before the first '/'. */
  function StripMask(addr: string): string {
    if addr == "" || addr[0] == '/' then "" else [addr[0]] + StripMask(addr[1..])
  }

  lemma {:induction false} StripMaskCuts(a: string, mask: string)
    requires '/' !in a
    ensures StripMask(a + "/" + mask) == a && StripMask(a) == a
  {
    if a == "" {
      assert "" + "/" + mask == "/" + mask;
    } else {
      StripMaskCuts(a[1..], mask);
      assert (a + "/" + mask)[1..] == a[1..] + "/" + mask;
    }
  }

  function UsedTexts(serverAddr: string, usedIPs: seq<string>): set<string> {
    (if serverAddr != "" then {StripMask(serverAddr)} else {}) + (set a | a in usedIPs :: StripMask(a))
  }

  function UsedValues(serverAddr: Option<nat>, usedIPs: seq<Option<nat>>): set<nat> {
    (if serverAddr.Some? then {serverAddr.value} else {}) + (set a | a in usedIPs && a.Some? :: a.value)
  }

  // ---- the least free offset ----------------------------------------------------------------------

  /** The least offset in from..last-1 whose address is not in use. */
  function FirstFree<T(!new, ==)>(address: nat -> T, from: nat, last: int, used: set<T>): (r: Option<nat>)
    ensures r.Some? ==> from <= r.value < last && address(r.value) !in used
                        && forall j :: from <= j < r.value ==> address(j) in used
    ensures r.None? ==> forall j :: from <= j < last ==> address(j) in used
    decreases last - from
  {
    if from >= last then None
    else if address(from) !in used then Some(from)
    else FirstFree(address, from + 1, last, used)
  }

  ghost predicate Injective<T(!new)>(address: nat -> T, last: int) {
    forall i: nat, j: nat :: i < j < last ==> address(i) != address(j)
  }

  lemma {:induction false} ManyAddresses<T(!new)>(address: nat -> T, from: nat, last: nat) returns (s: set<T>)
    requires Injective(address, last) && from <= last
    ensures |s| == last - from && forall x :: x in s ==> exists i: nat :: from <= i < last && x == address(i)
    decreases last - from
  {
    if from == last {
      s := {};
    } else {
      s := ManyAddresses(address, from + 1, last);
      assert address(from) !in s;
      s := s + {address(from)};
    }
  }

  /** Fewer used addresses than offsets leave one free. */
  lemma Pigeonhole<T(!new)>(address: nat -> T, from: nat, last: nat, used: set<T>)
    requires Injective(address, last) && from <= last && |used| < last - from
    ensures FirstFree(address, from, last, used).Some?
  {
    if FirstFree(address, from, last, used).None? {
      var s := ManyAddresses(address, from, last);
      assert s <= used;
      SubsetSize(s, used);
      assert false;
    }
  }

  // ---- IPv4 ---------------------------------------------------------------------------------------

  function Text4(base: nat): nat -> string {
    i => Dotted(Wrap32(base + i))
  }

  /** What AllocateIPv4 returns, with the bounds of the pool in plain arithmetic. */
  function Allocate4(c: Cidr, serverAddr: string, usedIPs: seq<string>): Result<string> {
    if c.Malformed? then Err(InvalidPool)
    else match To4(c)
      case None => Err(NotIPv4)
      case Some(p) =>
        match FirstFree(Text4(p.base), 2, Pow2(p.hostBits) - 1, UsedTexts(serverAddr, usedIPs))
        case Some(i) => Ok(Dotted(p.base + i) + "/32")
        case None => Err(NoFreeAddress)
  }

  lemma Text4Exact(c: Cidr, i: nat)
    requires To4(c).Some? && i < Pow2(To4(c).value.hostBits)
    ensures Text4(To4(c).value.base)(i) == Dotted(To4(c).value.base + i)
  {
    Pool4Fits(c);
    WrapExact(To4(c).value.base + i);
  }

  ghost predicate IsNew(a: string, serverAddr: string, usedIPs: seq<string>) {
    && (serverAddr != "" ==> StripMask(serverAddr) != StripMask(a))
    && forall k :: 0 <= k < |usedIPs| ==> StripMask(usedIPs[k]) != StripMask(a)
  }

  lemma Allocate4IsNew(c: Cidr, serverAddr: string, usedIPs: seq<string>, a: string)
    requires Allocate4(c, serverAddr, usedIPs) == Ok(a)
    ensures IsNew(a, serverAddr, usedIPs)
  {
    var i := Allocate4IsLeastFree(c, serverAddr, usedIPs);
    assert forall k :: 0 <= k < |usedIPs| ==> usedIPs[k] in usedIPs;
  }

  lemma TextsDiffer(base: nat, i: nat, j: nat)
    requires i < j && base + j < TWO32
    ensures Text4(base)(i) != Text4(base)(j)
  {
    WrapExact(base + i);
    WrapExact(base + j);
    if Dotted(base + i) == Dotted(base + j) {
      DottedIsInjective(base + i, base + j);
      assert false;
    }
  }

  lemma Text4IsInjective(base: nat, last: nat)
    requires base + last <= TWO32
    ensures Injective(Text4(base), last)
  {
    forall i: nat, j: nat | i < j < last ensures Text4(base)(i) != Text4(base)(j) {
      TextsDiffer(base, i, j);
    }
  }

  lemma AllocatedText(text: string, x: nat)
    requires text == Dotted(x)
    ensures StripMask(text + "/32") == text
  {
    DottedHasNoSlash(x);
    StripMaskCuts(text, "32");
    assert text + "/" + "32" == text + "/32";
  }

  lemma NotUsed(serverAddr: string, usedIPs: seq<string>, text: string)
    requires text !in UsedTexts(serverAddr, usedIPs)
    ensures serverAddr != "" ==> StripMask(serverAddr) != text
    ensures forall a :: a in usedIPs ==> StripMask(a) != text
  {
    forall a | a in usedIPs ensures StripMask(a) != text {
      assert StripMask(a) in UsedTexts(serverAddr, usedIPs);
    }
  }

  /** A new address is the least free one of the pool, inside it, and differs from every address in
      use when the masks are stripped. */
  lemma Allocate4IsLeastFree(c: Cidr, serverAddr: string, usedIPs: seq<string>) returns (i: nat)
    requires Allocate4(c, serverAddr, usedIPs).Ok?
    ensures To4(c).Some? && var p := To4(c).value; var r := Allocate4(c, serverAddr, usedIPs).value;
            && 2 <= i <= Pow2(p.hostBits) - 2 && p.base + i < TWO32
            && r == Dotted(p.base + i) + "/32" && StripMask(r) == Dotted(p.base + i)
            && (serverAddr != "" ==> StripMask(serverAddr) != StripMask(r))
            && (forall a :: a in usedIPs ==> StripMask(a) != StripMask(r))
            && (forall j :: 2 <= j < i ==> Text4(p.base)(j) in UsedTexts(serverAddr, usedIPs))
  {
    var p := To4(c).value;
    i := FirstFree(Text4(p.base), 2, Pow2(p.hostBits) - 1, UsedTexts(serverAddr, usedIPs)).value;
    Pool4Fits(c);
    var text := Dotted(p.base + i);
    Text4Exact(c, i);
    AllocatedText(text, p.base + i);
    NotUsed(serverAddr, usedIPs, text);
  }

  lemma {:induction false} FewUsed(serverAddr: string, usedIPs: seq<string>)
    ensures |UsedTexts(serverAddr, usedIPs)| <= |usedIPs| + if serverAddr != "" then 1 else 0
    decreases |usedIPs|
  {
    if usedIPs == [] {
      assert UsedTexts(serverAddr, []) == if serverAddr != "" then {StripMask(serverAddr)} else {};
    } else {
      var n := |usedIPs| - 1;
      FewUsed(serverAddr, usedIPs[..n]);
      UsedTextsStep(serverAddr, usedIPs, n);
      assert usedIPs[..n + 1] == usedIPs;
    }
  }

  lemma UsedTextsStep(serverAddr: string, usedIPs: seq<string>, n: nat)
    requires n < |usedIPs|
    ensures UsedTexts(serverAddr, usedIPs[..n + 1]) == UsedTexts(serverAddr, usedIPs[..n]) + {StripMask(usedIPs[n])}
  {
    assert usedIPs[..n + 1] == usedIPs[..n] + [usedIPs[n]];
    assert forall a :: a in usedIPs[..n + 1] <==> a in usedIPs[..n] || a == usedIPs[n];
    var x, y := UsedTexts(serverAddr, usedIPs[..n + 1]), UsedTexts(serverAddr, usedIPs[..n]) + {StripMask(usedIPs[n])};
    forall t ensures t in x <==> t in y {}
  }

  /** Allocation succeeds while the server and the peers are fewer than the assignable addresses. */
  lemma Allocate4Succeeds(c: Cidr, serverAddr: string, usedIPs: seq<string>)
    requires To4(c).Some? && |usedIPs| + (if serverAddr != "" then 1 else 0) < Pow2(To4(c).value.hostBits) - 3
    ensures Allocate4(c, serverAddr, usedIPs).Ok?
  {
    var p := To4(c).value;
    Pool4Fits(c);
    Text4IsInjective(p.base, Pow2(p.hostBits) - 1);
    FewUsed(serverAddr, usedIPs);
    Pigeonhole(Text4(p.base), 2, Pow2(p.hostBits) - 1, UsedTexts(serverAddr, usedIPs));
  }

  method AllocateIPv4(pool: Cidr, serverAddr: string, usedIPs: seq<string>) returns (r: Result<string>)
    ensures r == Allocate4(pool, serverAddr, usedIPs)
  {
    if pool.Malformed? {
      return Err(InvalidPool);
    }
    var used := MarkUsed(serverAddr, usedIPs);
    if To4(pool).None? {
      return Err(NotIPv4);
    }
    var hostCount: int := Shl32(To4(pool).value.hostBits);
    ScanBound4(pool);
    var i := ScanIPv4(To4(pool).value.base, Wrap32(hostCount - 1), used);
    return if i.Some? then Ok(Dotted(To4(pool).value.base + i.value) + "/32") else Err(NoFreeAddress);
  }

  /** The used map of the original. */
  method MarkUsed(serverAddr: string, usedIPs: seq<string>) returns (used: set<string>)
    ensures used == UsedTexts(serverAddr, usedIPs)
  {
    used := {};
    if serverAddr != "" {
      used := used + {StripMask(serverAddr)};
    }
    for k := 0 to |usedIPs|
      invariant used == UsedTexts(serverAddr, usedIPs[..k])
    {
      UsedTextsStep(serverAddr, usedIPs, k);
      used := used + {StripMask(usedIPs[k])};
    }
    assert usedIPs[..|usedIPs|] == usedIPs;
  }

  method ScanIPv4(ipInt: nat, bound: nat, used: set<string>) returns (r: Option<nat>)
    ensures r == FirstFree(Text4(ipInt), 2, bound, used)
  {
    var i := 2;
    while i < bound
      invariant i >= 2
      invariant FirstFree(Text4(ipInt), 2, bound, used) == FirstFree(Text4(ipInt), i, bound, used)
    {
      var candidate := Dotted(Wrap32(ipInt + i));
      assert Text4(ipInt)(i) == candidate;
      if candidate !in used {
        return Some(i);
      }
      i := i + 1;
    }
    return None;
  }

  lemma ScanBound4(pool: Cidr)
    requires To4(pool).Some?
    ensures var n := To4(pool).value.hostBits; Wrap32(Shl32(n) - 1) == Pow2(n) - 1
  {
    Pool4Fits(pool);
    LastOffset(To4(pool).value.hostBits);
  }

  // ---- IPv6 ---------------------------------------------------------------------------------------

  newtype byte = x: int | 0 <= x < 256

  /** big.Int.Bytes: big-endian, without leading zeros. */
  function MinimalBytes(n: nat): seq<byte> {
    if n == 0 then [] else MinimalBytes(n / 256) + [(n % 256) as byte]
  }

  function FromBytes(b: seq<byte>): nat {
    if b == [] then 0 else FromBytes(b[..|b| - 1]) * 256 + b[|b| - 1] as nat
  }

  lemma Pow256Sixteen()
    ensures Pow256(16) == TWO128
  {
    assert Pow256(8) == TWO64;
  }

  lemma {:induction false} MinimalBytesReadBack(n: nat, k: nat)
    requires n < Pow256(k)
    ensures |MinimalBytes(n)| <= k && FromBytes(MinimalBytes(n)) == n
  {
    if n > 0 {
      MinimalBytesReadBack(n / 256, k - 1);
      assert MinimalBytes(n)[..|MinimalBytes(n)| - 1] == MinimalBytes(n / 256);
    }
  }

  lemma {:induction false} LeadingZeros(z: nat, b: seq<byte>)
    ensures FromBytes(Zeros(z) + b) == FromBytes(b)
    decreases |b|, z
  {
    var zeros := Zeros(z);
    if b != [] {
      assert (zeros + b)[..z + |b| - 1] == zeros + b[..|b| - 1];
      LeadingZeros(z, b[..|b| - 1]);
    } else if z > 0 {
      assert zeros + [] == zeros;
      assert zeros[..z - 1] == Zeros(z - 1) + [];
      LeadingZeros(z - 1, []);
    }
  }

  lemma SixteenBytes(candidate: nat)
    requires candidate < TWO128
    ensures |MinimalBytes(candidate)| <= 16 && FromBytes(MinimalBytes(candidate)) == candidate
  {
    Pow256Sixteen();
    MinimalBytesReadBack(candidate, 16);
  }

  function Zeros(n: nat): (r: seq<byte>)
    ensures |r| == n
  {
    seq(n, _ => 0 as byte)
  }

  /** copy(ip[16-len(b):], b) into a zeroed 16-byte slice. */
  method CopyToEnd(b: seq<byte>) returns (ip: seq<byte>)
    requires |b| <= 16
    ensures ip == Zeros(16 - |b|) + b
  {
    var buffer := new byte[16](_ => 0);
    var start := 16 - |b|;
    for k := 0 to |b|
      invariant buffer[..start + k] == Zeros(start) + b[..k]
    {
      buffer[start + k] := b[k];
      assert buffer[..start + k + 1] == buffer[..start + k] + [b[k]];
      assert b[..k + 1] == b[..k] + [b[k]];
    }
    assert b[..|b|] == b && buffer[..start + |b|] == buffer[..];
    ip := buffer[..];
  }

  /** The 16-byte form of a candidate reads back as the candidate. */
  method To16Bytes(candidate: nat) returns (ip: seq<byte>)
    requires candidate < TWO128
    ensures |ip| == 16 && FromBytes(ip) == candidate
  {
    SixteenBytes(candidate);
    var candidateBytes := MinimalBytes(candidate);
    ip := CopyToEnd(candidateBytes);
    LeadingZeros(16 - |candidateBytes|, candidateBytes);
  }

  /** Offsets that AllocateIPv6 tries end before this: nothing for 63 host bits and more. */
  function Limit6(hostBits: nat): int {
    if hostBits > 62 then 0 else if hostBits > 16 then 65536 else Pow2(hostBits)
  }

  lemma Limit6Fits(hostBits: nat)
    ensures hostBits <= 62 ==> 1 <= Limit6(hostBits) <= Pow2(hostBits) && Limit6(hostBits) <= 65536
    ensures Limit6(hostBits) == if ShlInt64(hostBits) > 65536 then 65536 else if hostBits
              == 63 then 0 else ShlInt64(hostBits)
  {
    Powers32();
    ShlInt64Values(hostBits);
    if 16 < hostBits {
      Pow2Grows(16, hostBits);
    } else {
      Pow2Grows(hostBits, 16);
    }
  }

  function Value6(base: nat): nat -> nat {
    i => base + i
  }

  function Allocate6(c: Cidr, serverAddr: Option<nat>, usedIPs: seq<Option<nat>>): Result<nat> {
    match To16(c)
    case None => Err(InvalidPool)
    case Some(p) =>
      match FirstFree(Value6(p.base), 2, Limit6(p.hostBits), UsedValues(serverAddr, usedIPs))
      case Some(i) => Ok(p.base + i)
      case None => Err(NoFreeAddress)
  }

  method AllocateIPv6(pool: Cidr, serverAddr: Option<nat>, usedIPs: seq<Option<nat>>) returns (r: Result<nat>)
    ensures r == Allocate6(pool, serverAddr, usedIPs)
  {
    if To16(pool).None? {
      return Err(InvalidPool);
    }
    var used: set<nat> := if serverAddr.Some? then {serverAddr.value} else {};
    for k := 0 to |usedIPs|
      invariant used == UsedValues(serverAddr, usedIPs[..k])
    {
      UsedValuesStep(serverAddr, usedIPs, k);
      if usedIPs[k].Some? {
        used := used + {usedIPs[k].value};
      }
    }
    assert usedIPs[..|usedIPs|] == usedIPs;
    var i := ScanIPv6(pool, used);
    return if i.Some? then Ok(To16(pool).value.base + i.value) else Err(NoFreeAddress);
  }

  lemma UsedValuesStep(serverAddr: Option<nat>, usedIPs: seq<Option<nat>>, n: nat)
    requires n < |usedIPs|
    ensures UsedValues(serverAddr, usedIPs[..n + 1])
              == UsedValues(serverAddr, usedIPs[..n]) + if usedIPs[n].Some? then {usedIPs[n].value} else {}
  {
    assert usedIPs[..n + 1] == usedIPs[..n] + [usedIPs[n]];
    assert forall a :: a in usedIPs[..n + 1] <==> a in usedIPs[..n] || a == usedIPs[n];
  }

  /** The scan, with the shift of the original and each candidate in its 16 bytes. */
  method ScanIPv6(pool: Cidr, used: set<nat>) returns (r: Option<nat>)
    requires To16(pool).Some?
    ensures var p := To16(pool).value; r == FirstFree(Value6(p.base), 2, Limit6(p.hostBits), used)
  {
    var base, hostBits := To16(pool).value.base, To16(pool).value.hostBits;
    var maxHosts := ShlInt64(hostBits);
    if maxHosts > 65536 {
      maxHosts := 65536;
    }
    ScanBound(hostBits, maxHosts);
    var i := 2;
    while i < maxHosts
      invariant i >= 2
      invariant FirstFree(Value6(base), 2, Limit6(hostBits), used) == FirstFree(Value6(base), i, Limit6(hostBits), used)
    {
      NoCarry(pool, i);
      var ip := To16Bytes(base + i);
      assert Value6(base)(i) == FromBytes(ip);
      if FromBytes(ip) !in used {
        return Some(i);
      }
      i := i + 1;
    }
    return None;
  }

  lemma ScanBound(hostBits: nat, maxHosts: int)
    requires maxHosts == if ShlInt64(hostBits) > 65536 then 65536 else ShlInt64(hostBits)
    ensures maxHosts == Limit6(hostBits) || maxHosts < 0 == Limit6(hostBits)
  {
    ShlInt64Values(hostBits);
    Limit6Fits(hostBits);
  }

  /** An offset below the limit does not reach the prefix. */
  lemma NoCarry(c: Cidr, i: nat)
    requires To16(c).Some? && i < Limit6(To16(c).value.hostBits)
    ensures c.V6? && var p := To16(c).value;
            p.base + i < TWO128 && (p.base + i) / Pow2(p.hostBits) == p.base / Pow2(p.hostBits)
  {
    var p := To16(c).value;
    Pool16Fits(c);
    Limit6Fits(p.hostBits);
    assert c.V6?;
    var m := Pow2(p.hostBits);
    var k := p.base / m;
    assert p.base == k * m;
    QuotientKept(k, m, i);
  }

  lemma QuotientKept(k: nat, m: nat, i: nat)
    requires i < m
    ensures (k * m + i) / m == k && (k * m) / m == k
  {
    DivisionIsUnique(k * m, m, k, 0);
    DivisionIsUnique(k * m + i, m, k, i);
  }

  lemma NotUsed6(serverAddr: Option<nat>, usedIPs: seq<Option<nat>>, x: nat)
    requires x !in UsedValues(serverAddr, usedIPs)
    ensures Some(x) != serverAddr && Some(x) !in usedIPs
  {
  }

  lemma Allocate6IsLeastFree(c: Cidr, serverAddr: Option<nat>, usedIPs: seq<Option<nat>>) returns (i: nat)
    requires Allocate6(c, serverAddr, usedIPs).Ok?
    ensures To16(c).Some? && var p := To16(c).value; var r := Allocate6(c, serverAddr, usedIPs).value;
            && p.hostBits <= 62 && 2 <= i < Limit6(p.hostBits)
            && r == p.base + i < TWO128 && r / Pow2(p.hostBits) == p.base / Pow2(p.hostBits)
            && Some(r) != serverAddr && Some(r) !in usedIPs
            && (forall j :: 2 <= j < i ==> Value6(p.base)(j) in UsedValues(serverAddr, usedIPs))
  {
    var p := To16(c).value;
    i := FirstFree(Value6(p.base), 2, Limit6(p.hostBits), UsedValues(serverAddr, usedIPs)).value;
    NoCarry(c, i);
    NotUsed6(serverAddr, usedIPs, p.base + i);
  }

  /** With 63 host bits or more (a /65 or wider, so also the usual /64, and any IPv4 pool) there is
      never a free address, whatever is in use. */
  lemma WidePoolsAreExhausted(c: Cidr, serverAddr: Option<nat>, usedIPs: seq<Option<nat>>)
    requires To16(c).Some? && To16(c).value.hostBits >= 63
    ensures Allocate6(c, serverAddr, usedIPs) == Err(NoFreeAddress)
  {
  }

  lemma {:induction false} FewValues(usedIPs: seq<Option<nat>>)
    ensures |set a | a in usedIPs && a.Some? :: a.value| <= |usedIPs|
  {
    if usedIPs != [] {
      FewValues(usedIPs[1..]);
      var rest := set a | a in usedIPs[1..] && a.Some? :: a.value;
      var all := set a | a in usedIPs && a.Some? :: a.value;
      if usedIPs[0].Some? {
        assert all == rest + {usedIPs[0].value};
      } else {
        assert all == rest;
      }
    }
  }

  lemma Allocate6Succeeds(c: Cidr, serverAddr: Option<nat>, usedIPs: seq<Option<nat>>)
    requires To16(c).Some? && |usedIPs| + (if serverAddr.Some? then 1 else 0) < Limit6(To16(c).value.hostBits) - 2
    ensures Allocate6(c, serverAddr, usedIPs).Ok?
  {
    var p := To16(c).value;
    FewValues(usedIPs);
    var s := set a | a in usedIPs && a.Some? :: a.value;
    assert UsedValues(serverAddr, usedIPs) == (if serverAddr.Some? then {serverAddr.value} else {}) + s;
    Pigeonhole(Value6(p.base), 2, Limit6(p.hostBits), UsedValues(serverAddr, usedIPs));
  }
}
