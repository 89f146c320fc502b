/**
 Diffie-Hellman key agreement (td/mtproto/DhHandshake.cpp). Big numbers are naturals; hash
 functions and the primality test are parameters; random exponents are arguments.
 */
module DhHandshake {
  import opened Bytes

  // ---------- powers ----------

  function Power(g: nat, e: nat): nat {
    if e == 0 then 1 else g * Power(g, e - 1)
  }

  /** BN_mod_exp. */
  function PowerMod(g: nat, e: nat, p: nat): nat
    requires p > 0
  {
    Power(g, e) % p
  }

  lemma ModMul(a: nat, b: nat, p: nat)
    requires p > 0
    ensures (a % p * b) % p == (a * b) % p
  {
    var q, r := a / p, a % p;
    assert a == q * p + r;
    assert a * b == r * b + (q * b) * p;
    ModDropsMultiple(r * b, q * b, p);
  }

  lemma ModMulSecond(a: nat, b: nat, p: nat)
    requires p > 0
    ensures (a * (b % p)) % p == (a * b) % p
  {
    ModMul(b, a, p);
    Commute(b % p, a);
    Commute(b, a);
  }

  lemma Commute(a: nat, b: nat)
    ensures a * b == b * a
  {
  }

  /** Both factors may be replaced by what they are congruent to. */
  lemma ModMulBoth(x: nat, y: nat, z: nat, p: nat)
    requires p > 0 && y % p == z % p
    ensures (x % p * y) % p == (x * z) % p
  {
    ModMul(x, y, p);
    ModMulSecond(x, y, p);
    ModMulSecond(x, z, p);
  }

  lemma PowerStep(g: nat, e: nat)
    requires e > 0
    ensures Power(g, e) == g * Power(g, e - 1)
  {
  }

  /** Reducing the base first changes nothing. */
  lemma {:induction false} PowerOfReduced(x: nat, e: nat, p: nat)
    requires p > 0
    ensures Power(x % p, e) % p == Power(x, e) % p
  {
    if e > 0 {
      hide Power;
      var y, z := Power(x % p, e - 1), Power(x, e - 1);
      PowerOfReduced(x, e - 1, p);
      PowerStep(x % p, e);
      PowerStep(x, e);
      ModMulBoth(x, y, z, p);
    } else {
      assert Power(x % p, 0) == Power(x, 0);
    }
  }

  lemma {:induction false} PowerAdds(g: nat, a: nat, b: nat)
    ensures Power(g, a + b) == Power(g, a) * Power(g, b)
  {
    if a > 0 {
      PowerAdds(g, a - 1, b);
      Rearrange(g, Power(g, a - 1), Power(g, b));
    }
  }

  lemma Rearrange(x: nat, y: nat, z: nat)
    ensures x * (y * z) == x * y * z
  {
  }

  lemma {:induction false} PowerOfPower(g: nat, a: nat, b: nat)
    ensures Power(Power(g, a), b) == Power(g, a * b)
  {
    if b > 0 {
      PowerOfPower(g, a, b - 1);
      PowerAdds(g, a, a * (b - 1));
      assert a * b == a + a * (b - 1);
    }
  }

  /** (g^a mod p)^b and (g^b mod p)^a agree modulo p, for all exponents and every modulus. */
  lemma PowersAgree(g: nat, a: nat, b: nat, p: nat)
    requires p > 0
    ensures PowerMod(PowerMod(g, a, p), b, p) == PowerMod(PowerMod(g, b, p), a, p)
  {
    PowerOfReduced(Power(g, a), b, p);
    PowerOfReduced(Power(g, b), a, p);
    PowerOfPower(g, a, b);
    PowerOfPower(g, b, a);
    assert a * b == b * a;
  }

  // ---------- big-endian numbers ----------

  function NumBits(x: nat): nat {
    if x == 0 then 0 else 1 + NumBits(x / 2)
  }

  /** BN_bin2bn. */
  function FromBinary(s: seq<byte>): nat {
    if s == [] then 0 else FromBinary(s[..|s| - 1]) * 256 + s[|s| - 1]
  }

  /** to_binary without a size: no leading zero byte. */
  function ToBinary(x: nat): seq<byte> {
    if x == 0 then [] else ToBinary(x / 256) + [x % 256]
  }

  /** to_binary with a size: zeros in front. */
  function ToBinaryExact(x: nat, size: nat): seq<byte>
    requires |ToBinary(x)| <= size
  {
    Zeros(size - |ToBinary(x)|) + ToBinary(x)
  }

  lemma {:induction false} BinaryRoundTrip(x: nat)
    ensures FromBinary(ToBinary(x)) == x
  {
    if x > 0 {
      var s := ToBinary(x);
      assert s[..|s| - 1] == ToBinary(x / 256);
      BinaryRoundTrip(x / 256);
    }
  }

  lemma {:induction false} LeadingZeros(k: nat, s: seq<byte>)
    ensures FromBinary(Zeros(k) + s) == FromBinary(s)
  {
    if s == [] {
      assert Zeros(k) + s == Zeros(k);
      if k > 0 {
        LeadingZeros(k - 1, s);
        assert Zeros(k)[..k - 1] == Zeros(k - 1) + s;
      }
    } else {
      var t := Zeros(k) + s;
      LeadingZeros(k, s[..|s| - 1]);
      assert t[..|t| - 1] == Zeros(k) + s[..|s| - 1];
    }
  }

  lemma ExactRoundTrip(x: nat, size: nat)
    requires |ToBinary(x)| <= size
    ensures |ToBinaryExact(x, size)| == size && FromBinary(ToBinaryExact(x, size)) == x
  {
    LeadingZeros(size - |ToBinary(x)|, ToBinary(x));
    BinaryRoundTrip(x);
  }

  lemma {:induction false} NumBitsGrows(x: nat, y: nat)
    requires x <= y
    ensures NumBits(x) <= NumBits(y)
  {
    if x > 0 {
      NumBitsGrows(x / 2, y / 2);
    }
  }

  lemma NumBitsOfByte(x: nat)
    requires 0 < x < 256
    ensures 1 <= NumBits(x) <= 8
  {
    NumBitsGrows(x, 255);
    NumBitsGrows(1, x);
    assert NumBits(255) == 8 && NumBits(1) == 1;
  }

  lemma NumBitsShift(x: nat)
    requires x >= 256
    ensures NumBits(x) == 8 + NumBits(x / 256)
  {
    var y := x / 2 / 2 / 2 / 2;
    assert NumBits(x) == 2 + NumBits(x / 2 / 2);
    assert NumBits(x / 2 / 2) == 2 + NumBits(y);
    assert NumBits(y) == 2 + NumBits(y / 2 / 2);
    assert NumBits(y / 2 / 2) == 2 + NumBits(y / 2 / 2 / 2 / 2);
    assert y / 2 / 2 / 2 / 2 == x / 256;
  }

  /** BN_num_bytes is the length of the encoding. */
  lemma {:induction false} BinaryLength(x: nat)
    ensures |ToBinary(x)| == (NumBits(x) + 7) / 8
  {
    if 0 < x < 256 {
      NumBitsOfByte(x);
      assert ToBinary(x / 256) == [];
    } else if x >= 256 {
      NumBitsShift(x);
      BinaryLength(x / 256);
    }
  }

  lemma {:induction false} NumBitsBounds(x: nat)
    requires x > 0
    ensures NumBits(x) > 0 && Pow2(NumBits(x) - 1) <= x < Pow2(NumBits(x))
  {
    if x > 1 {
      NumBitsBounds(x / 2);
    } else {
      assert NumBits(1) == 1;
    }
  }

  // ---------- the configuration check ----------

  datatype Status = Ok | BadSize | BadModulus | KnownBad | NotPrime | HalfNotPrime | HashMismatch | OutOfRange

  predicate GoodModulus(g: int, p: nat) {
    match g
    case 2 => p % 8 == 7
    case 3 => p % 3 == 2
    case 4 => true
    case 5 => p % 5 == 1 || p % 5 == 4
    case 6 => p % 24 == 19 || p % 24 == 23
    case 7 => p % 7 == 3 || p % 7 == 5 || p % 7 == 6
    case _ => false
  }

  /** check_config without a cache. */
  function CheckFresh(isPrime: nat -> bool, g: int, p: nat): Status {
    if NumBits(p) != 2048 then BadSize
    else if !GoodModulus(g, p) then BadModulus
    else if !isPrime(p) then NotPrime
    else if p == 0 || !isPrime((p - 1) / 2) then HalfNotPrime
    else Ok
  }

  predicate SafePrime(isPrime: nat -> bool, p: nat) {
    p > 0 && isPrime(p) && isPrime((p - 1) / 2)
  }

  /** The cache of checked primes (DhCallback). */
  class Callback {
    var cache: map<seq<byte>, bool>

    constructor ()
      ensures cache == map[]
    {
      cache := map[];
    }
  }

  /** What the cache says is what the primality test says. */
  ghost predicate CacheTrue(isPrime: nat -> bool, cache: map<seq<byte>, bool>) {
    forall k | k in cache :: cache[k] == SafePrime(isPrime, FromBinary(k))
  }

  /**
   check_config. Whatever the earlier calls left in the cache, the configuration is accepted
   exactly when it is accepted without a cache, and only the wording for a prime known to be
   bad differs. The cache stays true, and every verdict on a prime is recorded.
   */
  method CheckConfig(isPrime: nat -> bool, g: int, primeStr: seq<byte>, callback: Callback?) returns (status: Status)
    requires callback != null ==> CacheTrue(isPrime, callback.cache)
    modifies callback
    ensures callback != null ==> CacheTrue(isPrime, callback.cache)
    ensures callback != null ==>
              var decided := CheckFresh(isPrime, g, FromBinary(primeStr)) in {Ok, NotPrime, HalfNotPrime};
              callback.cache.Keys == old(callback.cache).Keys + if decided then {primeStr} else {}
    ensures var expected := CheckFresh(isPrime, g, FromBinary(primeStr));
            && (status == Ok <==> expected == Ok)
            && (status != expected ==> status == KnownBad && expected in {NotPrime, HalfNotPrime} &&
                                       callback != null && primeStr in old(callback.cache))
  {
    var prime := FromBinary(primeStr);
    if NumBits(prime) != 2048 {
      return BadSize;
    }
    if !GoodModulus(g, prime) {
      return BadModulus;
    }
    assert prime > 0;
    if callback != null && primeStr in callback.cache {
      return if callback.cache[primeStr] then Ok else KnownBad;
    }
    if !isPrime(prime) {
      if callback != null {
        callback.cache := callback.cache[primeStr := false];
      }
      return NotPrime;
    }
    var half := (prime - 1) / 2;
    if !isPrime(half) {
      if callback != null {
        callback.cache := callback.cache[primeStr := false];
      }
      return HalfNotPrime;
    }
    if callback != null {
      callback.cache := callback.cache[primeStr := true];
    }
    return Ok;
  }

  // ---------- one side ----------

  /** dh_check: both values keep a distance of 2^(2048-64) from the ends. */
  predicate InRange(p: nat, x: nat)
    requires NumBits(p) == 2048
  {
    var left := Pow2(NumBits(p) - 64);
    left <= x && x <= p - left
  }

  /** So they are greater than 1 and less than p - 1. */
  lemma InRangeIsProper(p: nat, x: nat)
    requires NumBits(p) == 2048 && InRange(p, x)
    ensures 1 < x < p - 1
  {
    var n: nat := NumBits(p) - 64;
    assert Pow2(n) == 2 * Pow2(n - 1);
  }

  /** A number below a modulus of at most 2048 bits fits in 256 bytes, so the size check of to_binary never fails. */
  lemma KeyFits(x: nat, p: nat)
    requires x < p && NumBits(p) <= 2048
    ensures |ToBinary(x)| <= 256
  {
    NumBitsGrows(x, p);
    BinaryLength(x);
  }

  /** Keys of one length are equal when their numbers are. */
  lemma {:induction false} BinaryInjective(s: seq<byte>, t: seq<byte>)
    requires |s| == |t| && FromBinary(s) == FromBinary(t)
    ensures s == t
  {
    if s != [] {
      var n := |s| - 1;
      var x, y := FromBinary(s[..n]), FromBinary(t[..n]);
      assert x * 256 + s[n] == y * 256 + t[n];
      BinaryInjective(s[..n], t[..n]);
      assert s == s[..n] + [s[n]] && t == t[..n] + [t[n]];
    }
  }

  class Side {
    var hasConfig: bool
    var hasGA: bool
    var hasGAHash: bool
    var okGAHash: bool
    var gAHash: seq<byte>
    var primeStr: seq<byte>
    var prime: nat
    var g: nat
    var b: nat
    var gB: nat
    var gA: nat

    predicate Valid()
      reads this
    {
      hasConfig ==> prime == FromBinary(primeStr) && prime > 0 && gB == PowerMod(g, b, prime)
    }

    constructor ()
      ensures Valid() && !hasConfig && !hasGA && !hasGAHash
    {
      hasConfig, hasGA, hasGAHash, okGAHash, gAHash := false, false, false, false, [];
      primeStr, prime, g, b, gB, gA := [], 0, 0, 0, 0, 0;
    }

    /** set_config; exponent is the random number. A modulus of zero is a fatal error of BN_mod_exp. */
    method SetConfig(generator: nat, primeBytes: seq<byte>, exponent: nat)
      requires FromBinary(primeBytes) > 0
      modifies this`hasConfig, this`prime, this`primeStr, this`b, this`g, this`gB
      ensures Valid() && hasConfig && prime == FromBinary(primeBytes) && primeStr == primeBytes
      ensures g == generator && b == exponent
    {
      hasConfig, prime, primeStr := true, FromBinary(primeBytes), primeBytes;
      b, g := exponent, generator;
      gB := PowerMod(g, b, prime);
    }

    method SetGAHash(hash: seq<byte>)
      requires !hasGA
      modifies this`hasGAHash, this`okGAHash, this`gAHash
      ensures hasGAHash && !okGAHash && gAHash == hash
    {
      hasGAHash, okGAHash, gAHash := true, false, hash;
    }

    method SetGA(sha256: seq<byte> -> seq<byte>, value: seq<byte>)
      modifies this`hasGA, this`okGAHash, this`gA
      ensures hasGA && gA == FromBinary(value)
      ensures okGAHash == if hasGAHash then sha256(value) == gAHash else old(okGAHash)
    {
      hasGA := true;
      if hasGAHash {
        okGAHash := sha256(value) == gAHash;
      }
      gA := FromBinary(value);
    }

    method GetGB() returns (s: seq<byte>)
      requires Valid() && hasConfig
      ensures s == ToBinary(gB) && FromBinary(s) == gB
    {
      BinaryRoundTrip(gB);
      return ToBinary(gB);
    }

    method GetGBHash(sha256: seq<byte> -> seq<byte>) returns (hash: seq<byte>)
      requires Valid() && hasConfig
      ensures hash == sha256(ToBinary(gB))
    {
      var s := GetGB();
      return sha256(s);
    }

    /** run_checks. */
    method RunChecks(isPrime: nat -> bool, skipConfigCheck: bool, callback: Callback?) returns (status: Status)
      requires Valid() && hasConfig && hasGA
      requires skipConfigCheck ==> NumBits(prime) == 2048
      requires callback != null ==> CacheTrue(isPrime, callback.cache)
      modifies callback
      ensures callback != null ==> CacheTrue(isPrime, callback.cache)
      ensures status == Ok <==>
              && (hasGAHash ==> okGAHash)
              && (!skipConfigCheck ==> CheckFresh(isPrime, g, prime) == Ok)
              && NumBits(prime) == 2048 && InRange(prime, gA) && InRange(prime, gB)
    {
      if hasGAHash && !okGAHash {
        return HashMismatch;
      }
      if !skipConfigCheck {
        status := CheckConfig(isPrime, g, primeStr, callback);
        if status != Ok {
          return;
        }
      }
      return if InRange(prime, gA) && InRange(prime, gB) then Ok else OutOfRange;
    }

    /** gen_key: the shared number in exactly 256 bytes and its identifier. A longer number stops the program in to_binary. */
    method GenKey(keyId: seq<byte> -> nat) returns (id: nat, key: seq<byte>)
      requires Valid() && hasConfig && hasGA && |ToBinary(PowerMod(gA, b, prime))| <= 256
      ensures |key| == 256 && FromBinary(key) == PowerMod(gA, b, prime) && id == keyId(key)
    {
      var shared := PowerMod(gA, b, prime);
      key := ToBinaryExact(shared, 256);
      ExactRoundTrip(shared, 256);
      return keyId(key), key;
    }
  }

  lemma SharedPower(g: nat, a: nat, b: nat, p: nat)
    requires p > 0
    ensures PowerMod(PowerMod(g, a, p), b, p) == PowerMod(g, a * b, p)
  {
    PowerOfReduced(Power(g, a), b, p);
    PowerOfPower(g, a, b);
  }

  /**
   The exchange of the two sides: the left one may announce the hash of its g^a first, then each
   hands its power to the other. Both derive the same key and the same key identifier, whatever the
   exponents and the modulus and whether or not the checks pass, and an announced hash is confirmed.
   */
  method Exchange(sha256: seq<byte> -> seq<byte>, keyId: seq<byte> -> nat, left: Side, right: Side,
                  g: nat, primeStr: seq<byte>, a: nat, b: nat, announce: bool)
    returns (leftId: nat, leftKey: seq<byte>, rightId: nat, rightKey: seq<byte>)
    requires left != right && FromBinary(primeStr) > 0 && (announce ==> !right.hasGA)
    requires |ToBinary(PowerMod(g, a * b, FromBinary(primeStr)))| <= 256
    modifies left, right
    ensures left.Valid() && right.Valid()
    ensures leftKey == rightKey && leftId == rightId == keyId(leftKey)
    ensures |leftKey| == 256 && FromBinary(leftKey) == PowerMod(g, a * b, FromBinary(primeStr))
    ensures announce ==> right.hasGAHash && right.okGAHash
  {
    left.SetConfig(g, primeStr, a);
    right.SetConfig(g, primeStr, b);
    if announce {
      var hash := left.GetGBHash(sha256);
      right.SetGAHash(hash);
    }
    var fromLeft := left.GetGB();
    right.SetGA(sha256, fromLeft);
    var fromRight := right.GetGB();
    left.SetGA(sha256, fromRight);
    PowersAgree(g, a, b, left.prime);
    SharedPower(g, a, b, left.prime);
    leftId, leftKey := left.GenKey(keyId);
    rightId, rightKey := right.GenKey(keyId);
    BinaryInjective(leftKey, rightKey);
  }
}
