/** The Secure Hash Standard, FIPS PUB 180-1, for messages of whole octets. */
module Sha1Spec {
  type octet = bv8
  type word = bv32

  const BLOCK := 64

  datatype Five = Five(a: word, b: word, c: word, d: word, e: word)

  /** The initial hash value of section 7. */
  const H0 := Five(0x67452301, 0xEFCDAB89, 0x98BADCFE, 0x10325476, 0xC3D2E1F0)

  /** The circular left shift of section 3. */
  function Rotl1(x: word): word { (x << 1) | (x >> 31) }
  function Rotl5(x: word): word { (x << 5) | (x >> 27) }
  function Rotl30(x: word): word { (x << 30) | (x >> 2) }

  /** The functions of section 5. */
  function Choose(b: word, c: word, d: word): word { (b & c) | (!b & d) }
  function Parity(b: word, c: word, d: word): word { b ^ c ^ d }
  function Majority(b: word, c: word, d: word): word { (b & c) | (b & d) | (c & d) }

  function F(t: nat, b: word, c: word, d: word): word
  {
    if t < 20 then Choose(b, c, d)
    else if t < 40 then Parity(b, c, d)
    else if t < 60 then Majority(b, c, d)
    else Parity(b, c, d)
  }

  /** The constants of section 6. */
  function K(t: nat): word
  {
    if t < 20 then 0x5A827999 else if t < 40 then 0x6ED9EBA1 else if t < 60 then 0x8F1BBCDC else 0xCA62C1D6
  }

  /** Four octets as a word, most significant first. */
  function WordOf(b0: octet, b1: octet, b2: octet, b3: octet): word
  {
    b0 as word * 0x100_0000 + b1 as word * 0x1_0000 + b2 as word * 0x100 + b3 as word
  }

  /** Steps a and b of section 7: the 80 words made from a block. */
  function W(block: seq<octet>, t: nat): word
    requires |block| == BLOCK
  {
    if t < 16 then WordOf(block[4 * t], block[4 * t + 1], block[4 * t + 2], block[4 * t + 3])
    else Mix(W(block, t - 3), W(block, t - 8), W(block, t - 14), W(block, t - 16))
  }

  function Mix(x: word, y: word, z: word, u: word): word { Rotl1(x ^ y ^ z ^ u) }

  /** Addition of words is modulo 2^32. */
  function Sum(x: word, y: word): word { x + y }
  function Sum5(x: word, y: word, z: word, u: word, v: word): word { x + y + z + u + v }

  /** Step d of section 7 for one t. */
  function Round(v: Five, t: nat, w: word): Five
  {
    Five(Sum5(Rotl5(v.a), F(t, v.b, v.c, v.d), v.e, w, K(t)), v.a, Rotl30(v.b), v.c, v.d)
  }

  function Rounds(v: Five, block: seq<octet>, n: nat): Five
    requires |block| == BLOCK
  {
    if n == 0 then v else Round(Rounds(v, block, n - 1), n - 1, W(block, n - 1))
  }

  /** Steps c to e of section 7. */
  function Compress(h: Five, block: seq<octet>): Five
    requires |block| == BLOCK
  {
    var v := Rounds(h, block, 80);
    Five(Sum(h.a, v.a), Sum(h.b, v.b), Sum(h.c, v.c), Sum(h.d, v.d), Sum(h.e, v.e))
  }

  /** The hash value after the blocks of s, in order. */
  function HashBlocks(s: seq<octet>): Five
    requires |s| % BLOCK == 0
  {
    if |s| == 0 then H0 else Compress(HashBlocks(s[..|s| - BLOCK]), s[|s| - BLOCK..])
  }

  function Zeros(n: nat): (s: seq<octet>)
    ensures |s| == n
  {
    seq(n, _ => 0 as octet)
  }

  /** The 0x80 octet, k zeros and the length complete the last block of n octets. */
  predicate Completes(n: nat, k: nat)
  {
    (n + 1 + k + 8) % BLOCK == 0
  }

  /** The k zero octets of section 4: the fewest that leave room for the length in the last block. */
  function ZeroCount(n: nat): (k: nat)
    ensures k < BLOCK && Completes(n, k) && forall fewer: nat :: fewer < k ==> !Completes(n, fewer)
  {
    (55 - n) % BLOCK
  }

  /** The length in bits as eight octets, most significant first. */
  function LengthOctets(bits: nat): (s: seq<octet>)
    requires bits < 0x1_0000_0000_0000_0000
    ensures |s| == 8
  {
    WordOctets(bits / 0x1_0000_0000) + WordOctets(bits % 0x1_0000_0000)
  }

  function WordOctets(x: nat): (s: seq<octet>)
    requires x < 0x1_0000_0000
    ensures |s| == 4
  {
    [(x / 0x100_0000) as octet, (x / 0x1_0000 % 0x100) as octet, (x / 0x100 % 0x100) as octet, (x % 0x100) as octet]
  }

  /** Message padding, section 4. */
  function Pad(message: seq<octet>): (s: seq<octet>)
    requires 8 * |message| < 0x1_0000_0000_0000_0000
    ensures |s| % BLOCK == 0
  {
    message + [0x80] + Zeros(ZeroCount(|message|)) + LengthOctets(8 * |message|)
  }

  /** The message digest. */
  function Sha1(message: seq<octet>): Five
    requires 8 * |message| < 0x1_0000_0000_0000_0000
  {
    HashBlocks(Pad(message))
  }
}
