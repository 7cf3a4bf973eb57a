/** cksum of sr_utils.c, and what RFC 1071 and RFC 1624 say about it. A checksum is the number
    that the two stored bytes form on the wire; htons makes the C value agree with it. */
module Checksum {
  import opened Bytes

  const WORD := 0x1_0000
  const ACC := 0x1_0000_0000

  function Pair(hi: byte, lo: byte): (w: nat)
  {
    hi as int * 256 + lo as int
  }

  /** The unbounded sum of the big-endian 16-bit words of s, an odd last byte padded with zero. */
  function Total(s: seq<byte>): nat
  {
    if |s| == 0 then 0
    else if |s| == 1 then Pair(s[0], 0)
    else Pair(s[0], s[1]) + Total(s[2..])
  }

  /** One turn of the carry-folding loop: the bits above the 16th are added to the rest. */
  function Carry(x: nat): (r: nat)
    ensures r % 0xffff == x % 0xffff && (r == 0 <==> x == 0) && (x > 0xffff ==> r < x)
  {
    assert x == WORD * (x / WORD) + x % WORD;
    assert x - (x / WORD + x % WORD) == 0xffff * (x / WORD);
    x / WORD + x % WORD
  }

  /** The carry-folding loop. */
  function Fold(x: nat): (r: nat)
    ensures r <= 0xffff && r % 0xffff == x % 0xffff && (r == 0 <==> x == 0)
  {
    if x > 0xffff then Fold(Carry(x)) else x
  }

  /** What cksum returns: the accumulator is 32 bits wide, and 0 is replaced by 0xffff. */
  function Cksum(s: seq<byte>): (c: nat)
    ensures 1 <= c <= 0xffff
  {
    var v := 0xffff - Fold(Total(s) % ACC);
    if v == 0 then 0xffff else v
  }

  /** From any 32-bit sum the folding loop runs at most twice. */
  lemma FoldInTwoRounds(x: nat)
    requires x < ACC
    ensures Carry(Carry(x)) <= 0xffff
    ensures Fold(x) == if x <= 0xffff then x else if Carry(x) <= 0xffff then Carry(x) else Carry(Carry(x))
  {
    var y := Carry(x);
    assert x / WORD <= 0xffff;
    assert y <= 0x1fffe;
    if y > 0xffff {
      assert y / WORD == 1;
    }
    FoldStep(x);
    FoldStep(y);
    FoldStep(Carry(y));
  }

  /** One turn of the summing loop, on the words that are left. */
  lemma WordSummed(rest: seq<byte>, sum: nat)
    requires |rest| >= 2
    ensures ((sum + Pair(rest[0], rest[1])) % ACC + Total(rest[2..])) % ACC == (sum + Total(rest)) % ACC
  {
    AddWrapped(sum + Pair(rest[0], rest[1]), Total(rest[2..]));
  }

  lemma FoldStep(x: nat)
    ensures Fold(x) == if x > 0xffff then Fold(Carry(x)) else x
  {
  }

  lemma TotalOfRest(rest: seq<byte>)
    requires |rest| <= 1
    ensures Total(rest) == if |rest| == 0 then 0 else Pair(rest[0], 0)
  {
  }

  /** cksum itself, over len bytes of a buffer from off. */
  method ComputeCksum(data: array<byte>, off: nat, length: nat) returns (c: nat)
    requires off + length <= data.Length
    ensures c == Cksum(data[off..off + length])
  {
    hide Total, Fold, Carry;
    var sum := 0;
    var i, len := off, length;
    ghost var s := data[off..off + length];
    assert s[0..] == s;
    while len >= 2
      invariant off <= i && 0 <= len && i + len == off + length && 0 <= sum < ACC
      invariant (sum + Total(s[i - off..])) % ACC == Total(s) % ACC
      decreases len
    {
      ghost var rest := s[i - off..];
      assert rest[0] == data[i] && rest[1] == data[i + 1] && rest[2..] == s[i + 2 - off..];
      WordSummed(rest, sum);
      sum := (sum + Pair(data[i], data[i + 1])) % ACC;
      i, len := i + 2, len - 2;
    }
    TotalOfRest(s[i - off..]);
    if len > 0 {
      sum := (sum + Pair(data[i], 0)) % ACC;
    }
    assert sum == Total(s) % ACC;
    ghost var start, rounds := sum, 0;
    FoldInTwoRounds(sum);
    while sum > 0xffff
      invariant 0 <= sum < ACC && Fold(sum) == Fold(start) && rounds <= 2
      invariant rounds == 0 ==> sum == start
      invariant rounds == 1 ==> sum == Carry(start)
      invariant rounds == 2 ==> sum <= 0xffff
      decreases sum
    {
      FoldStep(sum);
      sum := Carry(sum);
      rounds := rounds + 1;
    }
    FoldStep(sum);
    c := 0xffff - sum;
    if c == 0 {
      c := 0xffff;
    }
  }

  lemma AddWrapped(a: nat, b: nat)
    ensures (a % ACC + b) % ACC == (a + b) % ACC
  {
    assert a == ACC * (a / ACC) + a % ACC;
    assert (a + b) == ACC * (a / ACC) + (a % ACC + b);
  }

  /** One's-complement addition: a carry out of the top bit is added back in at the bottom. */
  function OnesAdd(x: nat, y: nat): (r: nat)
    requires x <= 0xffff && y <= 0xffff
    ensures r <= 0xffff && r % 0xffff == (x + y) % 0xffff && (r == 0 <==> x + y == 0)
  {
    if x + y > 0xffff then x + y - 0xffff else x + y
  }

  /** The one's-complement sum of section 1 of RFC 1071, word by word. */
  function OnesSum(s: seq<byte>): (r: nat)
    ensures r <= 0xffff
  {
    if |s| == 0 then 0
    else if |s| == 1 then Pair(s[0], 0)
    else OnesAdd(Pair(s[0], s[1]), OnesSum(s[2..]))
  }

  /** The checksum of RFC 1071, with its negative zero written as 0xffff. */
  function Rfc1071(s: seq<byte>): nat
  {
    if OnesSum(s) == 0xffff then 0xffff else 0xffff - OnesSum(s)
  }

  lemma {:induction false} OnesSumIsTotal(s: seq<byte>)
    ensures OnesSum(s) % 0xffff == Total(s) % 0xffff
    ensures OnesSum(s) == 0 <==> Total(s) == 0
  {
    if |s| >= 2 {
      OnesSumIsTotal(s[2..]);
      var w, o, t := Pair(s[0], s[1]), OnesSum(s[2..]), Total(s[2..]);
      assert (w + o) % 0xffff == (w + t) % 0xffff by { AddCongruent(w, o, t); }
    }
  }

  lemma AddCongruent(w: int, x: int, y: int)
    requires x % 0xffff == y % 0xffff
    ensures (w + x) % 0xffff == (w + y) % 0xffff
  {
    assert x - y == 0xffff * (x / 0xffff - y / 0xffff);
    assert (w + x) - (w + y) == 0xffff * (x / 0xffff - y / 0xffff);
  }

  lemma {:induction false} TotalBound(s: seq<byte>)
    ensures Total(s) <= (|s| + 1) / 2 * 0xffff
  {
    if |s| >= 2 {
      TotalBound(s[2..]);
      assert (|s| + 1) / 2 == (|s[2..]| + 1) / 2 + 1;
    }
  }

  /** Up to 65537 words the 32-bit accumulator cannot overflow. */
  lemma AccumulatorNeverOverflows(s: seq<byte>)
    requires (|s| + 1) / 2 <= 65537
    ensures Total(s) < ACC
  {
    TotalBound(s);
  }

  lemma CancelUnique(x: nat, y: nat, t: nat)
    requires 1 <= x <= 0xffff && 1 <= y <= 0xffff
    requires (x + t) % 0xffff == 0 && (y + t) % 0xffff == 0
    ensures x == y
  {
    assert x - y == 0xffff * ((x + t) / 0xffff - (y + t) / 0xffff);
  }

  /** The complement c of a folded sum f cancels every sum t congruent to f. */
  lemma Complement(c: nat, f: nat, t: nat)
    requires f <= 0xffff && c == (if f == 0xffff then 0xffff else 0xffff - f)
    requires f % 0xffff == t % 0xffff
    ensures (c + t) % 0xffff == 0
  {
    AddCongruent(c, f, t);
  }

  /** The complement that cksum takes of its folded 32-bit sum cancels that sum. */
  lemma ComplementCancels(s: seq<byte>)
    ensures (Cksum(s) + Total(s) % ACC) % 0xffff == 0
  {
    Complement(Cksum(s), Fold(Total(s) % ACC), Total(s) % ACC);
  }

  /** A checksum is the one number in 1..0xffff that cancels the sum modulo 65535. */
  lemma CksumCancels(s: seq<byte>, c: nat)
    requires Total(s) < ACC
    ensures c == Cksum(s) <==> 1 <= c <= 0xffff && (c + Total(s)) % 0xffff == 0
  {
    hide Total, Cksum;
    ComplementCancels(s);
    assert Total(s) % ACC == Total(s);
    if 1 <= c <= 0xffff && (c + Total(s)) % 0xffff == 0 {
      CancelUnique(c, Cksum(s), Total(s));
    }
  }

  lemma Rfc1071Cancels(s: seq<byte>)
    ensures 1 <= Rfc1071(s) <= 0xffff && (Rfc1071(s) + Total(s)) % 0xffff == 0
  {
    OnesSumIsTotal(s);
    Complement(Rfc1071(s), OnesSum(s), Total(s));
  }

  /** A wrapped accumulator has lost one unit of the residue per wrap. */
  lemma WrapsLoseResidue(c: nat, t: nat)
    requires (c + t % ACC) % 0xffff == 0 && (c + t) % 0xffff == 0 && t / ACC < 0xffff
    ensures t < ACC
  {
    var q := t / ACC;
    assert t == ACC * q + t % ACC;
    var x, y := (c + t % ACC) / 0xffff, (c + t) / 0xffff;
    assert c + t % ACC == 0xffff * x && c + t == 0xffff * y;
    assert q == 0xffff * (y - x - 0x10001 * q);
  }

  /** cksum agrees with RFC 1071 exactly when the sum fits its 32-bit accumulator, for every
      length that fits the C parameter. */
  lemma CksumIsRfc1071(s: seq<byte>)
    requires |s| < 0x8000_0000
    ensures Cksum(s) == Rfc1071(s) <==> Total(s) < ACC
  {
    Rfc1071Cancels(s);
    ComplementCancels(s);
    TotalBound(s);
    CancelsBothWays(Cksum(s), Rfc1071(s), Total(s));
  }

  lemma CancelsBothWays(c: nat, d: nat, t: nat)
    requires 1 <= c <= 0xffff && 1 <= d <= 0xffff && t <= 0x4000_0000 * 0xffff
    requires (c + t % ACC) % 0xffff == 0 && (d + t) % 0xffff == 0
    ensures c == d <==> t < ACC
  {
    if t < ACC {
      CancelUnique(c, d, t);
    } else if c == d {
      WrapsLoseResidue(c, t);
    }
  }

  /** Replacing the aligned word at i changes the total by the difference of the words. */
  lemma {:induction false} TotalUpdate(s: seq<byte>, i: nat, v: nat)
    requires i % 2 == 0 && i + 2 <= |s| && v < WORD
    ensures Total(PutU16(s, i, v)) == Total(s) - U16(s, i) + v
  {
    var t := PutU16(s, i, v);
    if i == 0 {
      assert t[2..] == s[2..];
    } else {
      TotalUpdate(s[2..], i - 2, v);
      assert t[2..] == PutU16(s[2..], i - 2, v);
    }
  }
}
