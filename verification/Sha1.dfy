/** The streaming engine of sha1.c: what each call does to the context, and that the digest is the
    one of the standard. */
module Sha1 {
  import opened Sha1Spec

  const M32 := 0x1_0000_0000

  /** The value of an SHA1Context. The two length words are numbers below 2^32. */
  datatype Ctx = Ctx(digest: Five, low: nat, high: nat, block: seq<octet>, index: nat, computed: bool, corrupted: bool)

  predicate Wf(c: Ctx)
  {
    c.low < M32 && c.high < M32 && |c.block| == BLOCK && c.index < BLOCK
  }

  /** SHA1Reset: whatever the context was, only the octets of its block remain. */
  function Fresh(block: seq<octet>): Ctx
  {
    Ctx(H0, 0, 0, block, 0, false, false)
  }

  /** One turn of the loop of SHA1Input. */
  function FeedOctet(c: Ctx, b: octet): (r: Ctx)
    requires Wf(c)
    ensures Wf(r)
  {
    var low := (c.low + 8) % M32;
    var high := if low == 0 then (c.high + 1) % M32 else c.high;
    var block := c.block[c.index := b];
    var full := c.index + 1 == BLOCK;
    c.(low := low, high := high, corrupted := c.corrupted || (low == 0 && high == 0), block := block,
       digest := if full then Compress(c.digest, block) else c.digest,
       index := if full then 0 else c.index + 1)
  }

  function Feed(c: Ctx, message: seq<octet>): (r: Ctx)
    requires Wf(c)
    ensures Wf(r)
    decreases |message|
  {
    if message == [] || c.corrupted then c else Feed(FeedOctet(c, message[0]), message[1..])
  }

  /** SHA1Input. */
  function InputCtx(c: Ctx, message: seq<octet>): (r: Ctx)
    requires Wf(c)
    ensures Wf(r)
  {
    if message == [] then c
    else if c.computed || c.corrupted then c.(corrupted := true)
    else Feed(c, message)
  }

  /** The message in the block, the 0x80 octet and the zeros up to n. */
  function Closed(c: Ctx, n: nat): (s: seq<octet>)
    requires Wf(c) && c.index < n
    ensures |s| == n
  {
    c.block[..c.index] + [0x80] + Zeros(n - c.index - 1)
  }

  function LengthField(c: Ctx): (s: seq<octet>)
    requires Wf(c)
    ensures |s| == 8
  {
    WordOctets(c.high) + WordOctets(c.low)
  }

  /** SHA1PadMessage: one block, or two when the length does not fit behind the message. */
  function PadCtx(c: Ctx): (r: Ctx)
    requires Wf(c)
    ensures Wf(r)
  {
    if c.index > 55 then
      var last := Zeros(56) + LengthField(c);
      c.(digest := Compress(Compress(c.digest, Closed(c, BLOCK)), last), block := last, index := 0)
    else
      var last := Closed(c, 56) + LengthField(c);
      c.(digest := Compress(c.digest, last), block := last, index := 0)
  }

  /** SHA1Result. */
  function ResultCtx(c: Ctx): (r: Ctx)
    requires Wf(c)
    ensures Wf(r)
  {
    if c.corrupted || c.computed then c else PadCtx(c).(computed := true)
  }

  // ----- chunking -----

  lemma {:induction false} FeedConcat(c: Ctx, a: seq<octet>, b: seq<octet>)
    requires Wf(c)
    ensures Feed(Feed(c, a), b) == Feed(c, a + b)
    decreases |a|
  {
    hide FeedOctet;
    if a == [] {
      assert a + b == b;
    } else if !c.corrupted {
      assert (a + b)[1..] == a[1..] + b;
      FeedConcat(FeedOctet(c, a[0]), a[1..], b);
    }
  }

  lemma {:induction false} FeedKeepsComputed(c: Ctx, a: seq<octet>)
    requires Wf(c)
    ensures Feed(c, a).computed == c.computed
    decreases |a|
  {
    if a != [] && !c.corrupted {
      FeedKeepsComputed(FeedOctet(c, a[0]), a[1..]);
    }
  }

  /** How a message is cut into calls does not matter to any part of the context, computed and
      corrupted contexts included. */
  lemma InputConcat(c: Ctx, a: seq<octet>, b: seq<octet>)
    requires Wf(c)
    ensures InputCtx(InputCtx(c, a), b) == InputCtx(c, a + b)
  {
    hide Feed;
    if a == [] {
      assert a + b == b;
    } else if b == [] {
      assert a + b == a;
    } else if !c.computed && !c.corrupted {
      FeedConcat(c, a, b);
      FeedKeepsComputed(c, a);
      FeedCorrupted(Feed(c, a), b);
    }
  }

  lemma FeedCorrupted(c: Ctx, b: seq<octet>)
    requires Wf(c)
    ensures c.corrupted ==> Feed(c, b) == c
  {
  }

  // ----- the digest -----

  /** A context that has taken in message and nothing else since the last reset. */
  ghost predicate Tracks(c: Ctx, message: seq<octet>)
  {
    && Wf(c) && !c.computed && !c.corrupted
    && c.high * M32 + c.low == 8 * |message|
    && c.index == |message| % BLOCK
    && c.block[..c.index] == message[|message| - c.index..]
    && c.digest == HashBlocks(message[..|message| - c.index])
  }

  lemma FreshTracks(block: seq<octet>)
    requires |block| == BLOCK
    ensures Tracks(Fresh(block), [])
  {
  }

  /** The two length words count bits modulo 2^64. */
  lemma LengthCarries(low: nat, high: nat, n: nat)
    requires low < M32 && high < M32 && high * M32 + low == 8 * n
    ensures var l := (low + 8) % M32; var h := if l == 0 then (high + 1) % M32 else high;
            && (8 * (n + 1) < M32 * M32 ==> h * M32 + l == 8 * (n + 1) && !(l == 0 && h == 0))
            && (8 * (n + 1) == M32 * M32 ==> l == 0 && h == 0)
            && 8 * (n + 1) <= M32 * M32
  {
    assert low % 8 == 0;
    assert low + 8 <= M32;
  }

  /** Storing an octet behind the open part of the block appends it to the message. */
  lemma BlockGrows(block: seq<octet>, index: nat, message: seq<octet>, b: octet)
    requires index < |block| && index <= |message| && block[..index] == message[|message| - index..]
    ensures var m, start := message + [b], |message| - index;
            m[..start] == message[..start] && block[index := b][..index + 1] == m[start..]
  {
    var m, start := message + [b], |message| - index;
    assert m[start..] == message[start..] + [b];
  }

  lemma OctetTracks(c: Ctx, message: seq<octet>, b: octet)
    requires Tracks(c, message)
    ensures 8 * (|message| + 1) < M32 * M32 ==> Tracks(FeedOctet(c, b), message + [b])
    ensures 8 * (|message| + 1) == M32 * M32 ==> FeedOctet(c, b).corrupted
    ensures 8 * (|message| + 1) <= M32 * M32
  {
    hide Compress, HashBlocks;
    LengthCarries(c.low, c.high, |message|);
    if c.index + 1 == BLOCK {
      BlockCompletes(c, message, b);
    } else {
      BlockStaysOpen(c, message, b);
    }
  }

  lemma NextIndex(n: nat)
    requires n % BLOCK + 1 < BLOCK
    ensures (n + 1) % BLOCK == n % BLOCK + 1
  {
  }

  lemma BlockStaysOpen(c: Ctx, message: seq<octet>, b: octet)
    requires Tracks(c, message) && c.index + 1 < BLOCK
    ensures var m, i := message + [b], c.index + 1;
            && |m| % BLOCK == i <= |m|
            && c.block[c.index := b][..i] == m[|m| - i..]
            && m[..|m| - i] == message[..|message| - c.index]
  {
    hide Compress, HashBlocks;
    NextIndex(|message|);
    BlockGrows(c.block, c.index, message, b);
    var m := message + [b];
    assert |m| - (c.index + 1) == |message| - c.index;
  }

  lemma LastOfBlock(n: nat)
    requires n % BLOCK == BLOCK - 1
    ensures (n + 1) % BLOCK == 0 && (n - (BLOCK - 1)) % BLOCK == 0
  {
  }

  lemma BlockCloses(block: seq<octet>, message: seq<octet>, b: octet)
    requires |block| == BLOCK && BLOCK - 1 <= |message| && block[..BLOCK - 1] == message[|message| - (BLOCK - 1)..]
    ensures message + [b] == message[..|message| - (BLOCK - 1)] + block[BLOCK - 1 := b]
  {
    BlockGrows(block, BLOCK - 1, message, b);
    var m, start := message + [b], |message| - (BLOCK - 1);
    assert m == m[..start] + m[start..];
  }

  lemma BlockCompletes(c: Ctx, message: seq<octet>, b: octet)
    requires Tracks(c, message) && c.index + 1 == BLOCK
    ensures var m := message + [b]; |m| % BLOCK == 0 && m[..|m|] == m && FeedOctet(c, b).digest == HashBlocks(m)
  {
    hide Compress, HashBlocks;
    LastOfBlock(|message|);
    BlockCloses(c.block, message, b);
    HashOneMore(message[..|message| - c.index], c.block[c.index := b]);
  }

  lemma {:induction false} FeedTracks(c: Ctx, message: seq<octet>, more: seq<octet>)
    requires Tracks(c, message)
    ensures 8 * (|message| + |more|) < M32 * M32 ==> Tracks(Feed(c, more), message + more)
    ensures Feed(c, more).corrupted <==> 8 * (|message| + |more|) >= M32 * M32
    decreases |more|
  {
    hide FeedOctet;
    if more == [] {
      assert message + more == message;
      assert 8 * |message| < M32 * M32 by { Below(c.low, c.high); }
    } else {
      OctetTracks(c, message, more[0]);
      assert message + more == (message + [more[0]]) + more[1..];
      if 8 * (|message| + 1) < M32 * M32 {
        FeedTracks(FeedOctet(c, more[0]), message + [more[0]], more[1..]);
      }
    }
  }

  lemma Below(low: nat, high: nat)
    requires low < M32 && high < M32
    ensures high * M32 + low < M32 * M32
  {
  }

  lemma LengthFieldIsLength(c: Ctx, message: seq<octet>)
    requires Tracks(c, message)
    ensures 8 * |message| < M32 * M32 && LengthField(c) == LengthOctets(8 * |message|)
  {
    Below(c.low, c.high);
    var bits := 8 * |message|;
    assert bits / M32 == c.high && bits % M32 == c.low;
  }

  /** SHA1PadMessage hashes exactly what the standard's padding adds, in both of its cases. */
  lemma PaddingFollowsStandard(c: Ctx, message: seq<octet>)
    requires Tracks(c, message)
    ensures 8 * |message| < M32 * M32 && PadCtx(c).digest == Sha1(message)
  {
    hide PadCtx, Closed, Zeros, LengthField, HashBlocks, LengthOctets, Pad;
    LengthFieldIsLength(c, message);
    PadIsClosing(c, message);
    Aligned(|message|);
    PaddedDigest(c, message[..|message| - c.index]);
  }

  lemma Aligned(n: nat)
    ensures (n - n % BLOCK) % BLOCK == 0
  {
  }

  lemma PaddedDigest(c: Ctx, s: seq<octet>)
    requires Wf(c) && |s| % BLOCK == 0 && c.digest == HashBlocks(s)
    ensures PadCtx(c).digest ==
            HashBlocks(if c.index > 55 then (s + Closed(c, BLOCK)) + (Zeros(56) + LengthField(c))
                       else s + (Closed(c, 56) + LengthField(c)))
  {
    hide Compress, HashBlocks, LengthField, Closed, Zeros;
    if c.index > 55 {
      HashTwoMore(s, Closed(c, BLOCK), Zeros(56) + LengthField(c));
    } else {
      HashOneMore(s, Closed(c, 56) + LengthField(c));
    }
  }

  lemma HashTwoMore(s: seq<octet>, first: seq<octet>, last: seq<octet>)
    requires |s| % BLOCK == 0 && |first| == BLOCK && |last| == BLOCK
    ensures HashBlocks((s + first) + last) == Compress(Compress(HashBlocks(s), first), last)
  {
    hide Compress, HashBlocks;
    HashOneMore(s, first);
    HashOneMore(s + first, last);
  }

  /** The padded message is the hashed blocks followed by what SHA1PadMessage makes. */
  lemma PadIsClosing(c: Ctx, message: seq<octet>)
    requires Tracks(c, message) && 8 * |message| < M32 * M32 && LengthField(c) == LengthOctets(8 * |message|)
    ensures var s := message[..|message| - c.index];
            Pad(message) == if c.index > 55 then (s + Closed(c, BLOCK)) + (Zeros(56) + LengthField(c))
                            else s + (Closed(c, 56) + LengthField(c))
  {
    hide Compress, HashBlocks, Zeros, LengthField, LengthOctets;
    var start := |message| - c.index;
    var k := ZeroCount(|message|);
    assert message == message[..start] + message[start..];
    if c.index > 55 {
      ZerosInTwoBlocks(|message|, c.index);
      ZerosSplit(63 - c.index, 56);
      assert Zeros(k) == Zeros(63 - c.index) + Zeros(56);
    } else {
      ZerosInOneBlock(|message|, c.index);
    }
  }

  lemma ZerosInOneBlock(n: nat, i: nat)
    requires i == n % BLOCK && i <= 55
    ensures ZeroCount(n) == 55 - i
  {
  }

  lemma ZerosInTwoBlocks(n: nat, i: nat)
    requires i == n % BLOCK && i > 55
    ensures ZeroCount(n) == 119 - i
  {
  }

  lemma ZerosSplit(a: nat, b: nat)
    ensures Zeros(a + b) == Zeros(a) + Zeros(b)
  {
  }

  lemma HashOneMore(s: seq<octet>, block: seq<octet>)
    requires |s| % BLOCK == 0 && |block| == BLOCK
    ensures HashBlocks(s + block) == Compress(HashBlocks(s), block)
  {
    hide Compress;
    var m := s + block;
    assert m[..|m| - BLOCK] == s && m[|m| - BLOCK..] == block;
  }

  // ----- whole uses -----

  function InputAll(c: Ctx, chunks: seq<seq<octet>>): (r: Ctx)
    requires Wf(c)
    ensures Wf(r)
  {
    if chunks == [] then c else InputCtx(InputAll(c, chunks[..|chunks| - 1]), chunks[|chunks| - 1])
  }

  function Concat(chunks: seq<seq<octet>>): seq<octet>
  {
    if chunks == [] then [] else Concat(chunks[..|chunks| - 1]) + chunks[|chunks| - 1]
  }

  lemma {:induction false} InputAllIsInput(c: Ctx, chunks: seq<seq<octet>>)
    requires Wf(c)
    ensures InputAll(c, chunks) == InputCtx(c, Concat(chunks))
  {
    hide InputCtx;
    if chunks == [] {
      assert InputCtx(c, []) == c by { InputNothing(c); }
    } else {
      var n := |chunks| - 1;
      InputAllIsInput(c, chunks[..n]);
      InputConcat(c, Concat(chunks[..n]), chunks[n]);
    }
  }

  lemma InputNothing(c: Ctx)
    requires Wf(c)
    ensures InputCtx(c, []) == c
  {
  }

  /** Reset, then any calls of Input that total less than 2^61 octets, then Result: the digest of the
      concatenation, whatever the context held before. A second Result changes nothing. */
  lemma DigestIsSha1(block: seq<octet>, chunks: seq<seq<octet>>)
    requires |block| == BLOCK && 8 * |Concat(chunks)| < M32 * M32
    ensures var r := ResultCtx(InputAll(Fresh(block), chunks));
            && !r.corrupted && r.computed && r.digest == Sha1(Concat(chunks))
            && ResultCtx(r) == r
  {
    hide Feed, PadCtx, Sha1;
    var m := Concat(chunks);
    InputAllIsInput(Fresh(block), chunks);
    FreshTracks(block);
    FeedTracks(Fresh(block), [], m);
    assert [] + m == m;
    var t := InputCtx(Fresh(block), m);
    if m == [] {
      assert t == Fresh(block);
    }
    PaddingFollowsStandard(t, m);
    assert !PadCtx(t).corrupted by { PadKeepsFlags(t); }
  }

  lemma PadKeepsFlags(c: Ctx)
    requires Wf(c)
    ensures PadCtx(c).corrupted == c.corrupted && PadCtx(c).computed == c.computed
  {
  }

  /** Without a Result in between, the context becomes corrupted exactly when 2^64 bits are reached,
      and until then its length words count the bits and its index the octets of the open block. */
  lemma CorruptedIffTooLong(block: seq<octet>, chunks: seq<seq<octet>>)
    requires |block| == BLOCK
    ensures var t := InputAll(Fresh(block), chunks); var n := |Concat(chunks)|;
            && (t.corrupted <==> 8 * n >= M32 * M32)
            && (!t.corrupted ==> t.high * M32 + t.low == 8 * n && t.index == n % BLOCK)
  {
    hide Feed;
    var m := Concat(chunks);
    InputAllIsInput(Fresh(block), chunks);
    FreshTracks(block);
    FeedTracks(Fresh(block), [], m);
    assert [] + m == m;
  }

  // ----- any calls in any order -----

  datatype Call = Input(message: seq<octet>) | Result

  function AfterCall(c: Ctx, call: Call): (r: Ctx)
    requires Wf(c)
    ensures Wf(r)
  {
    if call.Input? then InputCtx(c, call.message) else ResultCtx(c)
  }

  function AfterCalls(c: Ctx, calls: seq<Call>): (r: Ctx)
    requires Wf(c)
    ensures Wf(r)
  {
    if calls == [] then c else AfterCall(AfterCalls(c, calls[..|calls| - 1]), calls[|calls| - 1])
  }

  predicate Finished(calls: seq<Call>)
  {
    Call.Result in calls
  }

  /** What was input before the first Result. */
  function Taken(calls: seq<Call>): seq<octet>
  {
    if calls == [] then []
    else
      var rest, last := calls[..|calls| - 1], calls[|calls| - 1];
      if Finished(rest) || last.Result? then Taken(rest) else Taken(rest) + last.message
  }

  /** Something was input after a Result. */
  predicate Late(calls: seq<Call>)
  {
    exists i, j :: 0 <= i < j < |calls| && calls[i].Result? && calls[j].Input? && calls[j].message != []
  }

  lemma LateStep(calls: seq<Call>)
    requires calls != []
    ensures var rest, last := calls[..|calls| - 1], calls[|calls| - 1];
            && (Finished(calls) <==> Finished(rest) || last.Result?)
            && (Late(calls) <==> Late(rest) || (Finished(rest) && last.Input? && last.message != []))
  {
    var n := |calls| - 1;
    var rest, last := calls[..n], calls[n];
    assert forall k :: 0 <= k < n ==> rest[k] == calls[k];
    if Late(calls) {
      var i, j :| 0 <= i < j < |calls| && calls[i].Result? && calls[j].Input? && calls[j].message != [];
      assert rest[i] == Call.Result;
      if j < n {
        assert rest[j].Input?;
      }
    }
    if Late(rest) {
      var i, j :| 0 <= i < j < n && rest[i].Result? && rest[j].Input? && rest[j].message != [];
      assert calls[i].Result? && calls[j].Input?;
    }
    if Finished(rest) {
      var i :| 0 <= i < n && rest[i] == Call.Result;
      assert calls[i].Result?;
    }
  }

  /** What the context is after the calls: corrupted, or finished with the digest of what was taken, or
      still taking. */
  ghost predicate Used(c: Ctx, calls: seq<Call>)
  {
    var m := Taken(calls);
    && Wf(c)
    && (c.corrupted <==> 8 * |m| >= M32 * M32 || Late(calls))
    && (!c.corrupted && !Finished(calls) ==> Tracks(c, m))
    && (!c.corrupted && Finished(calls) ==> c.computed && c.digest == Sha1(m))
  }

  lemma InputUsed(c: Ctx, calls: seq<Call>, message: seq<octet>)
    requires Used(c, calls)
    ensures Used(InputCtx(c, message), calls + [Call.Input(message)])
  {
    hide Feed, Sha1, Late, Finished;
    var more := calls + [Call.Input(message)];
    assert more[..|more| - 1] == calls && more[|more| - 1] == Call.Input(message);
    LateStep(more);
    var m := Taken(calls);
    if message == [] {
      assert m + message == m;
    } else if !c.corrupted && !Finished(calls) {
      FeedTracks(c, m, message);
    }
  }

  lemma ResultUsed(c: Ctx, calls: seq<Call>)
    requires Used(c, calls)
    ensures Used(ResultCtx(c), calls + [Call.Result])
  {
    hide Feed, PadCtx, Sha1, Late, Finished;
    var more := calls + [Call.Result];
    assert more[..|more| - 1] == calls && more[|more| - 1] == Call.Result;
    LateStep(more);
    if !c.corrupted && !Finished(calls) {
      PaddingFollowsStandard(c, Taken(calls));
      PadKeepsFlags(c);
    }
  }

  /** After a Reset and any calls of Input and Result in any order, the context is corrupted if and only
      if 2^64 bits were input before the first Result or something was input after it. Otherwise it
      holds the digest of what was input before the first Result, or, with no Result yet, is ready to
      take more. */
  lemma {:induction false} AnyUse(block: seq<octet>, calls: seq<Call>)
    requires |block| == BLOCK
    ensures Used(AfterCalls(Fresh(block), calls), calls)
  {
    hide Used, InputCtx, ResultCtx;
    if calls == [] {
      NothingUsed(block);
    } else {
      var rest, last := calls[..|calls| - 1], calls[|calls| - 1];
      AnyUse(block, rest);
      assert calls == rest + [last];
      if last.Input? {
        InputUsed(AfterCalls(Fresh(block), rest), rest, last.message);
      } else {
        ResultUsed(AfterCalls(Fresh(block), rest), rest);
      }
    }
  }

  lemma NothingUsed(block: seq<octet>)
    requires |block| == BLOCK
    ensures Used(Fresh(block), [])
  {
    FreshTracks(block);
  }

  /** Corruption is for good: no calls but Reset change the context any more. */
  lemma {:induction false} CorruptedForGood(c: Ctx, calls: seq<Call>)
    requires Wf(c) && c.corrupted
    ensures AfterCalls(c, calls) == c
  {
    if calls != [] {
      CorruptedForGood(c, calls[..|calls| - 1]);
    }
  }

  /** After a Result, a call of Input corrupts the context exactly when it brings something, and then no
      later calls of Input and Result change it any more. */
  lemma InputAfterResult(c: Ctx, message: seq<octet>, later: seq<Call>)
    requires Wf(c) && !c.corrupted
    ensures var r := InputCtx(ResultCtx(c), message);
            (r.corrupted <==> message != []) && (r.corrupted ==> AfterCalls(r, later) == r)
  {
    hide Feed, PadCtx;
    PadKeepsFlags(c);
    var r := InputCtx(ResultCtx(c), message);
    if r.corrupted {
      CorruptedForGood(r, later);
    }
  }

  // ----- the engine -----

  class Context {
    var digest: array<word>
    var lengthLow: nat
    var lengthHigh: nat
    var block: array<octet>
    var index: int
    var computed: bool
    var corrupted: bool

    ghost predicate Valid()
      reads this
    {
      digest.Length == 5 && block.Length == BLOCK && lengthLow < M32 && lengthHigh < M32 && 0 <= index <= BLOCK
    }

    ghost function State(): Ctx
      reads this, digest, block
      requires Valid()
    {
      Ctx(Five(digest[0], digest[1], digest[2], digest[3], digest[4]), lengthLow, lengthHigh, block[..], index,
          computed, corrupted)
    }

    /** An SHA1Context as the caller allocates it: its contents are arbitrary. */
    constructor ()
      ensures digest.Length == 5 && block.Length == BLOCK && fresh(digest) && fresh(block)
    {
      digest := new word[5];
      block := new octet[BLOCK];
    }

    /** SHA1Reset, on a context with any contents. */
    method Reset()
      requires digest.Length == 5 && block.Length == BLOCK
      modifies this, digest
      ensures Valid() && index < BLOCK && digest == old(digest) && block == old(block)
      ensures State() == Fresh(old(block[..]))
    {
      lengthLow, lengthHigh, index := 0, 0, 0;
      digest[0] := 0x67452301;
      digest[1] := 0xEFCDAB89;
      digest[2] := 0x98BADCFE;
      digest[3] := 0x10325476;
      digest[4] := 0xC3D2E1F0;
      computed, corrupted := false, false;
    }

    /** SHA1ProcessMessageBlock. */
    method ProcessMessageBlock()
      requires Valid()
      modifies this`index, digest
      ensures Valid()
      ensures State() == old(State()).(digest := Compress(old(State()).digest, old(block[..])), index := 0)
    {
      hide Rounds, W, Sum;
      var w := Schedule();
      var h := Five(digest[0], digest[1], digest[2], digest[3], digest[4]);
      var v := FourRounds(block[..], w, h);
      digest[0] := Sum(digest[0], v.a);
      digest[1] := Sum(digest[1], v.b);
      digest[2] := Sum(digest[2], v.c);
      digest[3] := Sum(digest[3], v.d);
      digest[4] := Sum(digest[4], v.e);
      index := 0;
    }

    /** The two loops that fill W. */
    method Schedule() returns (w: array<word>)
      requires Valid()
      ensures fresh(w) && w.Length == 80 && forall t :: 0 <= t < 80 ==> w[t] == W(block[..], t)
    {
      hide WordOf, Mix;
      w := new word[80];
      for t := 0 to 16
        invariant forall i :: 0 <= i < t ==> w[i] == W(block[..], i)
      {
        w[t] := LoadWord(block[t * 4], block[t * 4 + 1], block[t * 4 + 2], block[t * 4 + 3]);
      }
      for t := 16 to 80
        invariant forall i :: 0 <= i < t ==> w[i] == W(block[..], i)
      {
        w[t] := Mix(w[t - 3], w[t - 8], w[t - 14], w[t - 16]);
      }
    }

    /** The four assignments that build one of the first sixteen words. */
    static method LoadWord(b0: octet, b1: octet, b2: octet, b3: octet) returns (x: word)
      ensures x == WordOf(b0, b1, b2, b3)
    {
      x := b0 as word << 24;
      x := x | (b1 as word << 16);
      x := x | (b2 as word << 8);
      x := x | b3 as word;
    }

    /** The four loops over t. */
    static method FourRounds(ghost m: seq<octet>, w: array<word>, h: Five) returns (v: Five)
      requires |m| == BLOCK && w.Length == 80 && forall t :: 0 <= t < 80 ==> w[t] == W(m, t)
      ensures v == Rounds(h, m, 80)
    {
      hide W, Rotl5, Rotl30, Choose, Parity, Majority, Sum5;
      var a, b, c, d, e := h.a, h.b, h.c, h.d, h.e;
      for t := 0 to 20
        invariant Five(a, b, c, d, e) == Rounds(h, m, t)
      {
        var temp := Sum5(Rotl5(a), Choose(b, c, d), e, w[t], 0x5A827999);
        a, b, c, d, e := temp, a, Rotl30(b), c, d;
      }
      for t := 20 to 40
        invariant Five(a, b, c, d, e) == Rounds(h, m, t)
      {
        var temp := Sum5(Rotl5(a), Parity(b, c, d), e, w[t], 0x6ED9EBA1);
        a, b, c, d, e := temp, a, Rotl30(b), c, d;
      }
      for t := 40 to 60
        invariant Five(a, b, c, d, e) == Rounds(h, m, t)
      {
        var temp := Sum5(Rotl5(a), Majority(b, c, d), e, w[t], 0x8F1BBCDC);
        a, b, c, d, e := temp, a, Rotl30(b), c, d;
      }
      for t := 60 to 80
        invariant Five(a, b, c, d, e) == Rounds(h, m, t)
      {
        var temp := Sum5(Rotl5(a), Parity(b, c, d), e, w[t], 0xCA62C1D6);
        a, b, c, d, e := temp, a, Rotl30(b), c, d;
      }
      v := Five(a, b, c, d, e);
    }

    /** SHA1Input. */
    method Input(message: seq<octet>)
      requires Valid() && index < BLOCK && |message| < M32
      modifies this, digest, block
      ensures Valid() && index < BLOCK && digest == old(digest) && block == old(block)
      ensures State() == InputCtx(old(State()), message)
    {
      if |message| == 0 {
        return;
      }
      if computed || corrupted {
        corrupted := true;
        return;
      }
      var i := 0;
      while i < |message| && !corrupted
        invariant 0 <= i <= |message|
        invariant Valid() && index < BLOCK && digest == old(digest) && block == old(block)
        invariant Feed(State(), message[i..]) == Feed(old(State()), message)
        decreases |message| - i
      {
        assert message[i..][0] == message[i] && message[i..][1..] == message[i + 1..];
        InputOctet(message[i]);
        i := i + 1;
      }
      assert i == |message| ==> message[i..] == [];
    }

    /** The body of the loop of SHA1Input. */
    method InputOctet(b: octet)
      requires Valid() && index < BLOCK
      modifies this, digest, block
      ensures Valid() && index < BLOCK && digest == old(digest) && block == old(block)
      ensures State() == FeedOctet(old(State()), b)
    {
      block[index] := b;
      index := index + 1;
      lengthLow := (lengthLow + 8) % M32;
      if lengthLow == 0 {
        lengthHigh := (lengthHigh + 1) % M32;
        if lengthHigh == 0 {
          corrupted := true;
        }
      }
      assert block[..] == old(block[..])[old(index) := b];
      if index == 64 {
        ProcessMessageBlock();
      }
    }

    /** Zeros from the index up to limit. */
    method FillZeros(limit: nat)
      requires Valid() && index <= limit <= BLOCK
      modifies this`index, block
      ensures Valid() && index == limit
      ensures block[..] == old(block[..index]) + Zeros(limit - old(index)) + old(block[limit..])
    {
      while index < limit
        invariant Valid() && old(index) <= index <= limit
        invariant forall i :: 0 <= i < old(index) || index <= i < BLOCK ==> block[i] == old(block[i])
        invariant forall i :: old(index) <= i < index ==> block[i] == 0
      {
        block[index] := 0;
        index := index + 1;
      }
    }

    /** The 0x80 octet, then zeros up to limit. */
    method CloseBlock(limit: nat)
      requires Valid() && index < limit <= BLOCK
      modifies this`index, block
      ensures Valid() && index == limit
      ensures block[..] == Closed(old(State()), limit) + old(block[limit..])
    {
      block[index] := 0x80;
      index := index + 1;
      assert block[..index] == old(block[..index]) + [0x80];
      assert block[limit..] == old(block[limit..]);
      FillZeros(limit);
    }

    /** SHA1PadMessage. */
    method PadMessage()
      requires Valid() && index < BLOCK
      modifies this`index, digest, block
      ensures Valid() && index == 0
      ensures State() == PadCtx(old(State()))
    {
      hide Compress, Closed, Zeros, WordOctets;
      ghost var c := State();
      if index > 55 {
        CloseBlock(64);
        assert block[..] == Closed(c, BLOCK) by { assert old(block[64..]) == []; }
        ProcessMessageBlock();
        FillZeros(56);
        assert block[..56] == Zeros(56) by { assert block[..0] == []; }
      } else {
        CloseBlock(56);
        assert block[..56] == Closed(c, 56);
      }
      StoreLength();
      ProcessMessageBlock();
    }

    method StoreLength()
      requires Valid()
      modifies block
      ensures block[..] == old(block[..56]) + (WordOctets(lengthHigh) + WordOctets(lengthLow))
    {
      StoreWord(56, lengthHigh);
      StoreWord(60, lengthLow);
      assert block[..56] == old(block[..56]);
      assert block[56..60] == WordOctets(lengthHigh);
      assert block[..] == block[..56] + (block[56..60] + block[60..64]);
    }

    /** Four of the eight assignments that store the length. */
    method StoreWord(at: nat, x: nat)
      requires at + 4 <= block.Length && x < M32
      modifies block
      ensures block[at..at + 4] == WordOctets(x)
      ensures forall i :: 0 <= i < block.Length && !(at <= i < at + 4) ==> block[i] == old(block[i])
    {
      block[at] := (x / 0x100_0000) as octet;
      block[at + 1] := (x / 0x1_0000 % 0x100) as octet;
      block[at + 2] := (x / 0x100 % 0x100) as octet;
      block[at + 3] := (x % 0x100) as octet;
    }

    /** SHA1Result. */
    method Result() returns (ok: bool)
      requires Valid() && index < BLOCK
      modifies this, digest, block
      ensures Valid() && index < BLOCK && digest == old(digest) && block == old(block)
      ensures ok == !old(corrupted)
      ensures State() == ResultCtx(old(State()))
    {
      if corrupted {
        return false;
      }
      if !computed {
        PadMessage();
        computed := true;
      }
      return true;
    }
  }
}
