/** The first example of Appendix A of FIPS PUB 180-1. The digest of "abc" fixes the constants, functions
    and rotations of Sha1Spec. It is computed eight steps at a time, from the words W(t) and the values of A to E after
    every eighth step. */
module Sha1Vector {
  import opened Sha1Spec
  import Engine = Sha1

  const ABC: seq<octet> := [0x61, 0x62, 0x63]

  /** Its one block. */
  function Block(): (s: seq<octet>)
    ensures |s| == BLOCK
  {
    ABC + [0x80] + Zeros(59) + [0x18]
  }

  datatype Row = Row(w0: word, w1: word, w2: word, w3: word, w4: word, w5: word, w6: word, w7: word)

  const R0 := Row(0x61626380, 0x00000000, 0x00000000, 0x00000000, 0x00000000, 0x00000000, 0x00000000, 0x00000000)
  const R1 := Row(0x00000000, 0x00000000, 0x00000000, 0x00000000, 0x00000000, 0x00000000, 0x00000000, 0x00000018)
  const R2 := Row(0xC2C4C700, 0x00000000, 0x00000030, 0x85898E01, 0x00000000, 0x00000060, 0x0B131C03, 0x00000030)
  const R3 := Row(0x85898EC1, 0x16263806, 0x00000000, 0x00000180, 0x2C4C700C, 0x000000F0, 0x93AFB507, 0x5898E048)
  const R4 := Row(0x8E9A9202, 0x00000600, 0xB131C0F0, 0x16263BC6, 0x4EBED41E, 0x626380A1, 0x16263806, 0x000018C0)
  const R5 := Row(0xD2E138C4, 0x00000F00, 0x3AFB5079, 0x898E04E5, 0xE2BA3C2B, 0x000060C0, 0x053A37CD, 0x74458547)
  const R6 := Row(0xDA9415ED, 0x26380A16, 0x626383A1, 0x4EBF54DE, 0x3835B44B, 0x0000F600, 0x1E84C7A3, 0x98E04D98)
  const R7 := Row(0x651D16A0, 0x62658CA1, 0x458544D6, 0x44584CB7, 0x7BA06619, 0x6380AEA2, 0x0AE55269, 0x627B49A1)
  const R8 := Row(0x7CD45C9D, 0x000F0000, 0xFB50753A, 0xEC6765E8, 0xBA3C2BE2, 0x0060C000, 0x3A37CD05, 0x458546F4)
  const R9 := Row(0xB8599DD6, 0x380A1A26, 0x01E02203, 0xE7CC3456, 0xE6E60B69, 0x00F60A00, 0x5795EF4F, 0x822E0879)

  const S0 := Five(0x67452301, 0xEFCDAB89, 0x98BADCFE, 0x10325476, 0xC3D2E1F0)
  const S1 := Five(0x9E8C07D4, 0x993E30C1, 0x0FF1F290, 0xB3F52677, 0xF3763846)
  const S2 := Five(0x20BDD62F, 0x196BEE77, 0x644A3DA5, 0x1181ED99, 0x18C623F9)
  const S3 := Five(0xD541F12D, 0x21283486, 0x0CE88EFF, 0x868DEC32, 0x7F67875F)
  const S4 := Five(0x3B845D33, 0x1267B407, 0x717EEBD7, 0xA0DC2D4B, 0xD2AA1365)
  const S5 := Five(0x32DE1CBA, 0x4C986405, 0xF718E5CF, 0x03D447F6, 0xF72EEC32)
  const S6 := Five(0xBEAD02CA, 0xA01B846C, 0x8714787C, 0x503CA382, 0xFB86C6AB)
  const S7 := Five(0x5E6456AF, 0x7B71F76D, 0x09FA7C76, 0x792410DB, 0x8E11EB59)
  const S8 := Five(0x6B61C9E1, 0xB66C020B, 0x9523272C, 0xF5D5B051, 0x8FD4B796)
  const S9 := Five(0x39859DE7, 0xC199F8C7, 0x8FC96230, 0x125C24F0, 0xDE37534A)
  const S10 := Five(0x42541B35, 0x5738D5E1, 0x21834873, 0x681E6DF6, 0xD8FDF6AD)

  /** r holds the eight words of a block from t on. */
  predicate Holds(b: seq<octet>, t: nat, r: Row)
    requires |b| == BLOCK
  {
    && W(b, t) == r.w0 && W(b, t + 1) == r.w1 && W(b, t + 2) == r.w2 && W(b, t + 3) == r.w3
    && W(b, t + 4) == r.w4 && W(b, t + 5) == r.w5 && W(b, t + 6) == r.w6 && W(b, t + 7) == r.w7
  }

  /** r is the row that step b of section 7 makes of the two before it. */
  predicate Follows(p: Row, q: Row, r: Row)
  {
    && r.w0 == Mix(q.w5, q.w0, p.w2, p.w0) && r.w1 == Mix(q.w6, q.w1, p.w3, p.w1)
    && r.w2 == Mix(q.w7, q.w2, p.w4, p.w2) && r.w3 == Mix(r.w0, q.w3, p.w5, p.w3)
    && r.w4 == Mix(r.w1, q.w4, p.w6, p.w4) && r.w5 == Mix(r.w2, q.w5, p.w7, p.w5)
    && r.w6 == Mix(r.w3, q.w6, q.w0, p.w6) && r.w7 == Mix(r.w4, q.w7, q.w1, p.w7)
  }

  /** Eight steps. */
  function Eight(v: Five, t: nat, r: Row): Five
  {
    var u := Round(Round(Round(Round(v, t, r.w0), t + 1, r.w1), t + 2, r.w2), t + 3, r.w3);
    Round(Round(Round(Round(u, t + 4, r.w4), t + 5, r.w5), t + 6, r.w6), t + 7, r.w7)
  }

  lemma Mixed(b: seq<octet>, t: nat)
    requires |b| == BLOCK && t >= 16
    ensures W(b, t) == Mix(W(b, t - 3), W(b, t - 8), W(b, t - 14), W(b, t - 16))
  {
  }

  lemma OneMore(h: Five, b: seq<octet>, t: nat)
    requires |b| == BLOCK
    ensures Rounds(h, b, t + 1) == Round(Rounds(h, b, t), t, W(b, t))
  {
  }

  lemma NextRow(b: seq<octet>, t: nat, p: Row, q: Row, r: Row)
    requires |b| == BLOCK && Holds(b, t, p) && Holds(b, t + 8, q) && Follows(p, q, r)
    ensures Holds(b, t + 16, r)
  {
    hide W, Mix;
    Mixed(b, t + 16);
    Mixed(b, t + 17);
    Mixed(b, t + 18);
    Mixed(b, t + 19);
    Mixed(b, t + 20);
    Mixed(b, t + 21);
    Mixed(b, t + 22);
    Mixed(b, t + 23);
  }

  lemma EightMore(h: Five, b: seq<octet>, t: nat, r: Row)
    requires |b| == BLOCK && Holds(b, t, r)
    ensures Rounds(h, b, t + 8) == Eight(Rounds(h, b, t), t, r)
  {
    hide W, Rounds, Round;
    OneMore(h, b, t);
    OneMore(h, b, t + 1);
    OneMore(h, b, t + 2);
    OneMore(h, b, t + 3);
    OneMore(h, b, t + 4);
    OneMore(h, b, t + 5);
    OneMore(h, b, t + 6);
    OneMore(h, b, t + 7);
  }

  /** Rows that follow each other from the first two of a block on are the rows of the block, and states
      eight steps apart are the states after those steps. */
  lemma {:induction false} Tables(b: seq<octet>, rows: seq<Row>, states: seq<Five>, n: nat)
    requires |b| == BLOCK && 2 <= |rows| < |states| && n < |rows|
    requires Holds(b, 0, rows[0]) && Holds(b, 8, rows[1])
    requires forall k :: 0 <= k < |rows| - 2 ==> Follows(rows[k], rows[k + 1], rows[k + 2])
    requires forall k :: 0 <= k < |rows| ==> Eight(states[k], 8 * k, rows[k]) == states[k + 1]
    ensures Holds(b, 8 * n, rows[n]) && Rounds(states[0], b, 8 * n + 8) == states[n + 1]
  {
    hide W, Eight, Follows, Holds, Rounds;
    if n > 0 {
      Tables(b, rows, states, n - 1);
    } else {
      assert Rounds(states[0], b, 0) == states[0] by { NoneYet(states[0], b); }
    }
    if n > 1 {
      Tables(b, rows, states, n - 2);
      assert Follows(rows[n - 2], rows[n - 1], rows[n]);
      NextRow(b, 8 * (n - 2), rows[n - 2], rows[n - 1], rows[n]);
    }
    EightMore(states[0], b, 8 * n, rows[n]);
  }

  lemma NoneYet(h: Five, b: seq<octet>)
    requires |b| == BLOCK
    ensures Rounds(h, b, 0) == h
  {
  }

  lemma RowsFollow()
    ensures Follows(R0, R1, R2) && Follows(R1, R2, R3) && Follows(R2, R3, R4) && Follows(R3, R4, R5)
    ensures Follows(R4, R5, R6) && Follows(R5, R6, R7) && Follows(R6, R7, R8) && Follows(R7, R8, R9)
  {
  }

  lemma StepsTo32()
    ensures Eight(S0, 0, R0) == S1 && Eight(S1, 8, R1) == S2 && Eight(S2, 16, R2) == S3 && Eight(S3, 24, R3) == S4
  {
  }

  lemma StepsTo56()
    ensures Eight(S4, 32, R4) == S5 && Eight(S5, 40, R5) == S6 && Eight(S6, 48, R6) == S7
  {
  }

  lemma StepsTo80()
    ensures Eight(S7, 56, R7) == S8 && Eight(S8, 64, R8) == S9 && Eight(S9, 72, R9) == S10
  {
  }

  lemma BlockWords()
    ensures forall k :: 0 <= k < 16 ==> W(Block(), k) == if k == 0 then 0x61626380 else if k == 15 then 0x18 else 0
  {
    FourWords(0);
    FourWords(4);
    FourWords(8);
    FourWords(12);
    hide W, Block;
  }

  lemma FirstRows(b: seq<octet>)
    requires |b| == BLOCK
    requires forall k :: 0 <= k < 16 ==> W(b, k) == if k == 0 then 0x61626380 else if k == 15 then 0x18 else 0
    ensures Holds(b, 0, R0) && Holds(b, 8, R1)
  {
    hide W;
  }

  lemma FourWords(t: nat)
    requires t <= 12
    ensures forall k :: t <= k < t + 4 ==> W(Block(), k) == if k == 0 then 0x61626380 else if k == 15 then 0x18 else 0
  {
  }

  lemma BlockSteps()
    ensures Rounds(S0, Block(), 80) == S10
  {
    hide W, Rounds, Holds, Follows, Eight, Block;
    var rows := [R0, R1, R2, R3, R4, R5, R6, R7, R8, R9];
    var states := [S0, S1, S2, S3, S4, S5, S6, S7, S8, S9, S10];
    RowsFollow();
    StepsTo32();
    StepsTo56();
    StepsTo80();
    BlockWords();
    FirstRows(Block());
    Tables(Block(), rows, states, 9);
  }

  lemma LengthIs24()
    ensures LengthOctets(24) == Zeros(7) + [0x18]
  {
    ZeroOctets();
    OctetsOf24();
    hide WordOctets;
  }

  lemma ZeroOctets()
    ensures WordOctets(0) == Zeros(4)
  {
  }

  lemma OctetsOf24()
    ensures WordOctets(24) == Zeros(3) + [0x18]
  {
    assert WordOctets(24) == [0, 0, 0, 0x18];
  }

  lemma PaddedIsBlock()
    ensures Pad(ABC) == Block()
  {
    LengthIs24();
    hide LengthOctets;
    assert Zeros(52) + (Zeros(7) + [0x18]) == Zeros(59) + [0x18];
  }

  /** The digest of "abc". */
  lemma DigestOfAbc()
    ensures Sha1(ABC) == Five(0xA9993E36, 0x4706816A, 0xBA3E2571, 0x7850C26C, 0x9CD0D89D)
  {
    hide Rounds, Block;
    BlockSteps();
    PaddedIsBlock();
    OneBlock(Block());
  }

  /** So the engine computes it, in however many pieces the message comes. */
  lemma EngineOnAbc(block: seq<octet>, chunks: seq<seq<octet>>)
    requires |block| == BLOCK && Engine.Concat(chunks) == ABC
    ensures Engine.ResultCtx(Engine.InputAll(Engine.Fresh(block), chunks)).digest ==
            Five(0xA9993E36, 0x4706816A, 0xBA3E2571, 0x7850C26C, 0x9CD0D89D)
  {
    hide Sha1, Engine.ResultCtx, Engine.InputAll;
    Engine.DigestIsSha1(block, chunks);
    DigestOfAbc();
  }

  lemma OneBlock(s: seq<octet>)
    requires |s| == BLOCK
    ensures HashBlocks(s) == Compress(H0, s)
  {
    assert s[..0] == [] && s[0..] == s;
  }
}
