/** What the functions of `Sha1Spec` compute: the meaning of its shifts and constants, the recurrences of its words
    and registers, and the example of appendix A of FIPS 180-1, the digest of "abc", step by step. */
module Sha1Example {
  import opened Numerals
  import opened Sha1Spec

  // ---------- operations and constants ----------

  lemma ShiftsAreCircular(x: bv32)
    ensures WORDS.shift1(x) == x.RotateLeft(1) && WORDS.shift5(x) == x.RotateLeft(5) && WORDS.shift30(x) == x.RotateLeft(30)
  {
  }

  /** The greatest integer whose square is at most `n` times 2^60: 2^30 times the square root of `n`. */
  ghost predicate IsScaledRoot(k: nat, n: nat)
  {
    k * k <= n * 0x1000_0000_0000_0000 < (k + 1) * (k + 1)
  }

  lemma ConstantsAreRoots()
    ensures WORDS.k0 == 0x5A827999 && IsScaledRoot(0x5A827999, 2)
    ensures WORDS.k1 == 0x6ED9EBA1 && IsScaledRoot(0x6ED9EBA1, 3)
    ensures WORDS.k2 == 0x8F1BBCDC && IsScaledRoot(0x8F1BBCDC, 5)
    ensures WORDS.k3 == 0xCA62C1D6 && IsScaledRoot(0xCA62C1D6, 10)
  {
  }

  // ---------- recurrences ----------

  /** The words after the first sixteen follow from those before them. */
  lemma {:induction false} WordsRecur<W>(u: Alu<W>, block: seq<Octet>, n: nat, t: nat)
    requires |block| == BLOCK && t < n <= 80
    ensures var w := Schedule(u, block, n);
            w[t] == if t < 16 then u.word(block[4 * t], block[4 * t + 1], block[4 * t + 2], block[4 * t + 3])
                    else u.shift1(u.xor(u.xor(u.xor(w[t - 3], w[t - 8]), w[t - 14]), w[t - 16]))
  {
    if t < n - 1 {
      WordsRecur(u, block, n - 1, t);
    }
  }

  /** The first register after round `t`, from its last five values. */
  ghost function NextRegister<W>(u: Alu<W>, t: nat, a: W, b: W, c: W, d: W, e: W, w: W): (x: W)
    requires t < 80
  {
    u.plus(u.plus(u.plus(u.plus(u.shift5(a), F(u, t, b, u.shift30(c), u.shift30(d))), u.shift30(e)), w), K(u, t))
  }

  ghost predicate Recurs<W>(u: Alu<W>, w: seq<W>, r: seq<W>, t: nat)
    requires |w| == 80 && |r| == 85 && t < 80
  {
    r[t + 5] == NextRegister(u, t, r[t + 4], r[t + 3], r[t + 2], r[t + 1], r[t], w[t])
  }

  /** Five successive values of the first register give all five registers. */
  ghost function Registers<W>(u: Alu<W>, r: seq<W>, t: nat): (v: Five<W>)
    requires |r| == 85 && t <= 80
  {
    Five(r[t + 4], r[t + 3], u.shift30(r[t + 2]), u.shift30(r[t + 1]), u.shift30(r[t]))
  }

  /** The eighty rounds run one recurrence: each new register from the last five. */
  lemma {:induction false} RegistersRecur<W>(u: Alu<W>, w: seq<W>, r: seq<W>, t: nat)
    requires |w| == 80 && |r| == 85 && t <= 80 && forall k: nat :: k < t ==> Recurs(u, w, r, k)
    ensures Rounds(u, w, Registers(u, r, 0), t) == Registers(u, r, t)
  {
    if t > 0 {
      RegistersRecur(u, w, r, t - 1);
      assert Recurs(u, w, r, t - 1);
    }
  }

  // ---------- one round on 32-bit words ----------

  function Choose(t: nat, b: bv32, c: bv32, d: bv32): bv32
    requires t < 80
  {
    if t < 20 then Or(And(b, c), And(Not(b), d))
    else if 40 <= t < 60 then Or(Or(And(b, c), And(b, d)), And(c, d))
    else Xor(Xor(b, c), d)
  }

  function Constant(t: nat): bv32
  {
    if t < 20 then 0x5A827999 else if t < 40 then 0x6ED9EBA1 else if t < 60 then 0x8F1BBCDC else 0xCA62C1D6
  }

  function Step(t: nat, w: bv32, v: Five<bv32>): Five<bv32>
    requires t < 80
  {
    Five(Plus(Plus(Plus(Plus(Shift5(v.a), Choose(t, v.b, v.c, v.d)), v.e), w), Constant(t)), v.a, Shift30(v.b), v.c, v.d)
  }

  lemma ChooseIsF(t: nat, b: bv32, c: bv32, d: bv32)
    requires t < 80
    ensures F(WORDS, t, b, c, d) == Choose(t, b, c, d) && K(WORDS, t) == Constant(t)
  {
  }

  lemma StepIsRound(w: seq<bv32>, t: nat)
    requires |w| == 80 && t < 80
    ensures Rounds(WORDS, w, INITIAL, t + 1) == Step(t, w[t], Rounds(WORDS, w, INITIAL, t))
  {
    var v := Rounds(WORDS, w, INITIAL, t);
    ChooseIsF(t, v.b, v.c, v.d);
  }

  lemma EightSteps(w: seq<bv32>, t: nat)
    requires |w| == 80 && t <= 72
    ensures Rounds(WORDS, w, INITIAL, t + 8) ==
            Step(t + 7, w[t + 7], Step(t + 6, w[t + 6], Step(t + 5, w[t + 5], Step(t + 4, w[t + 4],
            Step(t + 3, w[t + 3], Step(t + 2, w[t + 2], Step(t + 1, w[t + 1], Step(t, w[t], Rounds(WORDS, w, INITIAL, t)))))))))
  {
    StepIsRound(w, t);
    StepIsRound(w, t + 1);
    StepIsRound(w, t + 2);
    StepIsRound(w, t + 3);
    StepIsRound(w, t + 4);
    StepIsRound(w, t + 5);
    StepIsRound(w, t + 6);
    StepIsRound(w, t + 7);
  }

  // ---------- the example: its words ----------

  ghost predicate Words0(w: seq<bv32>)
    requires |w| == 80
  {
    && w[0] == 0x61626380 && w[1] == 0x00000000 && w[2] == 0x00000000 && w[3] == 0x00000000
    && w[4] == 0x00000000 && w[5] == 0x00000000 && w[6] == 0x00000000 && w[7] == 0x00000000
  }

  ghost predicate Words8(w: seq<bv32>)
    requires |w| == 80
  {
    && w[8] == 0x00000000 && w[9] == 0x00000000 && w[10] == 0x00000000 && w[11] == 0x00000000
    && w[12] == 0x00000000 && w[13] == 0x00000000 && w[14] == 0x00000000 && w[15] == 0x00000018
  }

  ghost predicate Words16(w: seq<bv32>)
    requires |w| == 80
  {
    && w[16] == 0xC2C4C700 && w[17] == 0x00000000 && w[18] == 0x00000030 && w[19] == 0x85898E01
    && w[20] == 0x00000000 && w[21] == 0x00000060 && w[22] == 0x0B131C03 && w[23] == 0x00000030
  }

  ghost predicate Words24(w: seq<bv32>)
    requires |w| == 80
  {
    && w[24] == 0x85898EC1 && w[25] == 0x16263806 && w[26] == 0x00000000 && w[27] == 0x00000180
    && w[28] == 0x2C4C700C && w[29] == 0x000000F0 && w[30] == 0x93AFB507 && w[31] == 0x5898E048
  }

  ghost predicate Words32(w: seq<bv32>)
    requires |w| == 80
  {
    && w[32] == 0x8E9A9202 && w[33] == 0x00000600 && w[34] == 0xB131C0F0 && w[35] == 0x16263BC6
    && w[36] == 0x4EBED41E && w[37] == 0x626380A1 && w[38] == 0x16263806 && w[39] == 0x000018C0
  }

  ghost predicate Words40(w: seq<bv32>)
    requires |w| == 80
  {
    && w[40] == 0xD2E138C4 && w[41] == 0x00000F00 && w[42] == 0x3AFB5079 && w[43] == 0x898E04E5
    && w[44] == 0xE2BA3C2B && w[45] == 0x000060C0 && w[46] == 0x053A37CD && w[47] == 0x74458547
  }

  ghost predicate Words48(w: seq<bv32>)
    requires |w| == 80
  {
    && w[48] == 0xDA9415ED && w[49] == 0x26380A16 && w[50] == 0x626383A1 && w[51] == 0x4EBF54DE
    && w[52] == 0x3835B44B && w[53] == 0x0000F600 && w[54] == 0x1E84C7A3 && w[55] == 0x98E04D98
  }

  ghost predicate Words56(w: seq<bv32>)
    requires |w| == 80
  {
    && w[56] == 0x651D16A0 && w[57] == 0x62658CA1 && w[58] == 0x458544D6 && w[59] == 0x44584CB7
    && w[60] == 0x7BA06619 && w[61] == 0x6380AEA2 && w[62] == 0x0AE55269 && w[63] == 0x627B49A1
  }

  ghost predicate Words64(w: seq<bv32>)
    requires |w| == 80
  {
    && w[64] == 0x7CD45C9D && w[65] == 0x000F0000 && w[66] == 0xFB50753A && w[67] == 0xEC6765E8
    && w[68] == 0xBA3C2BE2 && w[69] == 0x0060C000 && w[70] == 0x3A37CD05 && w[71] == 0x458546F4
  }

  ghost predicate Words72(w: seq<bv32>)
    requires |w| == 80
  {
    && w[72] == 0xB8599DD6 && w[73] == 0x380A1A26 && w[74] == 0x01E02203 && w[75] == 0xE7CC3456
    && w[76] == 0xE6E60B69 && w[77] == 0x00F60A00 && w[78] == 0x5795EF4F && w[79] == 0x822E0879
  }

  ghost predicate Follows(w: seq<bv32>, t: nat)
    requires |w| == 80 && 16 <= t < 80
  {
    w[t] == Shift1(Xor(Xor(Xor(w[t - 3], w[t - 8]), w[t - 14]), w[t - 16]))
  }

  ghost predicate AllFollow(w: seq<bv32>)
  {
    |w| == 80 && forall t: nat :: 16 <= t < 80 ==> Follows(w, t)
  }

  lemma Expand16(w: seq<bv32>)
    requires AllFollow(w) && Words0(w) && Words8(w)
    ensures Words16(w)
  {
    assert Follows(w, 16) && Follows(w, 17) && Follows(w, 18) && Follows(w, 19);
    assert Follows(w, 20) && Follows(w, 21) && Follows(w, 22) && Follows(w, 23);
  }

  lemma Expand24(w: seq<bv32>)
    requires AllFollow(w) && Words8(w) && Words16(w)
    ensures Words24(w)
  {
    assert Follows(w, 24) && Follows(w, 25) && Follows(w, 26) && Follows(w, 27);
    assert Follows(w, 28) && Follows(w, 29) && Follows(w, 30) && Follows(w, 31);
  }

  lemma Expand32(w: seq<bv32>)
    requires AllFollow(w) && Words16(w) && Words24(w)
    ensures Words32(w)
  {
    assert Follows(w, 32) && Follows(w, 33) && Follows(w, 34) && Follows(w, 35);
    assert Follows(w, 36) && Follows(w, 37) && Follows(w, 38) && Follows(w, 39);
  }

  lemma Expand40(w: seq<bv32>)
    requires AllFollow(w) && Words24(w) && Words32(w)
    ensures Words40(w)
  {
    assert Follows(w, 40) && Follows(w, 41) && Follows(w, 42) && Follows(w, 43);
    assert Follows(w, 44) && Follows(w, 45) && Follows(w, 46) && Follows(w, 47);
  }

  lemma Expand48(w: seq<bv32>)
    requires AllFollow(w) && Words32(w) && Words40(w)
    ensures Words48(w)
  {
    assert Follows(w, 48) && Follows(w, 49) && Follows(w, 50) && Follows(w, 51);
    assert Follows(w, 52) && Follows(w, 53) && Follows(w, 54) && Follows(w, 55);
  }

  lemma Expand56(w: seq<bv32>)
    requires AllFollow(w) && Words40(w) && Words48(w)
    ensures Words56(w)
  {
    assert Follows(w, 56) && Follows(w, 57) && Follows(w, 58) && Follows(w, 59);
    assert Follows(w, 60) && Follows(w, 61) && Follows(w, 62) && Follows(w, 63);
  }

  lemma Expand64(w: seq<bv32>)
    requires AllFollow(w) && Words48(w) && Words56(w)
    ensures Words64(w)
  {
    assert Follows(w, 64) && Follows(w, 65) && Follows(w, 66) && Follows(w, 67);
    assert Follows(w, 68) && Follows(w, 69) && Follows(w, 70) && Follows(w, 71);
  }

  lemma Expand72(w: seq<bv32>)
    requires AllFollow(w) && Words56(w) && Words64(w)
    ensures Words72(w)
  {
    assert Follows(w, 72) && Follows(w, 73) && Follows(w, 74) && Follows(w, 75);
    assert Follows(w, 76) && Follows(w, 77) && Follows(w, 78) && Follows(w, 79);
  }

  // ---------- the example: its registers ----------

  const V0: Five<bv32> := Five(0x67452301, 0xEFCDAB89, 0x98BADCFE, 0x10325476, 0xC3D2E1F0)
  const V8: Five<bv32> := Five(0x9E8C07D4, 0x993E30C1, 0x0FF1F290, 0xB3F52677, 0xF3763846)
  const V16: Five<bv32> := Five(0x20BDD62F, 0x196BEE77, 0x644A3DA5, 0x1181ED99, 0x18C623F9)
  const V24: Five<bv32> := Five(0xD541F12D, 0x21283486, 0x0CE88EFF, 0x868DEC32, 0x7F67875F)
  const V32: Five<bv32> := Five(0x3B845D33, 0x1267B407, 0x717EEBD7, 0xA0DC2D4B, 0xD2AA1365)
  const V40: Five<bv32> := Five(0x32DE1CBA, 0x4C986405, 0xF718E5CF, 0x03D447F6, 0xF72EEC32)
  const V48: Five<bv32> := Five(0xBEAD02CA, 0xA01B846C, 0x8714787C, 0x503CA382, 0xFB86C6AB)
  const V56: Five<bv32> := Five(0x5E6456AF, 0x7B71F76D, 0x09FA7C76, 0x792410DB, 0x8E11EB59)
  const V64: Five<bv32> := Five(0x6B61C9E1, 0xB66C020B, 0x9523272C, 0xF5D5B051, 0x8FD4B796)
  const V72: Five<bv32> := Five(0x39859DE7, 0xC199F8C7, 0x8FC96230, 0x125C24F0, 0xDE37534A)
  const V80: Five<bv32> := Five(0x42541B35, 0x5738D5E1, 0x21834873, 0x681E6DF6, 0xD8FDF6AD)

  lemma Rounds8(w: seq<bv32>)
    requires |w| == 80 && Words0(w) && Rounds(WORDS, w, INITIAL, 0) == V0
    ensures Rounds(WORDS, w, INITIAL, 8) == V8
  {
    EightSteps(w, 0);
  }

  lemma Rounds16(w: seq<bv32>)
    requires |w| == 80 && Words8(w) && Rounds(WORDS, w, INITIAL, 8) == V8
    ensures Rounds(WORDS, w, INITIAL, 16) == V16
  {
    EightSteps(w, 8);
  }

  lemma Rounds24(w: seq<bv32>)
    requires |w| == 80 && Words16(w) && Rounds(WORDS, w, INITIAL, 16) == V16
    ensures Rounds(WORDS, w, INITIAL, 24) == V24
  {
    EightSteps(w, 16);
  }

  lemma Rounds32(w: seq<bv32>)
    requires |w| == 80 && Words24(w) && Rounds(WORDS, w, INITIAL, 24) == V24
    ensures Rounds(WORDS, w, INITIAL, 32) == V32
  {
    EightSteps(w, 24);
  }

  lemma Rounds40(w: seq<bv32>)
    requires |w| == 80 && Words32(w) && Rounds(WORDS, w, INITIAL, 32) == V32
    ensures Rounds(WORDS, w, INITIAL, 40) == V40
  {
    EightSteps(w, 32);
  }

  lemma Rounds48(w: seq<bv32>)
    requires |w| == 80 && Words40(w) && Rounds(WORDS, w, INITIAL, 40) == V40
    ensures Rounds(WORDS, w, INITIAL, 48) == V48
  {
    EightSteps(w, 40);
  }

  lemma Rounds56(w: seq<bv32>)
    requires |w| == 80 && Words48(w) && Rounds(WORDS, w, INITIAL, 48) == V48
    ensures Rounds(WORDS, w, INITIAL, 56) == V56
  {
    EightSteps(w, 48);
  }

  lemma Rounds64(w: seq<bv32>)
    requires |w| == 80 && Words56(w) && Rounds(WORDS, w, INITIAL, 56) == V56
    ensures Rounds(WORDS, w, INITIAL, 64) == V64
  {
    EightSteps(w, 56);
  }

  lemma Rounds72(w: seq<bv32>)
    requires |w| == 80 && Words64(w) && Rounds(WORDS, w, INITIAL, 64) == V64
    ensures Rounds(WORDS, w, INITIAL, 72) == V72
  {
    EightSteps(w, 64);
  }

  lemma Rounds80(w: seq<bv32>)
    requires |w| == 80 && Words72(w) && Rounds(WORDS, w, INITIAL, 72) == V72
    ensures Rounds(WORDS, w, INITIAL, 80) == V80
  {
    EightSteps(w, 72);
  }

  // ---------- the example: its digest ----------

  const ABC: seq<Octet> := [0x61, 0x62, 0x63]

  /** The padded message is one block: the message, the marker, zeros, and a length of 24 bits. */
  lemma AbcPadded(i: nat)
    requires i < 64
    ensures |Pad(ABC)| == 64
    ensures Pad(ABC)[i] == if i < 3 then ABC[i] else if i == 3 then 0x80 else if i == 63 then 0x18 else 0
  {
    assert PadZeros(3) == 52;
    var head, tail := ABC + [0x80] + Zeros(52), LengthOctets(24);
    assert Pad(ABC) == head + tail && |head| == 56;
    assert tail == [0, 0, 0, 0, 0, 0, 0, 0x18];
  }

  lemma AbcWords(w: seq<bv32>)
    requires |Pad(ABC)| == BLOCK && w == Schedule(WORDS, Pad(ABC), 80)
    ensures AllFollow(w) && Words0(w) && Words8(w)
  {
    forall t: nat | 16 <= t < 80
      ensures Follows(w, t)
    {
      WordsRecur(WORDS, Pad(ABC), 80, t);
    }
    forall t: nat | t < 16
      ensures w[t] == if t == 0 then 0x61626380 else if t == 15 then 0x18 else 0
    {
      WordsRecur(WORDS, Pad(ABC), 80, t);
      AbcPadded(4 * t);
      AbcPadded(4 * t + 1);
      AbcPadded(4 * t + 2);
      AbcPadded(4 * t + 3);
      assert Join(0x61, 0x62, 0x63, 0x80) == 0x61626380 && Join(0, 0, 0, 0x18) == 0x18 && Join(0, 0, 0, 0) == 0;
    }
  }

  lemma AbcRounds(w: seq<bv32>)
    requires AllFollow(w) && Words0(w) && Words8(w)
    ensures Rounds(WORDS, w, INITIAL, 80) == V80
  {
    Expand16(w);
    Expand24(w);
    Expand32(w);
    Expand40(w);
    Expand48(w);
    Expand56(w);
    Expand64(w);
    Expand72(w);
    Rounds8(w);
    Rounds16(w);
    Rounds24(w);
    Rounds32(w);
    Rounds40(w);
    Rounds48(w);
    Rounds56(w);
    Rounds64(w);
    Rounds72(w);
    Rounds80(w);
  }

  /** The digest of "abc" is the one the standard publishes. */
  lemma AbcDigest()
    ensures Sha1(ABC) == Five(0xA9993E36, 0x4706816A, 0xBA3E2571, 0x7850C26C, 0x9CD0D89D)
  {
    AbcPadded(0);
    var block := Pad(ABC);
    assert block[..0] == [] && block[0..] == block;
    assert Fold(WORDS, INITIAL, block[..0]) == INITIAL;
    assert Sha1(ABC) == Compress(WORDS, INITIAL, block);
    var w := Schedule(WORDS, block, 80);
    AbcWords(w);
    AbcRounds(w);
  }
}
