/** The incremental SHA-1 of addons/nthash_AD_attribute: a context that takes the message in pieces. */
module Sha1Context {
  import opened Numerals
  import Sequences
  import opened Sha1Spec

  /** The first words are those of the block itself. */
  method CopyWords<W>(u: Alu<W>, block: array<Octet>, w: array<W>)
    requires block.Length == BLOCK && w.Length == 80
    modifies w
    ensures w[..16] == Schedule(u, block[..], 16)
  {
    for t := 0 to 16
      invariant w[..t] == Schedule(u, block[..], t)
    {
      w[t] := u.word(block[t * 4], block[t * 4 + 1], block[t * 4 + 2], block[t * 4 + 3]);
    }
  }

  /** The words W of one block. */
  method FillWords<W(0)>(u: Alu<W>, block: array<Octet>) returns (w: array<W>)
    requires block.Length == BLOCK
    ensures fresh(w) && w[..] == Schedule(u, block[..], 80)
  {
    w := new W[80];
    CopyWords(u, block, w);
    for t := 16 to 80
      invariant w[..t] == Schedule(u, block[..], t)
    {
      ghost var was := w[..t];
      assert was[t - 3] == w[t - 3] && was[t - 8] == w[t - 8] && was[t - 14] == w[t - 14] && was[t - 16] == w[t - 16];
      w[t] := u.shift1(u.xor(u.xor(u.xor(w[t - 3], w[t - 8]), w[t - 14]), w[t - 16]));
      assert w[..t + 1] == was + [w[t]];
    }
    assert w[..80] == w[..];
  }

  /** The four groups of twenty rounds. */
  method RunRounds<W>(u: Alu<W>, h: Five<W>, w: array<W>) returns (r: Five<W>)
    requires w.Length == 80
    ensures r == Rounds(u, w[..], h, 80)
  {
    var a, b, c, d, e := h.a, h.b, h.c, h.d, h.e;
    for t := 0 to 20
      invariant Five(a, b, c, d, e) == Rounds(u, w[..], h, t)
    {
      var temp := u.plus(u.plus(u.plus(u.plus(u.shift5(a), u.or(u.and(b, c), u.and(u.not(b), d))), e), w[t]), u.k0);
      e := d;
      d := c;
      c := u.shift30(b);
      b := a;
      a := temp;
    }
    for t := 20 to 40
      invariant Five(a, b, c, d, e) == Rounds(u, w[..], h, t)
    {
      var temp := u.plus(u.plus(u.plus(u.plus(u.shift5(a), u.xor(u.xor(b, c), d)), e), w[t]), u.k1);
      e := d;
      d := c;
      c := u.shift30(b);
      b := a;
      a := temp;
    }
    for t := 40 to 60
      invariant Five(a, b, c, d, e) == Rounds(u, w[..], h, t)
    {
      var temp := u.plus(u.plus(u.plus(u.plus(u.shift5(a), u.or(u.or(u.and(b, c), u.and(b, d)), u.and(c, d))), e), w[t]), u.k2);
      e := d;
      d := c;
      c := u.shift30(b);
      b := a;
      a := temp;
    }
    for t := 60 to 80
      invariant Five(a, b, c, d, e) == Rounds(u, w[..], h, t)
    {
      var temp := u.plus(u.plus(u.plus(u.plus(u.shift5(a), u.xor(u.xor(b, c), d)), e), w[t]), u.k3);
      e := d;
      d := c;
      c := u.shift30(b);
      b := a;
      a := temp;
    }
    r := Five(a, b, c, d, e);
  }

  class Context<W(0)> {
    const u: Alu<W>
    const initial: Five<W>
    var digest: Five<W>
    var lengthLow: nat
    var lengthHigh: nat
    const block: array<Octet>
    var blockIndex: nat
    var computed: bool
    var corrupted: bool
    /** The message taken so far. */
    ghost var accepted: seq<Octet>
    /** Its blocks that are in the digest already. */
    ghost var folded: seq<Octet>
    ghost var blocks: nat

    ghost predicate Folded()
      reads `digest, `folded, `blocks
    {
      |folded| == BLOCK * blocks && digest == Fold(u, initial, folded)
    }

    /** The folded blocks and the open block make up the message. */
    ghost predicate Tracks(m: seq<Octet>)
      reads `digest, `folded, `blocks, `blockIndex, block
    {
      block.Length == BLOCK && blockIndex <= BLOCK && Folded() && m == folded + block[..blockIndex]
    }

    /** The two length words hold the bit length of the message. */
    ghost predicate Counts(n: nat)
      reads `lengthLow, `lengthHigh
    {
      Joined(lengthHigh, lengthLow) == 8 * n < TWO_64 && lengthLow < TWO_32
    }

    ghost predicate Valid()
      reads this, block
    {
      && block.Length == BLOCK && blockIndex < BLOCK
      && (!corrupted && !computed ==> Tracks(accepted) && Counts(|accepted|))
      && (computed && !corrupted ==> 8 * |accepted| < TWO_64)
    }

    /** The digest is that of the padded message. */
    ghost predicate Finished()
      reads `digest, `accepted
    {
      digest == Fold(u, initial, Pad(accepted))
    }

    constructor (u: Alu<W>, initial: Five<W>)
      ensures this.u == u && this.initial == initial
      ensures Valid() && fresh(block) && accepted == [] && !computed && !corrupted
    {
      this.u, this.initial := u, initial;
      block := new Octet[64];
      digest, lengthLow, lengthHigh, blockIndex := initial, 0, 0, 0;
      computed, corrupted, accepted, folded, blocks := false, false, [], [], 0;
    }

    method Reset()
      requires block.Length == BLOCK
      modifies this
      ensures Valid() && accepted == [] && !computed && !corrupted
    {
      lengthLow, lengthHigh, blockIndex := 0, 0, 0;
      digest := initial;
      computed, corrupted, accepted, folded, blocks := false, false, [], [], 0;
    }

    method ProcessMessageBlock()
      requires block.Length == BLOCK
      modifies this`digest, this`blockIndex
      ensures digest == Compress(u, old(digest), old(block[..])) && blockIndex == 0
    {
      var w := FillWords(u, block);
      var v := RunRounds(u, digest, w);
      digest := Five(u.plus(digest.a, v.a), u.plus(digest.b, v.b), u.plus(digest.c, v.c),
                     u.plus(digest.d, v.d), u.plus(digest.e, v.e));
      blockIndex := 0;
    }

    /** Counts one more octet after `n`; the context is corrupted when the 64-bit count overflows. */
    method CountOctet(ghost n: nat)
      requires Counts(n)
      modifies this`lengthLow, this`lengthHigh, this`corrupted
      ensures 8 * (n + 1) < TWO_64 ==> Counts(n + 1) && corrupted == old(corrupted)
      ensures 8 * (n + 1) >= TWO_64 ==> corrupted
    {
      AddEight(lengthHigh, lengthLow, n);
      lengthLow := (lengthLow + 8) % TWO_32;
      if lengthLow == 0 {
        lengthHigh := (lengthHigh + 1) % TWO_32;
        if lengthHigh == 0 {
          corrupted := true;
        }
      }
    }

    method StoreOctet(o: Octet, ghost m: seq<Octet>)
      requires Tracks(m) && blockIndex < BLOCK
      modifies this`blockIndex, block
      ensures Tracks(m + [o]) && blockIndex == old(blockIndex) + 1
    {
      block[blockIndex] := o;
      blockIndex := blockIndex + 1;
      assert block[..blockIndex] == old(block[..blockIndex]) + [o];
    }

    method Flush(ghost m: seq<Octet>)
      requires Tracks(m)
      modifies this`digest, this`blockIndex, this`folded, this`blocks
      ensures Tracks(m) && blockIndex == if old(blockIndex) == BLOCK then 0 else old(blockIndex)
    {
      if blockIndex == 64 {
        ghost var b := block[..];
        assert block[..64] == b;
        FoldBlock(u, initial, folded, b);
        ProcessMessageBlock();
        folded, blocks := folded + b, blocks + 1;
      }
    }

    method TakeOctet(o: Octet, ghost m: seq<Octet>)
      requires Tracks(m) && blockIndex < BLOCK
      modifies this`digest, this`blockIndex, this`folded, this`blocks, block
      ensures Tracks(m + [o]) && blockIndex < BLOCK
    {
      StoreOctet(o, m);
      Flush(m + [o]);
    }

    /** Counts and takes one octet after the message `m`. */
    method CountAndTake(o: Octet, ghost m: seq<Octet>)
      requires Tracks(m) && blockIndex < BLOCK && Counts(|m|) && !corrupted
      modifies this`lengthLow, this`lengthHigh, this`corrupted, this`digest, this`blockIndex, this`folded, this`blocks, block
      ensures Tracks(m + [o]) && blockIndex < BLOCK
      ensures corrupted <==> 8 * (|m| + 1) >= TWO_64
      ensures !corrupted ==> Counts(|m| + 1)
    {
      CountOctet(|m|);
      TakeOctet(o, m);
    }

    /** What the loop of `Input` does each time round. */
    method InputOctet(o: Octet)
      requires Valid() && !computed && !corrupted
      modifies this, block
      ensures Valid() && !computed && accepted == old(accepted) + [o]
      ensures corrupted <==> 8 * |accepted| >= TWO_64
    {
      ghost var n := |accepted|;
      CountAndTake(o, accepted);
      accepted := accepted + [o];
      assert |accepted| == n + 1;
    }

    /** The loop of `Input`. */
    method InputOctets(m: seq<Octet>)
      requires Valid() && !computed && !corrupted
      modifies this, block
      ensures Valid() && !computed
      ensures corrupted <==> 8 * (|old(accepted)| + |m|) >= TWO_64
      ensures !corrupted ==> accepted == old(accepted) + m
    {
      ghost var before := accepted;
      assert before + m[..0] == before;
      var i := 0;
      while i < |m| && !corrupted
        invariant 0 <= i <= |m| && Valid() && !computed && accepted == before + m[..i]
        invariant corrupted <==> 8 * (|before| + i) >= TWO_64
      {
        Sequences.TakeSnoc(m, i + 1);
        Sequences.Assoc(before, m[..i], [m[i]]);
        InputOctet(m[i]);
        i := i + 1;
      }
      assert m[..|m|] == m;
    }

    method Input(m: seq<Octet>)
      requires Valid()
      modifies this, block
      ensures Valid() && computed == old(computed)
      ensures m == [] ==> corrupted == old(corrupted)
      ensures m != [] ==> (corrupted <==> old(computed) || old(corrupted) || 8 * (|old(accepted)| + |m|) >= TWO_64)
      ensures !computed && !corrupted ==> accepted == old(accepted) + m
      ensures old(computed) || old(corrupted) ==> digest == old(digest) && accepted == old(accepted)
    {
      if |m| == 0 {
        return;
      }
      if computed || corrupted {
        corrupted := true;
        return;
      }
      InputOctets(m);
    }

    method StoreZeros(limit: nat, ghost m: seq<Octet>)
      requires Tracks(m) && blockIndex <= limit <= BLOCK
      modifies this`blockIndex, block
      ensures Tracks(m + Zeros(limit - old(blockIndex))) && blockIndex == limit
    {
      ghost var z := 0;
      assert m == m + Zeros(0);
      while blockIndex < limit
        invariant blockIndex == old(blockIndex) + z <= limit
        invariant Tracks(m + Zeros(z))
      {
        StoreOctet(0, m + Zeros(z));
        assert m + Zeros(z) + [0] == m + Zeros(z + 1);
        z := z + 1;
      }
    }

    /** Writes a word over four octets of the block, most significant first. */
    method StoreWord(at: nat, n: nat)
      requires block.Length == BLOCK && at <= 60
      modifies block
      ensures block[..at + 4] == old(block[..at]) + WordOctets(n)
    {
      block[at] := OctetOf(n / 0x100_0000);
      block[at + 1] := OctetOf(n / 0x1_0000);
      block[at + 2] := OctetOf(n / 0x100);
      block[at + 3] := OctetOf(n);
    }

    /** Ends the padded message with the two length words and processes the last block. */
    method StoreLength(ghost m: seq<Octet>)
      requires Tracks(m) && blockIndex == 56
      modifies this`digest, this`blockIndex, block
      ensures digest == Fold(u, initial, m + (WordOctets(lengthHigh) + WordOctets(lengthLow))) && blockIndex == 0
    {
      ghost var head, tail := block[..56], WordOctets(lengthHigh) + WordOctets(lengthLow);
      StoreWord(56, lengthHigh);
      StoreWord(60, lengthLow);
      ghost var b := block[..];
      assert b == block[..64];
      Sequences.Assoc(head, WordOctets(lengthHigh), WordOctets(lengthLow));
      Sequences.Assoc(folded, head, tail);
      FoldBlock(u, initial, folded, b);
      ProcessMessageBlock();
    }

    /** The marker and the zero octets of the padding, in one block or spilling into a second. */
    method StoreMarkerAndZeros() returns (ghost z: nat)
      requires Tracks(accepted) && blockIndex < BLOCK
      modifies this`digest, this`blockIndex, this`folded, this`blocks, block
      ensures Tracks(accepted + [0x80] + Zeros(z)) && blockIndex == 56 && z < BLOCK
    {
      ghost var marked := accepted + [0x80];
      if blockIndex > 55 {
        ghost var rest := 63 - blockIndex;
        StoreOctet(0x80, accepted);
        StoreZeros(64, marked);
        Flush(marked + Zeros(rest));
        StoreZeros(56, marked + Zeros(rest));
        ZerosConcat(rest, 56);
        Sequences.Assoc(marked, Zeros(rest), Zeros(56));
        z := rest + 56;
      } else {
        z := 55 - blockIndex;
        StoreOctet(0x80, accepted);
        StoreZeros(56, marked);
      }
    }

    method StorePadding() returns (ghost m: seq<Octet>)
      requires Tracks(accepted) && blockIndex < BLOCK
      modifies this`digest, this`blockIndex, this`folded, this`blocks, block
      ensures m == accepted + [0x80] + Zeros(PadZeros(|accepted|))
      ensures Tracks(m) && blockIndex == 56
    {
      ghost var z := StoreMarkerAndZeros();
      m := accepted + [0x80] + Zeros(z);
      PadZerosUnique(|accepted|, z, blocks + 1);
    }

    method PadMessage()
      requires Tracks(accepted) && blockIndex < BLOCK && Counts(|accepted|)
      modifies this`digest, this`blockIndex, this`folded, this`blocks, block
      ensures Finished() && blockIndex == 0
    {
      ghost var m := StorePadding();
      PadWithWords(accepted, lengthHigh, lengthLow);
      StoreLength(m);
    }

    method Result() returns (ok: bool)
      requires Valid() && (computed && !corrupted ==> Finished())
      modifies this, block
      ensures Valid() && corrupted == old(corrupted) && accepted == old(accepted)
      ensures ok == !corrupted
      ensures ok ==> computed && Finished()
      ensures old(computed) ==> digest == old(digest)
    {
      if corrupted {
        return false;
      }
      if !computed {
        PadMessage();
        computed := true;
      }
      return true;
    }
  }

  /** The two length words count the bits until they run out. */
  lemma AddEight(high: nat, low: nat, n: nat)
    requires low < TWO_32 && Joined(high, low) == 8 * n < TWO_64
    ensures var low' := (low + 8) % TWO_32;
            var high' := if low' == 0 then (high + 1) % TWO_32 else high;
            if low' == 0 && high' == 0 then 8 * (n + 1) == TWO_64 else Joined(high', low') == 8 * (n + 1) < TWO_64
  {
    assert low % 8 == 0;
    assert low + 8 <= TWO_32;
  }

  ghost function Flatten(pieces: seq<seq<Octet>>): (m: seq<Octet>)
  {
    if pieces == [] then [] else Flatten(pieces[..|pieces| - 1]) + pieces[|pieces| - 1]
  }

  /** However a message is cut into pieces, hashing the pieces one after the other yields the SHA-1 of
      the message, or fails exactly when the message has 2^64 bits or more. */
  method Hash(pieces: seq<seq<Octet>>) returns (ok: bool, digest: Five<bv32>)
    ensures ok <==> 8 * |Flatten(pieces)| < TWO_64
    ensures ok ==> digest == Sha1(Flatten(pieces))
  {
    var context := new Context<bv32>(WORDS, INITIAL);
    for i := 0 to |pieces|
      invariant fresh(context) && fresh(context.block) && context.Valid() && !context.computed
      invariant context.u == WORDS && context.initial == INITIAL
      invariant context.corrupted <==> 8 * |Flatten(pieces[..i])| >= TWO_64
      invariant !context.corrupted ==> context.accepted == Flatten(pieces[..i])
    {
      assert pieces[..i + 1][..i] == pieces[..i];
      context.Input(pieces[i]);
    }
    assert pieces[..|pieces|] == pieces;
    ok := context.Result();
    digest := context.digest;
  }
}
