/** Structural properties of the DUKPT derivation that hold whatever the
    block ciphers are: what the IPEK depends on, how the key-register mask
    acts on the IPEK and on a round, which KSN bits the session walk reads,
    how a transaction key follows from the key of its parent counter value,
    and how usage keys of one transaction relate to each other. */
module DukptProperties {
  import opened Bits
  import opened Dukpt

  /** Each half of the key-register mask is the byte string C0 C0 C0 C0 00 00 00 00. */
  lemma KeyRegisterHalfBytes()
    ensures KeyRegisterHalf == FromBytes([0xC0, 0xC0, 0xC0, 0xC0, 0x00, 0x00, 0x00, 0x00])
  {
  }

  /** The key-register mask is C0C0C0C0 00000000 C0C0C0C0 00000000 byte by byte. */
  lemma KeyRegisterMaskBytes()
    ensures KeyRegisterMask == FromBytes([0xC0, 0xC0, 0xC0, 0xC0, 0x00, 0x00, 0x00, 0x00,
                                          0xC0, 0xC0, 0xC0, 0xC0, 0x00, 0x00, 0x00, 0x00])
  {
  }

  /** Counter independence: two KSNs with the same 59-bit prefix give the same
      IPEK, whatever their transaction counters hold. */
  lemma IpekIgnoresCounter(f: Factory, bdk: Bits128, ksn1: Bits80, ksn2: Bits80)
    requires forall b :: 0 <= b < CounterStart ==> ksn1[b] == ksn2[b]
    ensures Ipek(f, bdk, ksn1) == Ipek(f, bdk, ksn2)
  {
    assert ksn1[..CounterStart] == ksn2[..CounterStart];
    var ipek1, ipek2 := Ipek(f, bdk, ksn1), Ipek(f, bdk, ksn2);
    assert ipek1 == Left(ipek1) + Right(ipek1);
    assert ipek2 == Left(ipek2) + Right(ipek2);
  }

  /** Deriving from the masked BDK swaps the two halves of the IPEK, because the
      mask undoes itself. */
  lemma IpekMaskedBdkSwapsHalves(f: Factory, bdk: Bits128, ksn: Bits80)
    ensures var ipek := Ipek(f, bdk, ksn);
            Ipek(f, Xor(bdk, KeyRegisterMask), ksn) == Right(ipek) + Left(ipek)
  {
    var ipek := Ipek(f, bdk, ksn);
    var masked: Bits128 := Xor(bdk, KeyRegisterMask);
    var swapped := Ipek(f, masked, ksn);
    XorInvolution(bdk, KeyRegisterMask);
    assert Left(swapped) == Right(ipek);
    assert Right(swapped) == Left(ipek);
    assert swapped == Left(swapped) + Right(swapped);
  }

  /** Running a round under the masked key register swaps the halves of its
      output: crypto registers 1 and 2 trade places. */
  lemma RoundMaskedKeySwapsHalves(f: Factory, key: Bits128, data: Bits64)
    ensures var r := Round(f, key, data);
            Round(f, Xor(key, KeyRegisterMask), data) == Right(r) + Left(r)
  {
    var r := Round(f, key, data);
    var masked: Bits128 := Xor(key, KeyRegisterMask);
    var s := Round(f, masked, data);
    MaskedHalves(key);
    XorInvolution(Left(key), KeyRegisterHalf);
    XorInvolution(Right(key), KeyRegisterHalf);
    assert Left(s) == Right(r);
    assert Right(s) == Left(r);
    assert s == Left(s) + Right(s);
  }

  /** The walk up to bit i reads the KSN only through bits [16, i). */
  lemma {:induction false} KeyUpToReadsWindow(f: Factory, ipek: Bits128, ksn1: Bits80, ksn2: Bits80, i: nat)
    requires CounterStart <= i <= 80
    requires forall b :: 16 <= b < i ==> ksn1[b] == ksn2[b]
    ensures KeyUpTo(f, ipek, ksn1, i) == KeyUpTo(f, ipek, ksn2, i)
    decreases i
  {
    if i > CounterStart {
      KeyUpToReadsWindow(f, ipek, ksn1, ksn2, i - 1);
      assert ksn1[i - 1] == ksn2[i - 1];
      assert Window(Accumulator(ksn1, i)) == Window(Accumulator(ksn2, i));
    }
  }

  /** Given the IPEK, the session key does not depend on the first 16 KSN bits:
      every round is fed the window [16, 80) of the counter register. */
  lemma SessionKeyIgnoresLeadingBits(f: Factory, ipek: Bits128, ksn1: Bits80, ksn2: Bits80)
    requires ksn1[16..] == ksn2[16..]
    ensures SessionKey(f, ipek, ksn1) == SessionKey(f, ipek, ksn2)
  {
    forall b | 16 <= b < 80
      ensures ksn1[b] == ksn2[b]
    {
      assert ksn1[b] == ksn1[16..][b - 16];
    }
    KeyUpToReadsWindow(f, ipek, ksn1, ksn2, 80);
  }

  /** The counter register only ever gains bits during the walk: every bit set
      before the round for bit lo - 1 is still set at the round for bit hi - 1. */
  lemma AccumulatorOnlyGrows(ksn: Bits80, lo: nat, hi: nat)
    requires CounterStart <= lo <= hi <= 80
    ensures forall b :: 0 <= b < 80 && Accumulator(ksn, lo)[b] ==> Accumulator(ksn, hi)[b]
  {
  }

  /** The DUKPT key tree: when j is the last set counter bit, the session key is
      one round away from the session key of the KSN with bit j cleared, and
      that round is fed the window [16, 80) of the KSN itself. */
  lemma SessionKeyFromParent(f: Factory, ipek: Bits128, ksn: Bits80, j: nat)
    requires CounterStart <= j < 80
    requires ksn[j]
    requires CounterClear(ksn, j + 1, 80)
    ensures SessionKey(f, ipek, ksn) == Round(f, SessionKey(f, ipek, ksn[j := false]), Window(ksn))
  {
    var parent: Bits80 := ksn[j := false];
    KeyUpToSkipsClearBits(f, ipek, ksn, j + 1, 80);
    assert Accumulator(ksn, j + 1) == ksn;
    KeyUpToSkipsClearBits(f, ipek, parent, j, 80);
    KeyUpToReadsWindow(f, ipek, ksn, parent, j);
  }

  /** The first transaction (counter 000001) runs a single round on the IPEK,
      fed the window [16, 80) of the KSN. */
  lemma FirstTransactionKey(f: Factory, ipek: Bits128, ksn: Bits80)
    requires CounterClear(ksn, CounterStart, 79)
    requires ksn[79]
    ensures SessionKey(f, ipek, ksn) == Round(f, ipek, Window(ksn))
  {
    var parent: Bits80 := ksn[79 := false];
    assert CounterClear(parent, CounterStart, 80);
    SessionKeyFromParent(f, ipek, ksn, 79);
    ZeroCounterIdentity(f, ipek, parent);
  }

  /** Two usage keys of the same transaction differ exactly by the XOR of their
      usage masks; in particular they coincide only when the masks do. */
  lemma UsageKeysDifferByMasks(f: Factory, bdk: Bits128, ksn: Bits80, m1: Bits128, m2: Bits128)
    ensures Xor(ComputeKey(f, bdk, ksn, m1), ComputeKey(f, bdk, ksn, m2)) == Xor(m1, m2)
  {
  }
}
