/** The ANSI X9.24 DUKPT key-derivation engine of `DukptFactory`: IPEK
    derivation from the Base Derivation Key, the non-reversible key-register
    round, the session-key walk over the 21-bit transaction counter, and the
    usage masking and data-key variant of the 2009 edition. */
module Dukpt {
  import opened Bits

  /** The block-cipher collaborators the factory is built with. Their
      internals are not modelled: `des` is single DES under a 64-bit key and
      `tripleDes` is two-key triple DES under a 128-bit key, each taking and
      giving one 64-bit block. */
  datatype Factory = Factory(des: (Bits64, Bits64) -> Bits64, tripleDes: (Bits128, Bits64) -> Bits64)

  /** Index of the first transaction-counter bit in a KSN; the counter runs to bit 79. */
  const CounterStart: nat := 59

  /** One half of the key-register mask, hexadecimal C0C0C0C0 00000000: the
      two leading bits of each of the first four bytes are set. */
  const KeyRegisterHalf: Bits64 := seq(64, i => i < 32 && i % 8 < 2)

  /** The key-register mask C0C0C0C0 00000000 C0C0C0C0 00000000. */
  const KeyRegisterMask: Bits128 := KeyRegisterHalf + KeyRegisterHalf

  function Left(k: Bits128): Bits64 { k[..64] }

  function Right(k: Bits128): Bits64 { k[64..] }

  /** The KSN with its transaction counter zeroed: the static prefix only. */
  function ClearCounter(ksn: Bits80): (r: Bits80)
    ensures r[..CounterStart] == ksn[..CounterStart]
    ensures forall i :: CounterStart <= i < 80 ==> !r[i]
  {
    ClearRange(ksn, CounterStart, 80)
  }

  /** The block the IPEK is derived from: the first 64 bits of the KSN with its
      counter zeroed, that is the 59-bit prefix followed by five zero bits. */
  function IpekBlock(ksn: Bits80): (d: Bits64)
    ensures d == ksn[..CounterStart] + Zeros(5)
  {
    var data := ClearCounter(ksn);
    assert data[..64] == ksn[..CounterStart] + Zeros(5);
    data[..64]
  }

  /** Initial PIN Encryption Key: the prefix block triple-DES encrypted under the
      BDK gives the left half, and under the BDK masked with the key-register
      mask gives the right half. The caller's BDK is left as it was. */
  function Ipek(f: Factory, bdk: Bits128, ksn: Bits80): (ipek: Bits128)
    ensures Left(ipek) == f.tripleDes(bdk, ksn[..CounterStart] + Zeros(5))
    ensures Right(ipek) == f.tripleDes(Xor(bdk, KeyRegisterMask), ksn[..CounterStart] + Zeros(5))
  {
    var data := IpekBlock(ksn);
    var first := f.tripleDes(bdk, data);
    var keyRegister: Bits128 := Xor(bdk, KeyRegisterMask);
    var second := f.tripleDes(keyRegister, data);
    first + second
  }

  /** Masking a key register masks each of its halves with KeyRegisterHalf. */
  lemma MaskedHalves(key: Bits128)
    ensures Left(Xor(key, KeyRegisterMask)) == Xor(Left(key), KeyRegisterHalf)
    ensures Right(Xor(key, KeyRegisterMask)) == Xor(Right(key), KeyRegisterHalf)
  {
  }

  /** The non-reversible key-register round that advances a transaction key
      by one counter bit. Crypto register 2 is computed under the key register
      as given (steps 1 to 3); crypto register 1 under the key register masked
      with C0C0C0C0 00000000 C0C0C0C0 00000000 (steps 4 to 7). The new key is
      register 1 followed by register 2. */
  function Round(f: Factory, key: Bits128, data: Bits64): (r: Bits128)
    ensures Right(r) == Xor(f.des(Left(key), Xor(data, Right(key))), Right(key))
    ensures var kl, kr := Xor(Left(key), KeyRegisterHalf), Xor(Right(key), KeyRegisterHalf);
            Left(r) == Xor(f.des(kl, Xor(data, kr)), kr)
  {
    // steps 1-3: crypto register 2 under the key register as given
    var reg2In: Bits64 := Xor(data, Right(key));
    var reg2Enc := f.des(Left(key), reg2In);
    var reg2: Bits64 := Xor(reg2Enc, Right(key));
    // step 4: a masked copy of the key register
    var keyReg: Bits128 := Xor(key, KeyRegisterMask);
    MaskedHalves(key);
    // steps 5-7: crypto register 1 under the masked key register
    var reg1In: Bits64 := Xor(data, Right(keyReg));
    var reg1Enc := f.des(Left(keyReg), reg1In);
    var reg1: Bits64 := Xor(reg1Enc, Right(keyReg));
    reg1 + reg2
  }

  /** The counter register when the round for counter bit `i - 1` runs: the
      KSN with bits [i, 80) cleared, so it agrees with the KSN on the prefix
      and on the counter bits already visited and is zero beyond them. */
  function Accumulator(ksn: Bits80, i: nat): (acc: Bits80)
    requires CounterStart <= i <= 80
    ensures acc[..i] == ksn[..i]
    ensures forall b :: i <= b < 80 ==> !acc[b]
  {
    ClearRange(ksn, i, 80)
  }

  /** The 64-bit window [16, 80) of a counter register that each round is fed. */
  function Window(acc: Bits80): Bits64 { acc[16..] }

  /** Reference definition of the session walk: the transaction key after
      counter bits [59, i) have been visited in ascending order, one round per
      set bit. */
  function KeyUpTo(f: Factory, ipek: Bits128, ksn: Bits80, i: nat): Bits128
    requires CounterStart <= i <= 80
    decreases i
  {
    if i == CounterStart then ipek
    else
      var k := KeyUpTo(f, ipek, ksn, i - 1);
      if ksn[i - 1] then Round(f, k, Window(Accumulator(ksn, i))) else k
  }

  /** The transaction key for `ksn` reached from the initial key `ipek`. */
  function SessionKey(f: Factory, ipek: Bits128, ksn: Bits80): Bits128
  {
    KeyUpTo(f, ipek, ksn, |ksn|)
  }

  /** True when every counter bit of `ksn` in [lo, hi) is clear. */
  predicate CounterClear(ksn: Bits80, lo: nat, hi: nat)
    requires hi <= 80
  {
    forall b :: lo <= b < hi ==> !ksn[b]
  }

  /** Number of set counter bits among bits [59, i) of the KSN. */
  function CounterPopCount(ksn: Bits80, i: nat): (n: nat)
    requires CounterStart <= i <= 80
    ensures n <= i - CounterStart
    ensures n == 0 <==> CounterClear(ksn, CounterStart, i)
    decreases i
  {
    if i == CounterStart then 0
    else CounterPopCount(ksn, i - 1) + (if ksn[i - 1] then 1 else 0)
  }

  /** The session walk as a loop: scans counter bits 59..79 in ascending
      order, setting each set bit in the counter register (which starts with
      the counter zeroed) before the round that uses it. The ghost `rounds`
      counts the rounds run. */
  method DeriveSessionKey(f: Factory, ipek: Bits128, ksn: Bits80) returns (key: Bits128, ghost rounds: nat)
    ensures key == SessionKey(f, ipek, ksn)
    ensures rounds == CounterPopCount(ksn, |ksn|)
    ensures rounds <= 21
  {
    var counter: Bits80 := ClearCounter(ksn);
    key := ipek;
    rounds := 0;
    var i := CounterStart;
    while i < 80
      invariant CounterStart <= i <= 80
      invariant counter == Accumulator(ksn, i)
      invariant key == KeyUpTo(f, ipek, ksn, i)
      invariant rounds == CounterPopCount(ksn, i)
    {
      if ksn[i] {
        counter := counter[i := true];
        assert counter == Accumulator(ksn, i + 1);
        key := Round(f, key, Window(counter));
        rounds := rounds + 1;
      } else {
        assert counter == Accumulator(ksn, i + 1);
      }
      i := i + 1;
    }
  }

  /** Counter bits that are clear do not advance the key. */
  lemma {:induction false} KeyUpToSkipsClearBits(f: Factory, ipek: Bits128, ksn: Bits80, lo: nat, hi: nat)
    requires CounterStart <= lo <= hi <= 80
    requires CounterClear(ksn, lo, hi)
    ensures KeyUpTo(f, ipek, ksn, hi) == KeyUpTo(f, ipek, ksn, lo)
    decreases hi
  {
    if hi > lo {
      KeyUpToSkipsClearBits(f, ipek, ksn, lo, hi - 1);
    }
  }

  /** A zero counter leaves the IPEK unchanged: no round is run. */
  lemma ZeroCounterIdentity(f: Factory, ipek: Bits128, ksn: Bits80)
    requires CounterClear(ksn, CounterStart, 80)
    ensures SessionKey(f, ipek, ksn) == ipek
  {
    KeyUpToSkipsClearBits(f, ipek, ksn, CounterStart, 80);
  }

  /** A usage key: the session key of `ksn` XOR-ed with a usage mask. */
  function ComputeKey(f: Factory, bdk: Bits128, ksn: Bits80, mask: Bits128): (key: Bits128)
    ensures Xor(key, mask) == SessionKey(f, Ipek(f, bdk, ksn), ksn)
  {
    var transactionKey := SessionKey(f, Ipek(f, bdk, ksn), ksn);
    XorInvolution(transactionKey, mask);
    Xor(transactionKey, mask)
  }

  /** With a zero counter the usage key is the IPEK itself, masked. */
  lemma ComputeKeyZeroCounter(f: Factory, bdk: Bits128, ksn: Bits80, mask: Bits128)
    requires CounterClear(ksn, CounterStart, 80)
    ensures ComputeKey(f, bdk, ksn, mask) == Xor(Ipek(f, bdk, ksn), mask)
  {
    ZeroCounterIdentity(f, Ipek(f, bdk, ksn), ksn);
  }

  /** The ANSI X9.24-2009 data key: the data-request usage key encrypts its own
      left half and its own right half under triple DES. The IFSF data-request
      mask constant is a parameter here. */
  function DataKey(f: Factory, bdk: Bits128, ksn: Bits80, requestDataMask: Bits128): (r: Bits128)
    ensures var dk := ComputeKey(f, bdk, ksn, requestDataMask);
            && Left(r) == f.tripleDes(dk, Left(dk))
            && Right(r) == f.tripleDes(dk, Right(dk))
  {
    var derivedKey := ComputeKey(f, bdk, ksn, requestDataMask);
    var firstComponent := f.tripleDes(derivedKey, Left(derivedKey));
    var secondComponent := f.tripleDes(derivedKey, Right(derivedKey));
    firstComponent + secondComponent
  }
}
