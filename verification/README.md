# DUKPT key derivation (ANSI X9.24, 2009 edition)

This project models the key-derivation engine of `DukptFactory`, the Derived
Unique Key Per Transaction method of ANSI X9.24-1:2009 Annex A, and proves
properties of it in Dafny. The engine has four parts:

- the Initial PIN Encryption Key (IPEK), derived from the Base Derivation Key
  (BDK) and the static prefix of the Key Serial Number (KSN);
- the non-reversible key-register round;
- the session-key walk over the 21-bit transaction counter (KSN bits 59..79);
- usage masking and the 2009 data-key variant.

Bit strings are `seq<bool>` with bit 0 as the most significant bit. Subset
types fix the widths: `Bits64`, `Bits80` (a KSN) and `Bits128` (a
double-length key). Every operation returns a new value. The in-place
`xor`, `set` and `clear` calls on copies in the source become pure functions.

The two block ciphers are injected into the factory, and the model does the
same: a `Factory` value holds `des` (single DES, 64-bit key) and `tripleDes`
(two-key triple DES, 128-bit key) as function-typed fields. The model never
looks inside them, so every property proved here holds for any pair of
ciphers.

Files:
- `bits.dfy` (module `Bits`): the bit-string primitives (XOR, range clearing,
  and `ByteBit`/`FromBytes`, which unpack bytes most significant bit first).
- `dukpt.dfy` (module `Dukpt`): the derivation itself. `Round` is
  `generateTransactionKey`. `KeyUpTo`/`SessionKey` are a recursive reference
  definition of the session walk. `DeriveSessionKey` is the loop as the source
  writes it, proved equal to that reference. `CounterPopCount` counts the set
  counter bits, which is the number of rounds the walk runs.
- `properties.dfy` (module `DukptProperties`): properties that relate
  several calls.

## Model

| member | source | states |
|---|---|---|
| Dukpt.IpekBlock | src/main/java/ansi/x9_24_2004/dukpt/DukptFactory.java:59-62 | the block the IPEK is derived from is the KSN's 59-bit prefix followed by five zero bits |
| Dukpt.Ipek | src/main/java/ansi/x9_24_2004/dukpt/DukptFactory.java:56-66 | the IPEK's left half is that prefix block triple-DES encrypted under the BDK; its right half is the same block encrypted under the BDK XOR C0C0C0C0 00000000 C0C0C0C0 00000000 |
| Dukpt.MaskedHalves | src/main/java/ansi/x9_24_2004/dukpt/DukptFactory.java:98-99 | masking the 128-bit key register masks each 64-bit half with C0C0C0C0 00000000 |
| Dukpt.Round | src/main/java/ansi/x9_24_2004/dukpt/DukptFactory.java:86-111 | the new right half is crypto register 2 (DES of data XOR key right, under key left, XOR key right); the new left half is the same under both halves masked with C0C0C0C0 00000000 |
| Dukpt.ClearCounter | src/main/java/ansi/x9_24_2004/dukpt/DukptFactory.java:71-74 | the counter register starts as the KSN prefix with all 21 counter bits zero |
| Dukpt.Accumulator | src/main/java/ansi/x9_24_2004/dukpt/DukptFactory.java:75-78 | the counter register at the round for bit i-1 agrees with the KSN on bits [0, i) and is zero on [i, 80) |
| Dukpt.DeriveSessionKey | src/main/java/ansi/x9_24_2004/dukpt/DukptFactory.java:70-83 | the loop computes the reference session key; a ghost count of the rounds it runs equals the population count of the counter bits, at most 21 |
| Dukpt.KeyUpToSkipsClearBits | src/main/java/ansi/x9_24_2004/dukpt/DukptFactory.java:75-79 | counter bits that are clear leave the transaction key unchanged |
| Dukpt.ZeroCounterIdentity | src/main/java/ansi/x9_24_2004/dukpt/DukptFactory.java:70-82 | with a zero counter the session key is the IPEK itself |
| Dukpt.ComputeKey | src/main/java/ansi/x9_24_2004/dukpt/DukptFactory.java:36-43 | XOR-ing the usage key with its mask again gives back the unmasked session key |
| Dukpt.ComputeKeyZeroCounter | src/main/java/ansi/x9_24_2004/dukpt/DukptFactory.java:36-43 | with a zero counter the usage key is the IPEK XOR the mask |
| Dukpt.DataKey | src/main/java/ansi/x9_24_2004/dukpt/DukptFactory.java:46-54 | the data key's left and right halves are the data-request usage key's own left and right halves, each triple-DES encrypted under that usage key |
| Bits.XorInvolution | src/main/java/ansi/x9_24_2004/dukpt/DukptFactory.java:40 | applying a usage mask twice gives back the key |
| Dukpt.CounterPopCount | src/main/java/ansi/x9_24_2004/dukpt/DukptFactory.java:75-76 | the number of set counter bits among [59, i) is at most i - 59, and it is zero exactly when all of them are clear |
| DukptProperties.KeyRegisterHalfBytes | src/main/java/ansi/x9_24_2004/dukpt/DukptFactory.java:98 | each mask half, defined bit by bit, equals the unpacked byte string C0 C0 C0 C0 00 00 00 00 |
| DukptProperties.KeyRegisterMaskBytes | src/main/java/ansi/x9_24_2004/dukpt/DukptFactory.java:98 | the key-register mask equals the unpacked byte string C0C0C0C0 00000000 C0C0C0C0 00000000 given in the comment |
| DukptProperties.IpekIgnoresCounter | src/main/java/ansi/x9_24_2004/dukpt/DukptFactory.java:59-64 | two KSNs with the same bits [0, 59) give the same IPEK, whatever their counters hold |
| DukptProperties.IpekMaskedBdkSwapsHalves | src/main/java/ansi/x9_24_2004/dukpt/DukptFactory.java:62-64 | deriving the IPEK from the masked BDK swaps the IPEK's two halves |
| DukptProperties.RoundMaskedKeySwapsHalves | src/main/java/ansi/x9_24_2004/dukpt/DukptFactory.java:89-105 | a round run on the masked key register swaps the halves of the round's output (crypto registers 1 and 2 trade places) |
| DukptProperties.KeyUpToReadsWindow | src/main/java/ansi/x9_24_2004/dukpt/DukptFactory.java:75-78 | the walk up to bit i reads the KSN only through bits [16, i) |
| DukptProperties.SessionKeyIgnoresLeadingBits | src/main/java/ansi/x9_24_2004/dukpt/DukptFactory.java:78 | given the IPEK, KSNs that agree on bits [16, 80) have the same session key |
| DukptProperties.AccumulatorOnlyGrows | src/main/java/ansi/x9_24_2004/dukpt/DukptFactory.java:74-77 | the counter register only gains bits during the walk: a bit set at an earlier round stays set at every later one |
| DukptProperties.SessionKeyFromParent | src/main/java/ansi/x9_24_2004/dukpt/DukptFactory.java:75-79 | when bit j is the last set counter bit, the session key is one round on the session key of the KSN with bit j cleared, and that round is fed the KSN's own window [16, 80) |
| DukptProperties.FirstTransactionKey | src/main/java/ansi/x9_24_2004/dukpt/DukptFactory.java:75-79 | for counter value 1 the session key is a single round on the IPEK, fed KSN bits [16, 80) |
| DukptProperties.UsageKeysDifferByMasks | src/main/java/ansi/x9_24_2004/dukpt/DukptFactory.java:36-43 | two usage keys of the same BDK and KSN differ exactly by the XOR of their two masks |

## Left out

- DES and triple-DES internals (`Des`, `TripleDes`) are not part of this
  model. They are the uninterpreted fields of `Factory`. So no known-answer
  vector (for example the published IPEK for BDK 0123456789ABCDEFFEDCBA9876543210) can be checked.
- `CustomBitSet` storage, `toByteArray` and the byte-array constructor are not
  part of this model. Converting bits to bytes and back is taken to be the
  identity. `ByteArrayUtils.concat` is sequence concatenation. If `toByteArray`
  behaved like `java.util.BitSet.toByteArray`, it would drop trailing zero
  bytes. That case is not modelled.
- `IfsfKeyMask` constants other than `KEY_REGISTER_BITMASK` are not in the
  model. `ComputeKey` takes the mask value as a 128-bit parameter, and
  `DataKey` takes the `REQUEST_DATA_MASK` value as a parameter.
- KSNs longer than 80 bits are not modelled. The loop runs to `ksn.size()` but
  always feeds the window [16, 80); with a longer KSN it would visit bits past
  79, and `CustomBitSet.size()` is not part of this model.
- `DukptFactory` validates no lengths. The subset types `Bits80` and `Bits128`
  fix the widths: a KSN is ANSI X9.24's 59-bit prefix plus a 21-bit counter,
  and a BDK is a double-length 128-bit key.
- The constructor and the injection of `des` and `tripleDes` are plumbing. The
  `Factory` datatype stands for them.
- `DeriveSessionKey`: `rounds` is a ghost out-parameter. The source counts
  nothing, so this counter exists only to state the round count.
- Determinism is not stated separately. Every member is a pure function of
  its inputs, so it holds by construction.
