/**
 * The amounts in the request and settlement circuits: their constraints hold
 * in the field exactly when the integer relations of the protocol do.
 */
module Circuits {
  import opened Modular

  /** The order of the BN254 scalar field. */
  const BN254_SCALAR_FIELD := 21888242871839275222246405745257275088548364400416034343698204186575808495617

  const TWO_32 := 0x1_0000_0000
  const TWO_128 := 0x1_00000000_00000000_00000000_00000000
  const TWO_129 := 0x2_00000000_00000000_00000000_00000000
  const TWO_161 := 0x2_00000000_00000000_00000000_00000000_00000000
  const TWO_162 := 0x4_00000000_00000000_00000000_00000000_00000000

  /** The operands as the circuits bound them: amounts by 128 bits, indices by 32. */
  ghost predicate Bounded(deposit: nat, refunds: nat, maxCost: nat, index: nat) {
    deposit < TWO_128 && refunds < TWO_128 && maxCost < TWO_128 && index < TWO_32
  }

  /**
   * circomlib's LessEqThan(161) with output 1: a + 2^161 - (b + 1), taken in
   * the field, has 162 bits and its top bit is 0.
   */
  ghost predicate LessEqThan161(p: Modulus, a: int, b: int) {
    var t := (a + TWO_161 - (b + 1)) % p;
    t < TWO_162 && t / TWO_161 == 0
  }

  /** The solvency constraint of the request circuit. */
  ghost predicate SolvencyConstraint(p: Modulus, deposit: nat, refunds: nat, maxCost: nat, index: nat) {
    LessEqThan161(p, ((index + 1) * maxCost) % p, (deposit + refunds) % p)
  }

  /** The payout the settlement circuit outputs. */
  function PayoutSignal(p: Modulus, deposit: nat, refunds: nat, maxCost: nat, n: nat): int {
    (deposit + refunds - (n * maxCost) % p) % p
  }

  /** Its payout fits in 129 bits. */
  ghost predicate PayoutConstraint(p: Modulus, deposit: nat, refunds: nat, maxCost: nat, n: nat) {
    PayoutSignal(p, deposit, refunds, maxCost, n) < TWO_129
  }

  lemma ProductBound(maxCost: nat, index: nat)
    requires maxCost < TWO_128 && index <= TWO_32
    ensures 0 <= index * maxCost < TWO_161
  {
    ProductMonotone(index, TWO_32, maxCost, TWO_128);
  }

  lemma ProductMonotone(a: nat, a': nat, b: nat, b': nat)
    requires a <= a' && b <= b'
    ensures 0 <= a * b <= a' * b'
  {
    assert (a' - a) * b' >= 0 && a * (b' - b) >= 0;
  }

  /** Reduction modulo p leaves a small number alone and lifts a small negative one to just below p. */
  lemma SmallResidue(p: Modulus, v: int)
    requires 0 - p < v < p
    ensures v % p == if v >= 0 then v else v + p
  {
    ModUnique(p, v, if v >= 0 then 0 else -1, if v >= 0 then v else v + p);
  }

  /** The comparison decides the order of numbers below 2^161. */
  lemma ComparisonExact(p: Modulus, a: nat, b: nat)
    requires TWO_162 < p && a < TWO_161 && b < TWO_161
    ensures LessEqThan161(p, a, b) <==> a <= b
  {
    SmallResidue(p, a + TWO_161 - (b + 1));
  }

  /** The solvency constraint is (i + 1) C_MAX <= D + R over the integers. */
  lemma SolvencyIsInteger(p: Modulus, deposit: nat, refunds: nat, maxCost: nat, index: nat)
    requires TWO_162 < p && Bounded(deposit, refunds, maxCost, index)
    ensures SolvencyConstraint(p, deposit, refunds, maxCost, index) <==> (index + 1) * maxCost <= deposit + refunds
  {
    ProductBound(maxCost, index + 1);
    SmallResidue(p, (index + 1) * maxCost);
    SmallResidue(p, deposit + refunds);
    ComparisonExact(p, (index + 1) * maxCost, deposit + refunds);
  }

  /** A payout fits in 129 bits exactly when it is not negative, and is then the integer one. */
  lemma PayoutIsInteger(p: Modulus, deposit: nat, refunds: nat, maxCost: nat, n: nat)
    requires TWO_162 < p && Bounded(deposit, refunds, maxCost, n)
    ensures PayoutConstraint(p, deposit, refunds, maxCost, n) <==> deposit + refunds - n * maxCost >= 0
    ensures PayoutConstraint(p, deposit, refunds, maxCost, n) ==>
              PayoutSignal(p, deposit, refunds, maxCost, n) == deposit + refunds - n * maxCost
  {
    ProductBound(maxCost, n);
    SmallResidue(p, n * maxCost);
    SmallResidue(p, deposit + refunds - n * maxCost);
  }

  /** The deployed field is large enough for both. */
  lemma FieldIsLargeEnough(deposit: nat, refunds: nat, maxCost: nat, index: nat, n: nat)
    requires Bounded(deposit, refunds, maxCost, index) && n < TWO_32
    ensures SolvencyConstraint(BN254_SCALAR_FIELD, deposit, refunds, maxCost, index) <==>
            (index + 1) * maxCost <= deposit + refunds
    ensures PayoutConstraint(BN254_SCALAR_FIELD, deposit, refunds, maxCost, n) <==>
            deposit + refunds - n * maxCost >= 0
  {
    SolvencyIsInteger(BN254_SCALAR_FIELD, deposit, refunds, maxCost, index);
    PayoutIsInteger(BN254_SCALAR_FIELD, deposit, refunds, maxCost, n);
  }
}
