/** The liquidation test for one vault (`checkLiquidatable`): the score-proof fallback,
    the score-adjusted collateral ratio the protocol demands, and the vault's current
    collateral ratio, all in 18-decimal fixed point with truncating division. */
module Assessor {
  import opened Common
  import opened Parameters

  /** `utils.parseEther('1')`: one unit in 18-decimal fixed point. */
  const BASE: nat := 1_000_000_000_000_000_000

  type Byte = x: int | 0 <= x < 256

  /** The two vault fields the bot reads from `core.vaults(account)`. */
  datatype Vault = Vault(normalizedBorrowedAmount: nat, collateralAmount: nat)

  /** A credit-score proof as the score API and the core contract know it. */
  datatype ScoreProof = ScoreProof(
    account: Address,
    protocol: seq<Byte>,
    score: nat,
    merkleProof: seq<seq<Byte>>)

  /** What `checkLiquidatable` returns; `None` stands for the `null` ratio of a debt-free vault. */
  datatype Assessment = Assessment(assessedCRatio: Option<int>, isLiquidatable: bool, proof: ScoreProof)

  // ---------------------------------------------------------------------------------------
  // formatBytes32String

  /** The UTF-8 encoding of one Unicode scalar value. */
  function Utf8(c: char): (bytes: seq<Byte>)
    ensures 1 <= |bytes| <= 4
    ensures |bytes| == 1 <==> c as int < 0x80
    ensures bytes[0] == 0 <==> c == '\0'
    ensures forall i :: 1 <= i < |bytes| ==> 0x80 <= bytes[i] < 0xC0
  {
    var n := c as int;
    if n < 0x80 then [n]
    else if n < 0x800 then [0xC0 + n / 0x40, 0x80 + n % 0x40]
    else if n < 0x10000 then [0xE0 + n / 0x1000, 0x80 + (n / 0x40) % 0x40, 0x80 + n % 0x40]
    else [0xF0 + n / 0x40000, 0x80 + (n / 0x1000) % 0x40, 0x80 + (n / 0x40) % 0x40, 0x80 + n % 0x40]
  }

  /** `toUtf8Bytes`: the UTF-8 encoding of a string. */
  function Utf8Encode(s: string): (bytes: seq<Byte>)
    ensures |s| <= |bytes| <= 4 * |s|
    ensures (forall i :: 0 <= i < |s| ==> s[i] as int < 0x80) ==> |bytes| == |s|
    ensures '\0' !in s ==> 0 !in bytes
  {
    if s == [] then [] else Utf8(s[0]) + Utf8Encode(s[1..])
  }

  function ZeroBytes(n: nat): (z: seq<Byte>)
    ensures |z| == n && forall i :: 0 <= i < n ==> z[i] == 0
  {
    if n == 0 then [] else [0] + ZeroBytes(n - 1)
  }

  /** `formatBytes32String`: the UTF-8 bytes of `text`, zero-padded to 32; the encoding must
      leave room for at least one terminating zero byte, or the call throws. */
  function FormatBytes32String(text: string): (r: Result<seq<Byte>>)
    ensures r.Success? <==> |Utf8Encode(text)| <= 31
    ensures r.Failure? ==> r.error == Bytes32TooLong
    ensures r.Success? ==>
      && |r.value| == 32
      && r.value[..|Utf8Encode(text)|] == Utf8Encode(text)
      && forall i :: |Utf8Encode(text)| <= i < 32 ==> r.value[i] == 0
  {
    var bytes := Utf8Encode(text);
    if |bytes| > 31 then Failure(Bytes32TooLong)
    else Success(bytes + ZeroBytes(32 - |bytes|))
  }

  /** The bytes before the first zero byte (what `parseBytes32String` decodes). */
  function BytesBeforeNul(b: seq<Byte>): (r: seq<Byte>)
    ensures |r| <= |b| && r == b[..|r|] && 0 !in r
    ensures |r| < |b| ==> b[|r|] == 0
  {
    if b == [] || b[0] == 0 then [] else [b[0]] + BytesBeforeNul(b[1..])
  }

  lemma {:induction false} BytesBeforeNulOfTerminated(e: seq<Byte>, rest: seq<Byte>)
    requires 0 !in e
    ensures BytesBeforeNul(e + [0] + rest) == e
  {
    if e != [] {
      assert (e + [0] + rest)[1..] == e[1..] + [0] + rest;
      BytesBeforeNulOfTerminated(e[1..], rest);
    }
  }

  /** Round trip: the bytes32 form of a text without NUL characters gives back exactly the
      text's UTF-8 encoding when read up to its first zero byte. */
  lemma Bytes32RoundTrip(text: string)
    requires '\0' !in text
    requires FormatBytes32String(text).Success?
    ensures BytesBeforeNul(FormatBytes32String(text).value) == Utf8Encode(text)
  {
    var e := Utf8Encode(text);
    assert FormatBytes32String(text).value == e + [0] + ZeroBytes(31 - |e|);
    BytesBeforeNulOfTerminated(e, ZeroBytes(31 - |e|));
  }

  // ---------------------------------------------------------------------------------------
  // The proof used for an account

  /** `getEmptyScoreProof(account, protocol)`: a proof of score zero with no Merkle path. */
  function EmptyScoreProof(account: Address, protocol: seq<Byte>): ScoreProof {
    ScoreProof(account, protocol, 0, [])
  }

  /** `creditScoreProof || getEmptyScoreProof(account, formatBytes32String(protocol))`. */
  function ProofUsed(account: Address, protocol: string, fetched: Option<ScoreProof>): (r: Result<ScoreProof>)
    ensures fetched.Some? ==> r == Success(fetched.value)
    ensures fetched.None? ==> (r.Success? <==> FormatBytes32String(protocol).Success?)
    ensures fetched.None? && r.Success? ==>
      r.value == EmptyScoreProof(account, FormatBytes32String(protocol).value)
    ensures r.Failure? ==> fetched.None? && r.error == Bytes32TooLong
  {
    match fetched
    case Some(proof) => Success(proof)
    case None =>
      match FormatBytes32String(protocol)
      case Failure(e) => Failure(e)
      case Success(bytes) => Success(EmptyScoreProof(account, bytes))
  }

  // ---------------------------------------------------------------------------------------
  // Fixed-point arithmetic

  /** `BigNumber.div`: integer division truncating toward zero. */
  function TruncDiv(a: int, b: nat): (q: int)
    requires b > 0
    ensures a >= 0 ==> 0 <= q && q * b <= a < q * b + b
    ensures a < 0 ==> q <= 0 && a <= q * b < a + b
  {
    if a >= 0 then
      DivFacts(a, b);
      a / b
    else
      NegatedDivFacts(-a, b);
      -((-a) / b)
  }

  /** Truncation is symmetric about zero, which floor division is not. */
  lemma TruncDivOdd(a: int, b: nat)
    requires b > 0
    ensures TruncDiv(-a, b) == -TruncDiv(a, b)
  {
  }

  /** Exact quotients are returned unchanged, whatever the sign. */
  lemma TruncDivOfMultiple(m: nat, d: int)
    requires m > 0
    ensures TruncDiv(m * d, m) == d
  {
    if d >= 0 {
      DivOfMultiple(m, d);
    } else {
      assert -(m * d) == m * -d;
      DivOfMultiple(m, -d);
    }
  }

  /** `highCRatio - score * (highCRatio - lowCRatio) / maxScore`: the collateral ratio the
      protocol demands of a borrower with the given credit score. */
  function AssessedCRatio(high: nat, low: nat, score: nat, maxScore: nat): int
    requires maxScore > 0
  {
    high - TruncDiv(score * (high - low), maxScore)
  }

  /** A zero score is assessed at the high ratio and a full score at the low ratio. */
  lemma AssessedCRatioEndpoints(high: nat, low: nat, maxScore: nat)
    requires maxScore > 0
    ensures AssessedCRatio(high, low, 0, maxScore) == high
    ensures AssessedCRatio(high, low, maxScore, maxScore) == low
  {
    TruncDivOfMultiple(maxScore, high - low);
  }

  /** With the bounds in order and a score within range, the assessed ratio lies between them. */
  lemma AssessedCRatioBounds(high: nat, low: nat, score: nat, maxScore: nat)
    requires maxScore > 0 && low <= high && score <= maxScore
    ensures low <= AssessedCRatio(high, low, score, maxScore) <= high
  {
    MulMono(score, maxScore, high - low);
    DivMonotone(score * (high - low), maxScore * (high - low), maxScore);
    DivOfMultiple(maxScore, high - low);
  }

  /** With the bounds in order, a higher score never raises the demanded ratio. */
  lemma AssessedCRatioNonIncreasing(high: nat, low: nat, s1: nat, s2: nat, maxScore: nat)
    requires maxScore > 0 && low <= high && s1 <= s2
    ensures AssessedCRatio(high, low, s2, maxScore) <= AssessedCRatio(high, low, s1, maxScore)
  {
    MulMono(s1, s2, high - low);
    DivMonotone(s1 * (high - low), s2 * (high - low), maxScore);
  }

  /** With the bounds in order, no score is assessed above the high ratio. */
  lemma AssessedCRatioAtMostHigh(high: nat, low: nat, score: nat, maxScore: nat)
    requires maxScore > 0 && low <= high
    ensures AssessedCRatio(high, low, score, maxScore) <= high
  {
    AssessedCRatioNonIncreasing(high, low, 0, score, maxScore);
    AssessedCRatioEndpoints(high, low, maxScore);
  }

  /** `normalizedBorrowedAmount * currentBorrowIndex / BASE`. */
  function DenormalizedBorrowAmount(v: Vault, p: CoreParameters): nat {
    v.normalizedBorrowedAmount * p.currentBorrowIndex / BASE
  }

  /** `collateralAmount * currentPrice / BASE`. */
  function CollateralValue(v: Vault, p: CoreParameters): nat {
    v.collateralAmount * p.currentPrice / BASE
  }

  /** `collateralValue * BASE / denormalizedBorrowAmt`. */
  function CurrentCRatio(v: Vault, p: CoreParameters): nat
    requires DenormalizedBorrowAmount(v, p) > 0
  {
    CollateralValue(v, p) * BASE / DenormalizedBorrowAmount(v, p)
  }

  // ---------------------------------------------------------------------------------------
  // checkLiquidatable

  /** `checkLiquidatable` once the vault and the score proof have been read. The proof
      fallback comes first, then the division by `maxScore`, then the zero-debt early return,
      then the division by the denormalized debt; a vault is liquidatable when its current
      ratio is not above the assessed one. */
  function CheckLiquidatable(account: Address, p: CoreParameters, v: Vault, fetched: Option<ScoreProof>)
    : (r: Result<Assessment>)
    ensures r.Success? <==>
      && ProofUsed(account, p.protocol, fetched).Success?
      && p.maxScore > 0
      && (v.normalizedBorrowedAmount == 0 || DenormalizedBorrowAmount(v, p) > 0)
    ensures ProofUsed(account, p.protocol, fetched).Failure? ==> r == Failure(Bytes32TooLong)
    ensures ProofUsed(account, p.protocol, fetched).Success? && p.maxScore == 0 ==> r == Failure(DivisionByZero)
    ensures r.Failure? && ProofUsed(account, p.protocol, fetched).Success? ==> r.error == DivisionByZero
    ensures r.Success? ==> r.value.proof == ProofUsed(account, p.protocol, fetched).value
    ensures r.Success? && v.normalizedBorrowedAmount == 0 ==>
      r.value.assessedCRatio.None? && !r.value.isLiquidatable
    ensures r.Success? && v.normalizedBorrowedAmount != 0 ==>
      && r.value.assessedCRatio ==
         Some(AssessedCRatio(p.highCRatio, p.lowCRatio, r.value.proof.score, p.maxScore))
      && (r.value.isLiquidatable <==> CurrentCRatio(v, p) <= r.value.assessedCRatio.value)
  {
    match ProofUsed(account, p.protocol, fetched)
    case Failure(e) => Failure(e)
    case Success(proof) =>
      if p.maxScore == 0 then Failure(DivisionByZero)
      else
        var assessed := AssessedCRatio(p.highCRatio, p.lowCRatio, proof.score, p.maxScore);
        if v.normalizedBorrowedAmount == 0 then Success(Assessment(None, false, proof))
        else if DenormalizedBorrowAmount(v, p) == 0 then Failure(DivisionByZero)
        else
          var isCollateralized := CurrentCRatio(v, p) > assessed;
          Success(Assessment(Some(assessed), !isCollateralized, proof))
  }

  /** Without a proof from the score API a debtor is held to the high ratio. */
  lemma FallbackDemandsHighRatio(account: Address, p: CoreParameters, v: Vault)
    requires CheckLiquidatable(account, p, v, None).Success?
    requires v.normalizedBorrowedAmount != 0
    ensures CheckLiquidatable(account, p, v, None).value.assessedCRatio == Some(p.highCRatio)
    ensures CheckLiquidatable(account, p, v, None).value.proof.score == 0
  {
    AssessedCRatioEndpoints(p.highCRatio, p.lowCRatio, p.maxScore);
  }

  /** With the bounds in order, a vault liquidatable under some proof is liquidatable under the
      empty-proof fallback: a missing proof is the most conservative case. */
  lemma FallbackIsMostConservative(account: Address, p: CoreParameters, v: Vault, proof: ScoreProof)
    requires p.lowCRatio <= p.highCRatio
    requires CheckLiquidatable(account, p, v, Some(proof)).Success?
    requires CheckLiquidatable(account, p, v, Some(proof)).value.isLiquidatable
    requires FormatBytes32String(p.protocol).Success?
    ensures CheckLiquidatable(account, p, v, None).Success?
    ensures CheckLiquidatable(account, p, v, None).value.isLiquidatable
  {
    AssessedCRatioNonIncreasing(p.highCRatio, p.lowCRatio, 0, proof.score, p.maxScore);
  }

  /** With the bounds in order, raising the score never makes a vault liquidatable. */
  lemma HigherScoreNeverMoreLiquidatable(account: Address, p: CoreParameters, v: Vault, low: ScoreProof, high: ScoreProof)
    requires p.lowCRatio <= p.highCRatio && low.score <= high.score
    requires CheckLiquidatable(account, p, v, Some(high)).Success?
    requires CheckLiquidatable(account, p, v, Some(high)).value.isLiquidatable
    ensures CheckLiquidatable(account, p, v, Some(low)).Success?
    ensures CheckLiquidatable(account, p, v, Some(low)).value.isLiquidatable
  {
    AssessedCRatioNonIncreasing(p.highCRatio, p.lowCRatio, low.score, high.score, p.maxScore);
  }

  /** A liquidatable vault stays liquidatable with less collateral and the same debt. */
  lemma LessCollateralStaysLiquidatable(account: Address, p: CoreParameters, v: Vault, less: nat, fetched: Option<ScoreProof>)
    requires less <= v.collateralAmount
    requires CheckLiquidatable(account, p, v, fetched).Success?
    requires CheckLiquidatable(account, p, v, fetched).value.isLiquidatable
    ensures CheckLiquidatable(account, p, Vault(v.normalizedBorrowedAmount, less), fetched).Success?
    ensures CheckLiquidatable(account, p, Vault(v.normalizedBorrowedAmount, less), fetched).value.isLiquidatable
  {
    var w := Vault(v.normalizedBorrowedAmount, less);
    assert DenormalizedBorrowAmount(w, p) == DenormalizedBorrowAmount(v, p);
    MulMono(less, v.collateralAmount, p.currentPrice);
    DivMonotone(less * p.currentPrice, v.collateralAmount * p.currentPrice, BASE);
    MulMono(CollateralValue(w, p), CollateralValue(v, p), BASE);
    DivMonotone(CollateralValue(w, p) * BASE, CollateralValue(v, p) * BASE, DenormalizedBorrowAmount(v, p));
  }

  /** A liquidatable debtor stays liquidatable with more debt and the same collateral. */
  lemma MoreDebtStaysLiquidatable(account: Address, p: CoreParameters, v: Vault, more: nat, fetched: Option<ScoreProof>)
    requires v.normalizedBorrowedAmount <= more
    requires CheckLiquidatable(account, p, v, fetched).Success?
    requires CheckLiquidatable(account, p, v, fetched).value.isLiquidatable
    ensures CheckLiquidatable(account, p, Vault(more, v.collateralAmount), fetched).Success?
    ensures CheckLiquidatable(account, p, Vault(more, v.collateralAmount), fetched).value.isLiquidatable
  {
    var w := Vault(more, v.collateralAmount);
    assert CollateralValue(w, p) == CollateralValue(v, p);
    MulMono(v.normalizedBorrowedAmount, more, p.currentBorrowIndex);
    DivMonotone(v.normalizedBorrowedAmount * p.currentBorrowIndex, more * p.currentBorrowIndex, BASE);
    DivAntitone(CollateralValue(v, p) * BASE, DenormalizedBorrowAmount(v, p), DenormalizedBorrowAmount(w, p));
  }

  /** With a positive maximum score and a borrow index of at least one unit, the assessment of
      any debtor succeeds once the proof is settled: its debt cannot round down to zero. */
  lemma IndexAtLeastOneUnitNeverDividesByZero(account: Address, p: CoreParameters, v: Vault, fetched: Option<ScoreProof>)
    requires p.maxScore > 0 && p.currentBorrowIndex >= BASE
    requires ProofUsed(account, p.protocol, fetched).Success?
    ensures CheckLiquidatable(account, p, v, fetched).Success?
  {
    if v.normalizedBorrowedAmount != 0 {
      MulMono(1, v.normalizedBorrowedAmount, p.currentBorrowIndex);
      DivMonotone(BASE, v.normalizedBorrowedAmount * p.currentBorrowIndex, BASE);
    }
  }

  /** The validation of the snapshot does not check the maximum score: a zero maximum passes it
      and still makes the assessment of a debtor throw. */
  lemma ZeroMaxScoreThrows()
    ensures var raw := RawParameters(2 * BASE, BASE, BASE, "arcx.credit", BASE, 0);
      && GetCoreParameters(raw).Success?
      && CheckLiquidatable("0xb", GetCoreParameters(raw).value, Vault(BASE, BASE), None) == Failure(DivisionByZero)
  {
    var raw := RawParameters(2 * BASE, BASE, BASE, "arcx.credit", BASE, 0);
    var p := GetCoreParameters(raw).value;
    assert |Utf8Encode("arcx.credit")| == 11;
    assert ProofUsed("0xb", p.protocol, None).Success?;
  }

  /** A non-zero borrow index below one unit also passes the validation, and a debt small enough
      then denormalizes to zero, which the current-ratio division throws on. */
  lemma SmallBorrowIndexThrows()
    ensures var raw := RawParameters(2 * BASE, BASE, 1, "arcx.credit", BASE, 1000);
      && GetCoreParameters(raw).Success?
      && CheckLiquidatable("0xb", GetCoreParameters(raw).value, Vault(1, BASE), None) == Failure(DivisionByZero)
  {
    var raw := RawParameters(2 * BASE, BASE, 1, "arcx.credit", BASE, 1000);
    var p := GetCoreParameters(raw).value;
    assert |Utf8Encode("arcx.credit")| == 11;
    assert ProofUsed("0xb", p.protocol, None).Success?;
    assert DenormalizedBorrowAmount(Vault(1, BASE), p) == 0;
  }

  /** A vault whose current ratio equals the assessed ratio exactly is liquidatable: a score of
      half the maximum puts the demanded ratio half-way between 200% and 100%, and a vault at
      150% is then at the limit. */
  lemma AtTheLimitIsLiquidatable()
    ensures var p := CoreParameters(2 * BASE, BASE, BASE, BASE, 1000, "arcx.credit");
      var r := CheckLiquidatable("0xb", p, Vault(BASE, 3 * BASE / 2), Some(ScoreProof("0xb", [], 500, [])));
      && r.Success?
      && r.value.assessedCRatio == Some(3 * BASE / 2)
      && r.value.isLiquidatable
  {
    var p := CoreParameters(2 * BASE, BASE, BASE, BASE, 1000, "arcx.credit");
    assert AssessedCRatio(2 * BASE, BASE, 500, 1000) == 3 * BASE / 2;
    assert DenormalizedBorrowAmount(Vault(BASE, 3 * BASE / 2), p) == BASE;
    assert CollateralValue(Vault(BASE, 3 * BASE / 2), p) == 3 * BASE / 2;
  }

  // ---------------------------------------------------------------------------------------
  // Arithmetic facts

  lemma MulMono(x: int, y: int, c: nat)
    requires x <= y
    ensures x * c <= y * c
  {
    assert y * c - x * c == (y - x) * c;
  }

  lemma DivFacts(a: int, d: nat)
    requires d > 0
    ensures (a / d) * d <= a < (a / d) * d + d
  {
  }

  lemma NegatedDivFacts(n: int, b: nat)
    requires n >= 0 && b > 0
    ensures -(n / b) <= 0 && -n <= -(n / b) * b < -n + b
  {
    DivFacts(n, b);
    assert -(n / b) * b == -((n / b) * b);
  }

  lemma MulCancelLt(x: int, y: int, d: nat)
    requires d > 0 && x * d < y * d
    ensures x < y
  {
    if x >= y {
      MulMono(y, x, d);
    }
  }

  lemma DivMonotone(a: int, b: int, d: nat)
    requires a <= b && d > 0
    ensures a / d <= b / d
  {
    DivFacts(a, d);
    DivFacts(b, d);
    MulCancelLt(a / d, b / d + 1, d);
  }

  lemma DivAntitone(x: nat, d1: nat, d2: nat)
    requires 0 < d1 <= d2
    ensures x / d2 <= x / d1
  {
    DivFacts(x, d1);
    DivFacts(x, d2);
    MulMono(d1, d2, x / d2);
    MulCancelLt(x / d2, x / d1 + 1, d1);
  }

  lemma DivOfMultiple(m: nat, d: int)
    requires m > 0
    ensures (m * d) / m == d
  {
    DivFacts(m * d, m);
    MulCancelLt((m * d) / m, d + 1, m);
    MulCancelLt(d, (m * d) / m + 1, m);
  }
}
