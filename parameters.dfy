/** The risk-parameter snapshot of one core and its validation (`_getCoreParameters`,
    written identically in both engine variants). */
module Parameters {
  import opened Common

  /** What the batched reads return: four core views, the oracle price and the assessor's maximum score. */
  datatype RawParameters = RawParameters(
    highCRatio: nat,
    lowCRatio: nat,
    currentBorrowIndex: nat,
    protocol: string,
    price: nat,
    maxScore: nat)

  /** The snapshot the assessor works with. Ratios and the index are 18-decimal fixed point. */
  datatype CoreParameters = CoreParameters(
    highCRatio: nat,
    lowCRatio: nat,
    currentBorrowIndex: nat,
    currentPrice: nat,
    maxScore: nat,
    protocol: string)

  /** What the validation guarantees of a snapshot; price and maximum score are not checked. */
  predicate IsValidSnapshot(p: CoreParameters) {
    p.highCRatio != 0 && p.lowCRatio != 0 && p.currentBorrowIndex != 0 && p.protocol != ""
  }

  /** The checks of `_getCoreParameters`, in source order; on success the six values are passed on unchanged. */
  function GetCoreParameters(raw: RawParameters): (r: Result<CoreParameters>)
    ensures r.Success? <==>
      raw.highCRatio != 0 && raw.lowCRatio != 0 && raw.currentBorrowIndex != 0 && raw.protocol != ""
    ensures r.Success? ==> IsValidSnapshot(r.value)
    ensures r.Success? ==> r.value == CoreParameters(raw.highCRatio, raw.lowCRatio,
      raw.currentBorrowIndex, raw.price, raw.maxScore, raw.protocol)
    ensures raw.highCRatio == 0 ==> r == Failure(HighCRatioZero)
    ensures raw.highCRatio != 0 && raw.lowCRatio == 0 ==> r == Failure(LowCRatioZero)
    ensures raw.highCRatio != 0 && raw.lowCRatio != 0 && raw.currentBorrowIndex == 0 ==> r == Failure(BorrowIndexZero)
    ensures raw.highCRatio != 0 && raw.lowCRatio != 0 && raw.currentBorrowIndex != 0 && raw.protocol == "" ==>
      r == Failure(ProtocolUndefined)
  {
    if raw.highCRatio == 0 then Failure(HighCRatioZero)
    else if raw.lowCRatio == 0 then Failure(LowCRatioZero)
    else if raw.currentBorrowIndex == 0 then Failure(BorrowIndexZero)
    else if raw.protocol == "" then Failure(ProtocolUndefined)
    else Success(CoreParameters(raw.highCRatio, raw.lowCRatio, raw.currentBorrowIndex,
      raw.price, raw.maxScore, raw.protocol))
  }
}
