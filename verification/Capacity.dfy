/**
 Capacities: the CSI capacity range, the rounding to GiB and the 64-bit arithmetic around it
 (pkg/csi_driver/controller.go, pkg/util/util.go).
 */
module Capacity {
  import opened Options

  const GIB := 1024 * 1024 * 1024
  const MIN_VOLUME_BYTES := 9000 * GIB
  const TWO_63 := 0x8000_0000_0000_0000
  /** The number of whole GiB an int64 count of bytes can hold. */
  const MAX_GIB := 0x2_0000_0000

  type int64 = x: int | -TWO_63 <= x < TWO_63

  /** Two's-complement wrap-around of an int64 result. */
  function Wrap64(x: int): int64 {
    (x + TWO_63) % (2 * TWO_63) - TWO_63
  }

  /** instance.CapacityGib * util.Gib */
  function GibToBytes(gib: int): int64 {
    Wrap64(gib * GIB)
  }

  /** Go's division truncates toward zero. */
  function BytesToGib(bytes: int64): int64 {
    var b: int := bytes;
    if b >= 0 then b / GIB else -(-b / GIB)
  }

  datatype CapacityRange = CapacityRange(required: int64, limit: int64)

  function RequestCapacity(range: Option<CapacityRange>): Option<int64> {
    match range
    case None => Some(MIN_VOLUME_BYTES)
    case Some(CapacityRange(required, limit)) =>
      if limit > 0 && required > 0 && limit < required then None
      else if limit > 0 && limit < MIN_VOLUME_BYTES then None
      else if required > 0 then Some(required)
      else Some(MIN_VOLUME_BYTES)
  }

  /** The size is within what the range asks for; a bound that is not positive is not set. */
  predicate Admissible(range: CapacityRange, bytes: int) {
    && (range.required > 0 ==> range.required <= bytes)
    && (range.limit > 0 ==> bytes <= range.limit)
  }

  /** A range is refused exactly when no size of at least the minimum fits it, and otherwise answered within it. */
  lemma RequestCapacityMeetsRange(range: CapacityRange)
    ensures RequestCapacity(Some(range)).None? <==>
              forall bytes: int | bytes >= MIN_VOLUME_BYTES :: !Admissible(range, bytes)
    ensures var r := RequestCapacity(Some(range)); r.Some? ==> r.value > 0 && Admissible(range, r.value)
  {
    if RequestCapacity(Some(range)).Some? {
      var bytes := if range.required > MIN_VOLUME_BYTES then range.required else MIN_VOLUME_BYTES;
      assert Admissible(range, bytes);
    }
  }

  /** The answer is the required size where one is set, and otherwise the minimum. */
  lemma RequestCapacityIsRequired(range: Option<CapacityRange>)
    ensures range.None? ==> RequestCapacity(range) == Some(9000 * 1073741824)
    ensures range.Some? && RequestCapacity(range).Some? ==>
              var required := range.value.required;
              RequestCapacity(range).value == if required > 0 then required else 9000 * 1073741824
  {
  }

  /** Below MAX_GIB the product does not wrap. */
  lemma NoWrap(gib: int)
    requires 0 <= gib < MAX_GIB
    ensures GibToBytes(gib) == gib * GIB
  {
  }

  /** Rounding down loses less than one GiB and never leaves the range of int64. */
  lemma RoundingDown(bytes: int64)
    requires bytes > 0
    ensures 0 <= BytesToGib(bytes) < MAX_GIB
    ensures GibToBytes(BytesToGib(bytes)) <= bytes < GibToBytes(BytesToGib(bytes)) + GIB
  {
    assert BytesToGib(bytes) < MAX_GIB;
    NoWrap(BytesToGib(bytes));
  }

  lemma RoundingIsMonotone(a: int64, b: int64)
    requires 0 < a <= b
    ensures BytesToGib(a) <= BytesToGib(b)
  {
  }

  /** A size that is short of the request in bytes is at most the request in GiB. */
  lemma ShortInBytes(gib: int, bytes: int64)
    requires 0 <= gib < MAX_GIB && 0 < bytes && GibToBytes(gib) < bytes
    ensures gib <= BytesToGib(bytes)
  {
    NoWrap(gib);
  }
}
