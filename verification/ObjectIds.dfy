/** Object identities and the total order the object table is sorted by. */
module ObjectIds {

  const UINT64_MAX: nat := 0xFFFF_FFFF_FFFF_FFFF

  type Byte = b: int | 0 <= b < 256

  datatype Option<+T> = None | Some(value: T)

  datatype ObjectId = ObjectId(high: nat, low: nat)

  predicate IsZero(id: ObjectId) {
    id.high == 0 && id.low == 0
  }

  /** Three-way lexicographic comparison: the sign of the result orders the ids. */
  function Compare(left: ObjectId, right: ObjectId): int {
    if left.high < right.high then -1
    else if left.high > right.high then 1
    else if left.low < right.low then -1
    else if left.low > right.low then 1
    else 0
  }

  predicate Less(left: ObjectId, right: ObjectId) {
    Compare(left, right) < 0
  }
}
